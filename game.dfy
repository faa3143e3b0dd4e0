/** The top-level reducer that the input stream is folded with (pong.ts:346-360), the
    fold itself (pong.ts:383) and the phase invariant that the two together keep. */
module Game {
  import opened Bodies
  import opened Paddles
  import opened Blocks
  import opened Physics

  const LeftWins: string := "Left Player Wins! Restart?"
  const RightWins: string := "Right Player Wins! Restart?"

  /** What the input adapter guarantees of the actions it emits: a Resize never
      makes the paddle flat. */
  predicate ValidAction(e: Action)
  {
    e.Resize? ==> e.height > 0.0
  }

  /** One reduction step. A Click out of the running phase restarts the game from the
      initial state, keeping the blocks and blanking the centre text. Before the first
      Click everything else is ignored; after the game has ended everything else only
      rewrites the winner message. While running, Pull aligns the AI paddle with the
      player's and highlights the player's paddle, Block spawns the grid if there is
      none, and every other action goes to the player's paddle; all but Block are
      followed by a physics step. */
  function ReduceGame(m: MathFns, s: GameState, e: Action): (r: GameState)
    requires PaddlesSized(s) && ValidAction(e)
    ensures PaddlesSized(r)
  {
    if e.Click? && (s.restart == false || s.start == false) then
      InitialGame.(blocks := s.blocks, restart := true, start := true, centerText := s.centerText.(text := ""))
    else if s.start == false then s
    else if s.restart == false then
      s.(centerText := s.centerText.(text := if s.leftS.score == WinningScore then LeftWins else RightWins))
    else if e.Block? then
      s.(blocks := if |s.blocks| == 0 then AddBlocks(s.blocks) else s.blocks)
    else HandleCalc(m, PhysicsInput(s, e))
  }

  /** The state a running game hands to the physics step. Pull gives the player's
      paddle the Pull's colour and lines the AI paddle up with it; the timer's first
      value, 0, is falsy and hands over the state as it is; every other action goes to
      the player's paddle. Only the paddles can differ from the state given. */
  function PhysicsInput(s: GameState, e: Action): (p: GameState)
    requires PaddlesSized(s) && ValidAction(e)
    ensures PaddlesSized(p)
    ensures p.(leftP := s.leftP, rightP := s.rightP) == s
    ensures e.Pull? ==> p.leftP == s.leftP.(fill := e.color) && p.rightP == s.rightP.(y := s.leftP.y)
    ensures !e.Pull? ==> p.leftP == ReducePaddle(s.leftP, e) && p.rightP == s.rightP
  {
    if e.Pull? then s.(leftP := ReducePaddle(s.leftP, Highlight(e.color)), rightP := s.rightP.(y := s.leftP.y))
    else if e == Tick(0) then s
    else s.(leftP := ReducePaddle(s.leftP, e))
  }

  predicate Running(s: GameState) { s.start && s.restart }

  predicate Ended(s: GameState) { s.start && !s.restart }

  /** Before the first Click, every other action leaves the state as it is. */
  lemma NotStartedIgnoresInput(m: MathFns, s: GameState, e: Action)
    requires PaddlesSized(s) && ValidAction(e)
    requires !s.start && !e.Click?
    ensures ReduceGame(m, s, e) == s
  {
  }

  /** A Click when the game is not running starts a fresh game: every body back to
      its initial value, both flags set, the centre text blank, the blocks kept. */
  lemma ClickRestarts(m: MathFns, s: GameState)
    requires PaddlesSized(s)
    requires !Running(s)
    ensures var r := ReduceGame(m, s, Click);
      && Running(r)
      && r.leftP == InitialPlayer && r.rightP == InitialAI && r.ball == InitialBall
      && r.leftS.score == 0 && r.rightS.score == 0
      && r.leftS == InitialLeftScore && r.rightS == InitialRightScore
      && r.centerText == s.centerText.(text := "")
      && r.blocks == s.blocks
  {
  }

  /** After the game has ended, anything but a Click changes only the centre text,
      which names the left player exactly when the left score is 7. */
  lemma EndedOnlyAnnounces(m: MathFns, s: GameState, e: Action)
    requires PaddlesSized(s) && ValidAction(e)
    requires Ended(s) && !e.Click?
    ensures var r := ReduceGame(m, s, e);
      && r.(centerText := s.centerText) == s
      && r.centerText.(text := s.centerText.text) == s.centerText
      && (r.centerText.text == LeftWins <==> s.leftS.score == WinningScore)
      && (r.centerText.text == RightWins <==> s.leftS.score != WinningScore)
  {
  }

  /** While running, Pull puts the AI paddle at the player's height, gives the player's
      paddle the Pull's colour, and then runs the physics step. */
  lemma PullAssists(m: MathFns, s: GameState, color: string)
    requires PaddlesSized(s) && Running(s)
    ensures ReduceGame(m, s, Pull(color))
         == HandleCalc(m, s.(leftP := s.leftP.(fill := color), rightP := s.rightP.(y := s.leftP.y)))
  {
  }

  /** While running, Block skips the physics step: with no blocks it adds the 36-block
      grid and changes nothing else; with blocks present it changes nothing at all. */
  lemma BlockSpawns(m: MathFns, s: GameState)
    requires PaddlesSized(s) && Running(s)
    ensures var r := ReduceGame(m, s, Block);
      && r.(blocks := s.blocks) == s
      && (s.blocks == [] ==> |r.blocks| == GridSize)
      && (s.blocks == [] ==> forall k :: 0 <= k < GridSize ==> r.blocks[k] == GridBlock(k / 12, k % 12))
      && (s.blocks != [] ==> r == s)
  {
  }

  /** Two Blocks in a row spawn one grid, not two. */
  lemma BlockTwiceSpawnsOnce(m: MathFns, s: GameState)
    requires PaddlesSized(s) && Running(s) && s.blocks == []
    ensures |ReduceGame(m, ReduceGame(m, s, Block), Block).blocks| == GridSize
  {
  }

  /** While running, Move, Resize, Highlight and Click go to the player's paddle and
      then to the physics step; Click leaves the paddle as it is. */
  lemma PaddleActionsThenPhysics(m: MathFns, s: GameState, e: Action)
    requires PaddlesSized(s) && Running(s) && ValidAction(e)
    requires e.Move? || e.Resize? || e.Highlight? || e.Click?
    ensures ReduceGame(m, s, e) == HandleCalc(m, s.(leftP := ReducePaddle(s.leftP, e)))
    ensures e.Click? ==> ReduceGame(m, s, e) == HandleCalc(m, s)
  {
  }

  /** While running, every timer value runs the physics step on the state as it is. */
  lemma TickRunsPhysics(m: MathFns, s: GameState, n: nat)
    requires PaddlesSized(s) && Running(s)
    ensures ReduceGame(m, s, Tick(n)) == HandleCalc(m, s)
  {
  }

  /** The phase invariant: scores stay within 0..7 and never both reach 7; the running
      flag implies the started flag; once started, the game runs exactly while both
      scores are below 7. */
  predicate Inv(s: GameState)
  {
    && PaddlesSized(s)
    && s.leftS.score <= WinningScore && s.rightS.score <= WinningScore
    && !(s.leftS.score == WinningScore && s.rightS.score == WinningScore)
    && (s.restart ==> s.start)
    && (s.start ==> (s.restart <==> s.leftS.score < WinningScore && s.rightS.score < WinningScore))
  }

  lemma InitialGameInv()
    ensures Inv(InitialGame)
  {
  }

  /** Every reduction step keeps the phase invariant. */
  lemma ReduceGameKeepsInv(m: MathFns, s: GameState, e: Action)
    requires Inv(s) && ValidAction(e)
    ensures Inv(ReduceGame(m, s, e))
  {
    if e.Click? && !Running(s) {
      ClickRestarts(m, s);
    } else if !s.start {
      NotStartedIgnoresInput(m, s, e);
    } else if !s.restart {
      EndedOnlyAnnounces(m, s, e);
    } else if e.Block? {
      BlockSpawns(m, s);
    } else {
      // the physics step runs on a state with the same scores, and each step moves
      // at most one score by one, from below 7
      RunningStep(m, s, e);
    }
  }

  predicate AllValid(es: seq<Action>)
  {
    forall i :: 0 <= i < |es| ==> ValidAction(es[i])
  }

  /** scan(reduceGame, s): the state after folding the reducer over the actions. */
  function Run(m: MathFns, s: GameState, es: seq<Action>): (r: GameState)
    requires PaddlesSized(s) && AllValid(es)
    ensures PaddlesSized(r)
    decreases |es|
  {
    if es == [] then s
    else
      assert ValidAction(es[0]) && AllValid(es[1..]);
      Run(m, ReduceGame(m, s, es[0]), es[1..])
  }

  /** Folding any valid actions over a state that keeps the invariant keeps it. */
  lemma {:induction false} RunKeepsInv(m: MathFns, s: GameState, es: seq<Action>)
    requires Inv(s) && AllValid(es)
    ensures Inv(Run(m, s, es))
    decreases |es|
  {
    if es != [] {
      ReduceGameKeepsInv(m, s, es[0]);
      assert AllValid(es[1..]) && Run(m, s, es) == Run(m, ReduceGame(m, s, es[0]), es[1..]);
      RunKeepsInv(m, ReduceGame(m, s, es[0]), es[1..]);
    }
  }

  /** The ball's speed stays within the rebound bounds, and the blocks are distinct
      cells of one grid. */
  predicate Bounded(s: GameState)
  {
    SpeedBounded(s.ball) && FromGrid(s.blocks)
  }

  lemma InitialGameBounded()
    ensures Bounded(InitialGame)
  {
  }

  /** Every reduction step keeps the ball's speed bounded and the blocks a set of grid
      cells. A step removes at most one block, and adds blocks only by spawning a whole
      grid into an empty list. */
  lemma ReduceGameKeepsBounded(m: MathFns, s: GameState, e: Action)
    requires PaddlesSized(s) && ValidAction(e) && ValidMath(m) && Bounded(s)
    ensures var r := ReduceGame(m, s, e);
      && Bounded(r)
      && (|r.blocks| == |s.blocks| || |r.blocks| == |s.blocks| - 1 || (s.blocks == [] && |r.blocks| == GridSize))
  {
    if !Running(s) {
      StoppedKeepsBounded(m, s, e);
    } else if e.Block? {
      SpawnKeepsBounded(m, s);
    } else {
      RunningStep(m, s, e);
      HandleCalcKeepsBounded(m, PhysicsInput(s, e));
    }
  }

  /** Out of the running phase the ball and the blocks either stay or are reset. */
  lemma StoppedKeepsBounded(m: MathFns, s: GameState, e: Action)
    requires PaddlesSized(s) && ValidAction(e) && !Running(s) && Bounded(s)
    ensures Bounded(ReduceGame(m, s, e)) && ReduceGame(m, s, e).blocks == s.blocks
  {
    if e.Click? {
      ClickRestarts(m, s);
    } else if !s.start {
      NotStartedIgnoresInput(m, s, e);
    } else {
      EndedOnlyAnnounces(m, s, e);
    }
  }

  /** While running, every action but Block hands its state to the physics step. */
  lemma RunningStep(m: MathFns, s: GameState, e: Action)
    requires PaddlesSized(s) && ValidAction(e) && Running(s) && !e.Block?
    ensures ReduceGame(m, s, e) == HandleCalc(m, PhysicsInput(s, e))
  {
  }

  /** Block adds a grid only to an empty list, so the list stays one grid's cells. */
  lemma SpawnKeepsBounded(m: MathFns, s: GameState)
    requires PaddlesSized(s) && Running(s) && Bounded(s)
    ensures var r := ReduceGame(m, s, Block);
      && Bounded(r)
      && (r.blocks == s.blocks || (s.blocks == [] && |r.blocks| == GridSize))
  {
    if s.blocks == [] {
      assert ReduceGame(m, s, Block) == s.(blocks := Grid());
      GridFromGrid();
    }
  }

  /** The physics step on its own keeps the bounds and removes at most one block. */
  lemma HandleCalcKeepsBounded(m: MathFns, s: GameState)
    requires PaddlesSized(s) && ValidMath(m) && Bounded(s)
    ensures Bounded(HandleCalc(m, s))
    ensures |HandleCalc(m, s).blocks| == |s.blocks| || |HandleCalc(m, s).blocks| == |s.blocks| - 1
  {
    HandleCalcKeepsSpeedBounded(m, s);
    HandleCalcStrikesAtMostOne(m, s);
  }

  /** Folding any valid actions keeps the bounds. */
  lemma {:induction false} RunKeepsBounded(m: MathFns, s: GameState, es: seq<Action>)
    requires PaddlesSized(s) && AllValid(es) && ValidMath(m) && Bounded(s)
    ensures Bounded(Run(m, s, es))
    decreases |es|
  {
    if es != [] {
      ReduceGameKeepsBounded(m, s, es[0]);
      assert AllValid(es[1..]) && Run(m, s, es) == Run(m, ReduceGame(m, s, es[0]), es[1..]);
      RunKeepsBounded(m, ReduceGame(m, s, es[0]), es[1..]);
    }
  }

  /** In every state the game can reach, |speedX| <= 3.5 and |speedY| <= 2, and the
      next step removes at most one block. */
  lemma ReachableBounded(m: MathFns, es: seq<Action>, e: Action)
    requires AllValid(es) && ValidAction(e) && ValidMath(m)
    ensures var s := Run(m, InitialGame, es);
      && Abs(s.ball.speedX) <= MaxBallSpeedX && Abs(s.ball.speedY) <= MaxBallSpeedY
      && |ReduceGame(m, s, e).blocks| >= |s.blocks| - 1
  {
    InitialGameBounded();
    RunKeepsBounded(m, InitialGame, es);
    ReduceGameKeepsBounded(m, Run(m, InitialGame, es), e);
  }

  /** In every state the game can reach, the message shown once the game has ended
      names the player whose score reached 7, and the other player's score is below 7. */
  lemma WinnerAnnounced(m: MathFns, es: seq<Action>, e: Action)
    requires AllValid(es) && ValidAction(e) && !e.Click?
    requires Ended(Run(m, InitialGame, es))
    ensures var s := Run(m, InitialGame, es);
      var t := ReduceGame(m, s, e).centerText.text;
      && (t == LeftWins <==> s.leftS.score == WinningScore && s.rightS.score < WinningScore)
      && (t == RightWins <==> s.rightS.score == WinningScore && s.leftS.score < WinningScore)
  {
    InitialGameInv();
    RunKeepsInv(m, InitialGame, es);
  }

  /** Once the game has ended, no sequence of actions without a Click changes the ball,
      the paddles, the scores or the blocks, and the game stays ended. */
  lemma {:induction false} EndedIsFrozen(m: MathFns, s: GameState, es: seq<Action>)
    requires PaddlesSized(s) && AllValid(es) && Ended(s)
    requires forall i :: 0 <= i < |es| ==> !es[i].Click?
    ensures var r := Run(m, s, es);
      && Ended(r)
      && r.ball == s.ball && r.leftP == s.leftP && r.rightP == s.rightP
      && r.leftS == s.leftS && r.rightS == s.rightS && r.blocks == s.blocks
    decreases |es|
  {
    if es != [] {
      var s' := ReduceGame(m, s, es[0]);
      EndedOnlyAnnounces(m, s, es[0]);
      assert s'.(centerText := s.centerText) == s;
      EndedIsFrozen(m, s', es[1..]);
    }
  }
}
