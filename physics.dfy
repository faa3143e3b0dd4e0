/** The per-tick physics step (pong.ts:186-231) and the paddle rebound speeds
    (pong.ts:240-253). All collision tests look at the ball's centre before it moves. */
module Physics {
  import opened Bodies
  import opened Blocks

  function Abs(x: real): real { if x < 0.0 then -x else x }

  function Max(x: real, y: real): real { if x >= y then x else y }

  /** The ball's centre lies in the paddle's rectangle, edges included. */
  predicate PaddleHit(a: PaddleBody, b: BallBody)
  {
    b.cx <= a.x + a.width && b.cx >= a.x && b.cy <= a.y + a.height && b.cy >= a.y
  }

  /** The centre is strictly above the top or below the bottom of the canvas. */
  predicate WallY(b: BallBody) { b.cy < 0.0 || b.cy > H }

  /** The centre is strictly left of the canvas: the right player scores. */
  predicate WallL(b: BallBody) { b.cx < 0.0 }

  /** The centre is strictly right of the canvas: the left player scores. */
  predicate WallR(b: BallBody) { b.cx > W }

  /** The angle handed to cos and sin: the ball's offset from the paddle's vertical
      centre, as a fraction of half the paddle's height, times 80 degrees in radians,
      times a further PI / 2. */
  function Angle(m: MathFns, a: PaddleBody, b: BallBody): (r: real)
    requires a.height > 0.0
    ensures b.cy == PaddleCentre(a) ==> r == 0.0
  {
    ((a.y + a.height / 2.0 - b.cy) / (a.height / 2.0)) * 80.0 * m.PI / 180.0 * m.PI / 2.0
  }

  /** Horizontal rebound speed off paddle a: MaxBallSpeedX scaled by |cos| of the
      angle, but never below 1. */
  function NewSpeedX(m: MathFns, a: PaddleBody, b: BallBody): (r: real)
    requires a.height > 0.0
    ensures r >= 1.0
    ensures ValidMath(m) ==> r <= MaxBallSpeedX
    ensures ValidMath(m) && b.cy == PaddleCentre(a) ==> r == MaxBallSpeedX
    ensures r >= MaxBallSpeedX * Abs(m.cos(Angle(m, a, b)))
    ensures r == 1.0 || r == MaxBallSpeedX * Abs(m.cos(Angle(m, a, b)))
  {
    Max(MaxBallSpeedX * Abs(m.cos(Angle(m, a, b))), 1.0)
  }

  /** Vertical rebound speed off paddle a: -MaxBallSpeedY times sin of the angle. */
  function NewSpeedY(m: MathFns, a: PaddleBody, b: BallBody): (r: real)
    requires a.height > 0.0
    ensures ValidMath(m) ==> -MaxBallSpeedY <= r <= MaxBallSpeedY
    ensures ValidMath(m) && b.cy == PaddleCentre(a) ==> r == 0.0
  {
    -MaxBallSpeedY * m.sin(Angle(m, a, b))
  }

  /** Both paddles have a positive height, so the rebound speeds are defined. */
  predicate PaddlesSized(s: GameState)
  {
    s.leftP.height > 0.0 && s.rightP.height > 0.0
  }

  /** A paddle's vertical centre line. */
  function PaddleCentre(p: PaddleBody): real { p.y + p.height / 2.0 }

  /** One physics step: new ball velocity and position, scores, the end-of-game flag,
      the AI paddle and the surviving blocks. Nothing else in the state changes. */
  function HandleCalc(m: MathFns, s: GameState): (r: GameState)
    requires PaddlesSized(s)
    // scoring: a goal on the right wall scores for the left player and vice versa
    ensures r.leftS.score == s.leftS.score + 1 <==> s.ball.cx > W
    ensures r.rightS.score == s.rightS.score + 1 <==> s.ball.cx < 0.0
    ensures r.leftS.score == s.leftS.score || r.leftS.score == s.leftS.score + 1
    ensures r.rightS.score == s.rightS.score || r.rightS.score == s.rightS.score + 1
    ensures r.leftS.score == s.leftS.score || r.rightS.score == s.rightS.score
    ensures r.leftS.id == s.leftS.id && r.rightS.id == s.rightS.id
    ensures r.restart <==> r.leftS.score < WinningScore && r.rightS.score < WinningScore
    // blocks: exactly the struck ones are removed, and the list never grows
    ensures r.blocks == Survivors(s.ball, s.blocks)
    ensures forall x :: x in r.blocks <==> x in s.blocks && !BlockHit(s.ball, x)
    ensures |r.blocks| <= |s.blocks|
    ensures |r.blocks| < |s.blocks| <==> AnyHit(s.ball, s.blocks)
    // the AI paddle moves by AISpeed towards the ball and nothing else about it changes
    ensures r.rightP.(y := s.rightP.y) == s.rightP
    ensures r.rightP.y == s.rightP.y - AISpeed || r.rightP.y == s.rightP.y + AISpeed
    ensures r.rightP.y < s.rightP.y <==> s.ball.cy < PaddleCentre(s.rightP)
    // untouched parts of the state
    ensures r.leftP == s.leftP && r.centerText == s.centerText && r.start == s.start
    ensures r.ball.id == s.ball.id && r.ball.r == s.ball.r && r.ball.fill == s.ball.fill
  {
    var b := s.ball;
    var leftPcol := PaddleHit(s.leftP, b);
    var rightPcol := PaddleHit(s.rightP, b);
    var nSpeedX :=
      if leftPcol then NewSpeedX(m, s.leftP, b)
      else if rightPcol then -NewSpeedX(m, s.rightP, b)
      else if HitFold(b, false, s.blocks) then -b.speedX
      else if WallR(b) then 1.5
      else if WallL(b) then -1.5
      else b.speedX;
    var nSpeedY :=
      if leftPcol then NewSpeedY(m, s.leftP, b)
      else if rightPcol then NewSpeedY(m, s.rightP, b)
      else if WallY(b) then -b.speedY
      else if WallR(b) || WallL(b) then 0.0
      else b.speedY;
    var nCx :=
      if leftPcol then s.leftP.x + s.leftP.width
      else if rightPcol then s.rightP.x
      else if WallR(b) || WallL(b) then W / 2.0
      else b.cx;
    var nCy := if WallR(b) || WallL(b) then H / 2.0 else b.cy;
    var nScoreL := if WallR(b) then s.leftS.score + 1 else s.leftS.score;
    var nScoreR := if WallL(b) then s.rightS.score + 1 else s.rightS.score;
    ShrinksIffHit(b, s.blocks);
    s.(ball := b.(speedX := nSpeedX, speedY := nSpeedY, cx := nCx + nSpeedX, cy := nCy + nSpeedY),
       rightP := s.rightP.(y := if b.cy < PaddleCentre(s.rightP) then s.rightP.y - AISpeed else s.rightP.y + AISpeed),
       leftS := s.leftS.(score := nScoreL),
       rightS := s.rightS.(score := nScoreR),
       restart := nScoreL < WinningScore && nScoreR < WinningScore,
       blocks := Survivors(b, s.blocks))
  }

  /** The new horizontal speed, by priority: left paddle, right paddle (reversed), any
      block (reversed), right wall, left wall, otherwise unchanged. */
  lemma SpeedXPrecedence(m: MathFns, s: GameState)
    requires PaddlesSized(s)
    ensures var b, v := s.ball, HandleCalc(m, s).ball.speedX;
      && (PaddleHit(s.leftP, b) ==> v == NewSpeedX(m, s.leftP, b))
      && (!PaddleHit(s.leftP, b) && PaddleHit(s.rightP, b) ==> v == -NewSpeedX(m, s.rightP, b))
      && (!PaddleHit(s.leftP, b) && !PaddleHit(s.rightP, b) && AnyHit(b, s.blocks) ==> v == -b.speedX)
      && (!PaddleHit(s.leftP, b) && !PaddleHit(s.rightP, b) && !AnyHit(b, s.blocks) ==>
            v == (if WallR(b) then 1.5 else if WallL(b) then -1.5 else b.speedX))
  {
    HitFoldIsAnyHit(s.ball, false, s.blocks);
  }

  /** The new vertical speed, by priority: left paddle, right paddle, top or bottom
      wall (reversed), a goal (zero), otherwise unchanged. Blocks never change it. */
  lemma SpeedYPrecedence(m: MathFns, s: GameState)
    requires PaddlesSized(s)
    ensures var b, v := s.ball, HandleCalc(m, s).ball.speedY;
      && (PaddleHit(s.leftP, b) ==> v == NewSpeedY(m, s.leftP, b))
      && (!PaddleHit(s.leftP, b) && PaddleHit(s.rightP, b) ==> v == NewSpeedY(m, s.rightP, b))
      && (!PaddleHit(s.leftP, b) && !PaddleHit(s.rightP, b) && WallY(b) ==> v == -b.speedY)
      && (!PaddleHit(s.leftP, b) && !PaddleHit(s.rightP, b) && !WallY(b) && (WallR(b) || WallL(b)) ==> v == 0.0)
      && (!PaddleHit(s.leftP, b) && !PaddleHit(s.rightP, b) && !WallY(b) && !WallR(b) && !WallL(b) ==> v == b.speedY)
  {
  }

  /** The ball moves by its new velocity from where the step puts it first: snapped to
      the face of the paddle it hit, reset to the centre after a goal, or left where it
      was. */
  lemma BallPosition(m: MathFns, s: GameState)
    requires PaddlesSized(s)
    ensures var b, nb := s.ball, HandleCalc(m, s).ball;
      && (PaddleHit(s.leftP, b) ==> nb.cx - nb.speedX == s.leftP.x + s.leftP.width)
      && (!PaddleHit(s.leftP, b) && PaddleHit(s.rightP, b) ==> nb.cx - nb.speedX == s.rightP.x)
      && (!PaddleHit(s.leftP, b) && !PaddleHit(s.rightP, b) && (WallR(b) || WallL(b)) ==> nb.cx - nb.speedX == W / 2.0)
      && (!PaddleHit(s.leftP, b) && !PaddleHit(s.rightP, b) && !WallR(b) && !WallL(b) ==> nb.cx - nb.speedX == b.cx)
      && (WallR(b) || WallL(b) ==> nb.cy - nb.speedY == H / 2.0)
      && (!WallR(b) && !WallL(b) ==> nb.cy - nb.speedY == b.cy)
  {
  }

  /** After a paddle hit the ball leaves the paddle horizontally at a speed of at
      least 1 and at most MaxBallSpeedX, and vertically at most MaxBallSpeedY. */
  lemma PaddleReboundBounds(m: MathFns, s: GameState)
    requires PaddlesSized(s) && ValidMath(m)
    requires PaddleHit(s.leftP, s.ball) || PaddleHit(s.rightP, s.ball)
    ensures var v := HandleCalc(m, s).ball;
      && 1.0 <= Abs(v.speedX) <= MaxBallSpeedX
      && Abs(v.speedY) <= MaxBallSpeedY
      && (PaddleHit(s.leftP, s.ball) ==> v.speedX > 0.0)
      && (!PaddleHit(s.leftP, s.ball) ==> v.speedX < 0.0)
  {
  }

  /** The ball's speed stays within the rebound bounds on each axis. */
  predicate SpeedBounded(b: BallBody)
  {
    Abs(b.speedX) <= MaxBallSpeedX && Abs(b.speedY) <= MaxBallSpeedY
  }

  /** The physics step keeps the speed bounds without clamping: a paddle rebound is
      bounded by the rebound functions, a block or a top or bottom wall only reverses
      a speed, and a goal serves at 1.5 and 0. */
  lemma HandleCalcKeepsSpeedBounded(m: MathFns, s: GameState)
    requires PaddlesSized(s) && ValidMath(m) && SpeedBounded(s.ball)
    ensures SpeedBounded(HandleCalc(m, s).ball)
  {
    SpeedXPrecedence(m, s);
    SpeedYPrecedence(m, s);
  }

  /** On a list of distinct grid blocks the physics step removes at most one block,
      and the list it leaves is again such a list. */
  lemma HandleCalcStrikesAtMostOne(m: MathFns, s: GameState)
    requires PaddlesSized(s) && FromGrid(s.blocks)
    ensures |HandleCalc(m, s).blocks| == |s.blocks| || |HandleCalc(m, s).blocks| == |s.blocks| - 1
    ensures FromGrid(HandleCalc(m, s).blocks)
  {
    AtMostOneStruck(s.ball, s.blocks);
    SurvivorsFromGrid(s.ball, s.blocks);
  }

  /** A goal with no paddle or block in the way puts the ball back in the centre and
      sends it horizontally at 1.5 towards the side of the player who scored; the
      vertical speed drops to 0 unless the ball is also past the top or bottom wall,
      which takes priority and reverses it. */
  lemma GoalResetsBall(m: MathFns, s: GameState)
    requires PaddlesSized(s)
    requires WallR(s.ball) || WallL(s.ball)
    requires !PaddleHit(s.leftP, s.ball) && !PaddleHit(s.rightP, s.ball) && !AnyHit(s.ball, s.blocks)
    ensures var nb := HandleCalc(m, s).ball;
      && nb.speedX == (if WallR(s.ball) then 1.5 else -1.5)
      && nb.speedY == (if WallY(s.ball) then -s.ball.speedY else 0.0)
      && nb.cx == W / 2.0 + nb.speedX
      && nb.cy == H / 2.0 + nb.speedY
  {
    SpeedXPrecedence(m, s);
  }

  /** A ball at (599, 300) moving right at 1.5 is not yet a goal (the test looks at
      the centre before it moves); the next step is a goal for the left player, which
      re-serves the ball from the centre at +1.5, so it ends at (301.5, 300). */
  lemma RightWallGoalExample(m: MathFns)
    ensures var s := InitialGame.(start := true, restart := true, ball := InitialBall.(cx := 599.0, speedX := 1.5));
      var s1 := HandleCalc(m, s);
      var s2 := HandleCalc(m, s1);
      && s1.leftS.score == 0 && s1.ball.cx == 600.5 && s1.ball.cy == 300.0
      && s2.leftS.score == 1 && s2.rightS.score == 0
      && s2.ball.speedX == 1.5 && s2.ball.speedY == 0.0
      && s2.ball.cx == 301.5 && s2.ball.cy == 300.0
      && s2.restart
  {
  }
}
