/** The bodies that make up a Pong game state, the actions that drive it, the fixed
    configuration and the initial values (pong.ts). Every body is an immutable value:
    each transition builds a new one by copying an old one and overriding some fields. */
module Bodies {

  /** Handle of the SVG element that renders a body. The engine never looks inside it;
      it only carries it along so that the renderer can find the element again. */
  datatype Element =
    | LeftPaddleRect
    | RightPaddleRect
    | BallCircle
    | LeftScoreText
    | RightScoreText
    | CenterText
    | BlockRect(col: nat, row: nat)

  datatype PaddleBody = PaddleBody(id: Element, x: real, y: real, width: real, height: real, fill: string)

  datatype BallBody = BallBody(id: Element, cx: real, cy: real, r: real, fill: string, speedX: real, speedY: real)

  datatype ScoreBody = ScoreBody(id: Element, score: nat)

  datatype TextBody = TextBody(id: Element, text: string, style: string, fill: string)

  datatype BlockBody = BlockBody(id: Element, x: real, y: real, width: real, height: real, fill: string)

  /** The whole game. The phase is encoded by two flags: not started (start false),
      running (start and restart both true) and ended (start true, restart false). */
  datatype GameState = GameState(
    leftP: PaddleBody, rightP: PaddleBody,
    ball: BallBody,
    leftS: ScoreBody, rightS: ScoreBody,
    centerText: TextBody,
    start: bool, restart: bool,
    blocks: seq<BlockBody>)

  /** One item of the merged input stream. Pull carries the colour of the Highlight it
      wraps; Tick(n) is the n-th value of the timer, which carries no action at all. */
  datatype Action =
    | Move(x: real, y: real)
    | Resize(width: real, height: real)
    | Highlight(color: string)
    | Pull(color: string)
    | Click
    | Block
    | Tick(n: nat)

  // Canvas size and speeds.
  const W: real := 600.0
  const H: real := 600.0
  const MaxBallSpeedX: real := 3.5
  const MaxBallSpeedY: real := 2.0
  const AISpeed: real := 1.6

  /** The score at which the game ends. */
  const WinningScore: nat := 7

  const White: string := "#FFFFFF"

  const InitialPlayer: PaddleBody := PaddleBody(LeftPaddleRect, W / 12.0, H / 6.0, W / 24.0, H / 6.0, White)
  const InitialAI: PaddleBody := PaddleBody(RightPaddleRect, W - W / 12.0 - W / 24.0, H / 6.0, W / 24.0, H / 6.0, White)
  /** The ball starts in the centre, heading towards the player's side. */
  const InitialBall: BallBody := BallBody(BallCircle, W / 2.0, H / 2.0, 5.0, White, -1.5, 0.0)
  const InitialCenterText: TextBody := TextBody(CenterText, "Click here to Start Game", "font-size:40px", White)
  const InitialLeftScore: ScoreBody := ScoreBody(LeftScoreText, 0)
  const InitialRightScore: ScoreBody := ScoreBody(RightScoreText, 0)

  const InitialGame: GameState := GameState(
    InitialPlayer, InitialAI, InitialBall, InitialLeftScore, InitialRightScore,
    InitialCenterText, false, false, [])

  /** The host's Math library as far as the engine uses it: the constant PI and the
      functions cos and sin, which are not modelled beyond their range. */
  datatype MathFns = MathFns(PI: real, cos: real -> real, sin: real -> real)

  /** cos and sin stay within [-1, 1], cos is 1 at angle 0 and sin is 0 there. */
  ghost predicate ValidMath(m: MathFns)
  {
    && (forall t :: -1.0 <= m.cos(t) <= 1.0)
    && (forall t :: -1.0 <= m.sin(t) <= 1.0)
    && m.cos(0.0) == 1.0
    && m.sin(0.0) == 0.0
  }
}
