/** The paddle sub-reducer: applies one action to one paddle (pong.ts:363-370). */
module Paddles {
  import opened Bodies

  /** Move re-centres the paddle vertically on the pointer, Resize replaces the size,
      Highlight replaces the colour; every other action leaves the paddle as it is.
      Each action changes exactly the fields it names. */
  function ReducePaddle(p: PaddleBody, e: Action): (r: PaddleBody)
    ensures e.Move? ==> r.x == e.x && r.y + r.height / 2.0 == e.y && r.(x := p.x, y := p.y) == p
    ensures e.Resize? ==> r.width == e.width && r.height == e.height && r.(width := p.width, height := p.height) == p
    ensures e.Highlight? ==> r.fill == e.color && r.(fill := p.fill) == p
    ensures !(e.Move? || e.Resize? || e.Highlight?) ==> r == p
  {
    match e
    case Move(x, y) => p.(x := x, y := y - p.height / 2.0)
    case Resize(width, height) => p.(width := width, height := height)
    case Highlight(color) => p.(fill := color)
    case _ => p
  }

  /** A pointer at height 300 puts a paddle of height 100 at y = 250; doubling the
      height to 200 leaves the position alone. */
  lemma MoveThenResizeExample(p: PaddleBody)
    requires p.height == 100.0
    ensures ReducePaddle(p, Move(50.0, 300.0)).y == 250.0
    ensures ReducePaddle(ReducePaddle(p, Move(50.0, 300.0)), Resize(p.width, 200.0))
         == p.(x := 50.0, y := 250.0, height := 200.0)
  {
  }
}
