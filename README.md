# Pong transition engine, modelled in Dafny

This project models the state-transition engine of a browser Pong game written in
TypeScript with RxJS (`pong.ts`). The game state is never changed in place. RxJS
`scan` folds one reducer, `reduceGame`, over a merged stream of timer ticks and input
actions. Each step builds a new state by copying the old one and overriding fields.

The engine has four parts, and each is modelled as Dafny functions with lemmas:

- **Paddle sub-reducer** (`reducePaddle`, module `Paddles`). It applies Move, Resize
  or Highlight to one paddle.
- **Block manager** (`addBlocks` and the block filters inside `handleCalc`, module
  `Blocks`). It builds the 3 x 12 breakout grid, detects block hits and removes the
  blocks that were hit.
- **Physics step** (`handleCalc`, `newSpeedX`, `newSpeedY`, module `Physics`). It
  handles collisions with both paddles, the walls and the blocks. It picks the new
  velocity by priority, moves the ball, scores goals, sets the end-of-game flag and
  moves the AI paddle.
- **Top-level reducer** (`reduceGame`, module `Game`). It runs the phase machine
  (not started, running, ended), which two flags encode: `start` and `restart`. It
  sends each action to the right handler.
  `Game.Run` is the `scan` fold. `Game.Inv` is the phase invariant that every
  reachable state satisfies. `Game.Bounded` is a second one: the ball's speed stays
  within the rebound bounds, and the blocks are distinct cells of one grid, so a step
  removes at most one block.

Bodies, actions, constants and initial values are in module `Bodies`. Coordinates are
`real`. Element ids are opaque tokens (`Bodies.Element`) that the engine only passes
along. The host's `Math.PI`, `Math.cos` and `Math.sin` are a parameter
(`Bodies.MathFns`). The model assumes only that cos and sin lie in [-1, 1],
that cos(0) = 1 and that sin(0) = 0 (`Bodies.ValidMath`), and only the lemmas about
rebound speeds need that.

Three details of the goal handling shape the ball's trajectory:

- Goals are tested on the ball's centre before it moves (pong.ts:195). A ball at
  (599, 300) moving right at 1.5 therefore does not score on the next step; it scores
  on the step after.
- A right-wall goal serves the ball at a horizontal speed of +1.5 (pong.ts:203).
- After a goal the new centre is the canvas centre plus the new velocity
  (pong.ts:209-211, 220), so that example ends the scoring step at (301.5, 300).

`Physics.RightWallGoalExample` proves this trajectory.

## Model

| member | source | states |
|---|---|---|
| `Paddles.ReducePaddle` | pong.ts:363-370 | Move sets x to the pointer's x and centres the paddle vertically on the pointer (y + height/2 = pointer y). Resize sets width and height. Highlight sets fill. Each changes only the fields it names. Every other action returns the paddle unchanged. |
| `Paddles.MoveThenResizeExample` | pong.ts:363-367 | A pointer at y = 300 puts a 100-high paddle at y = 250. Resizing it to height 200 keeps x and y. |
| `Blocks.Range` | pong.ts:288-289 | The literal column and row lists are [0..n-1]: length n, element i is i. |
| `Blocks.ColumnCells` | pong.ts:291 | `rangeY.map(r => [c, r])` gives one cell per row, in row order, all in column c. |
| `Blocks.GridCellsAt` | pong.ts:291 | The `flatMap` over columns is column-major: cell k lies in column k / 12 and row k % 12, and there are 12 cells per column. |
| `Blocks.GridBlock` | pong.ts:294 | The block of column c, row r: handle of its grid cell, x = 25c + 420, y = 50r + 5, 20 wide, 40 high, fill #FFFFFF. |
| `Blocks.GridCells` | pong.ts:291 | `rangeX.flatMap(c => rangeY.map(r => [c, r]))`: the cells of each column in turn; its index formula is `Blocks.GridCellsAt`. |
| `Blocks.CellBlocks` | pong.ts:291-294 | One block per cell, in cell order, each 20 x 40 at x = 25c + 420, y = 50r + 5. |
| `Blocks.SpawnedCells` | pong.ts:288-291 | The spawned cell list has 36 cells, and cell k is (k / 12, k % 12). |
| `Blocks.SpawnedBlocks` | pong.ts:288-294 | The spawned grid has 36 blocks, and block k is the grid block of column k / 12, row k % 12. |
| `Blocks.Grid` | pong.ts:288-294 | The new grid has exactly 36 blocks in column-major order. |
| `Blocks.AddBlocks` | pong.ts:287-295 | The result is the input list unchanged, followed by the 36-block grid: length grows by 36, the prefix is the input, and block k after it is column k / 12, row k % 12. |
| `Blocks.AddBlocksColumnMajor` | pong.ts:291-294 | Column c, row r of the grid sits at index 12c + r after the existing blocks, at x = 25c + 420 and y = 50r + 5. |
| `Blocks.BlockHit` | pong.ts:199 | A block is hit when the ball's centre lies in its rectangle, all four edges included. |
| `Blocks.HitFold` | pong.ts:202 | The `reduce` over the blocks with seed false; its meaning is stated by `Blocks.HitFoldIsAnyHit`. |
| `Blocks.HitFoldIsAnyHit` | pong.ts:202 | The `reduce` that detects block hits returns true iff its seed is true or some block's inclusive rectangle contains the ball's centre. |
| `Blocks.Survivors` | pong.ts:229 | The kept list is no longer than the input. A block is in it iff it was in the input and was not hit. |
| `Blocks.Struck` | pong.ts:215 | The blocks whose elements are detached are exactly the input blocks that were hit. |
| `Blocks.SurvivorsAndStruckSplit` | pong.ts:215-229 | Kept and struck blocks together make up the input multiset. The list shrinks by exactly the number of struck blocks. |
| `Blocks.ShrinksIffHit` | pong.ts:229 | The block list gets shorter iff some block is hit. |
| `Blocks.SurvivorsAppend` | pong.ts:229 | Filtering keeps the order: it distributes over concatenation. |
| `Blocks.SurvivorsNoHit` | pong.ts:229 | With no block hit, the list comes back unchanged. |
| `Blocks.FromGrid` | pong.ts:287-294 | A block list whose blocks are distinct cells of the 3 x 12 grid, each with that cell's coordinates and size. |
| `Blocks.GridFromGrid` | pong.ts:287-294 | A freshly spawned grid is such a list: every block is a grid cell, and no two are equal. |
| `Blocks.GridBlocksDisjoint` | pong.ts:294 | Grid blocks do not overlap: a ball centre inside two grid blocks (edges included, as at pong.ts:199) means they are the same cell. |
| `Blocks.SurvivorsFromGrid` | pong.ts:229 | Filtering out the struck blocks of such a list leaves such a list. |
| `Blocks.AtMostOneStruck` | pong.ts:215-229 | On such a list at most one block is struck per step, so the list shrinks by one or not at all. |
| `Physics.PaddleHit` | pong.ts:189-191 | A paddle is hit when the ball's centre lies in its rectangle, all four edges included. |
| `Physics.WallY` | pong.ts:193 | The top/bottom wall test: the centre's y is strictly below 0 or strictly above H. |
| `Physics.WallL` | pong.ts:195 | The left goal test: the centre's x is strictly below 0. |
| `Physics.WallR` | pong.ts:195 | The right goal test: the centre's x is strictly above W. |
| `Physics.Angle` | pong.ts:241 | The angle passed to cos and sin (the same expression at pong.ts:252): the ball's offset from the paddle's centre over half the height, times 80 * PI / 180 * PI / 2. It is 0 when the ball is level with the paddle's centre. |
| `Physics.NewSpeedX` | pong.ts:233-242 | The horizontal rebound speed is the larger of 1 and MaxBallSpeedX * \|cos(angle)\|: at least both, and equal to one of them. With cos in [-1, 1] it never exceeds MaxBallSpeedX, and with cos(0) = 1 it reaches MaxBallSpeedX (3.5) when the ball strikes the paddle's centre. |
| `Physics.NewSpeedY` | pong.ts:244-253 | With sin in [-1, 1], the vertical rebound speed lies in [-MaxBallSpeedY, MaxBallSpeedY] = [-2, 2]. With sin(0) = 0, a ball striking the paddle's centre rebounds flat (speedY = 0). |
| `Physics.HandleCalc` | pong.ts:186-231 | Left score +1 iff pre-move cx > W, right score +1 iff cx < 0. At most one score changes. `restart` is false iff a new score is >= 7. The new block list is the order-keeping filter `Blocks.Survivors` of the old one: exactly the blocks not hit, and it shrinks iff some block is hit. The AI paddle moves by exactly 1.6: up iff the ball's cy is above its centre. No other AI paddle field changes. The player paddle, the centre text, `start` and the ball's id, radius and fill are unchanged. |
| `Physics.SpeedXPrecedence` | pong.ts:201-203 | New speedX by priority: left paddle gives newSpeedX, right paddle gives -newSpeedX, any block gives -speedX, right wall gives 1.5, left wall gives -1.5. Otherwise speedX is unchanged. |
| `Physics.SpeedYPrecedence` | pong.ts:205-207 | New speedY by priority: left paddle, right paddle, top or bottom wall (-speedY), goal (0). Otherwise speedY is unchanged. Blocks never affect it. |
| `Physics.BallPosition` | pong.ts:209-220 | New centre = resolved centre + new velocity. The resolved x snaps to the left paddle's x + width, or to the right paddle's x, on a paddle hit. It resets to W/2 on a goal, otherwise it stays. The resolved y resets to H/2 on a goal, otherwise it stays. |
| `Physics.PaddleReboundBounds` | pong.ts:240-253 | After a paddle hit, 1 <= \|speedX\| <= 3.5 and \|speedY\| <= 2. The ball moves right after a left-paddle hit and left after a right-paddle hit. |
| `Physics.SpeedBounded` | pong.ts:201-207 | The ball's speed bounds: \|speedX\| <= 3.5 and \|speedY\| <= 2. |
| `Physics.HandleCalcKeepsSpeedBounded` | pong.ts:201-207 | With cos and sin in [-1, 1], the physics step keeps \|speedX\| <= 3.5 and \|speedY\| <= 2 without clamping: rebounds are bounded, blocks and the top/bottom walls only reverse a speed, and a goal serves at 1.5 and 0. |
| `Physics.HandleCalcStrikesAtMostOne` | pong.ts:215-229 | On a list of distinct grid blocks, the physics step removes at most one block and leaves a list of distinct grid blocks. |
| `Physics.GoalResetsBall` | pong.ts:201-211 | A goal with no paddle or block hit serves the ball from the canvas centre at speedX = +1.5 (right wall) or -1.5 (left wall). speedY becomes 0, unless the top or bottom wall test also holds. |
| `Physics.RightWallGoalExample` | pong.ts:195-220 | A ball at (599, 300) with speedX 1.5 is not a goal yet. The next step scores for the left player and leaves the ball at (301.5, 300) with velocity (1.5, 0). |
| `Game.ReduceGame` | pong.ts:346-360 | Total over every action on well-formed states, and it keeps both paddle heights positive. |
| `Game.PhysicsInput` | pong.ts:353-360 | The state a running game hands to the physics step differs from the current one only in the paddles. Pull gives the player's paddle the Pull's colour and sets the AI paddle's y to the player's. Every other action, the falsy tick 0 included, applies the paddle reducer to the player's paddle. Paddle heights stay positive. |
| `Game.RunningStep` | pong.ts:353-360 | While running, every action except Block leads to the physics step on `Game.PhysicsInput`. |
| `Game.NotStartedIgnoresInput` | pong.ts:349 | While `start` is false, every non-Click action returns the state unchanged. |
| `Game.ClickRestarts` | pong.ts:347-348 | A Click while not running yields the initial bodies and zero scores, with `start` and `restart` true, the old centre text with blank text, and the old blocks. |
| `Game.EndedOnlyAnnounces` | pong.ts:350-352 | In the ended phase a non-Click changes only `centerText.text`. The text is "Left Player Wins! Restart?" iff the left score is 7, and "Right Player Wins! Restart?" otherwise. |
| `Game.PullAssists` | pong.ts:353-355 | While running, Pull sets the AI paddle's y to the player's y and the player's fill to the Pull's colour, then runs the physics step. |
| `Game.BlockSpawns` | pong.ts:356-357 | While running, Block does not run physics. With no blocks it adds exactly the 36-block grid and changes nothing else. With blocks present the state is unchanged. |
| `Game.BlockTwiceSpawnsOnce` | pong.ts:356-357 | Two Blocks in a row from an empty list give 36 blocks, not 72. |
| `Game.PaddleActionsThenPhysics` | pong.ts:358-359 | While running, Move, Resize, Highlight and Click go through the paddle reducer and then the physics step. Click leaves the paddle unchanged. |
| `Game.TickRunsPhysics` | pong.ts:358-360 | While running, every timer value runs the physics step on the state as it is. Tick 0 is falsy and other values are ignored by the paddle reducer, so both give the same result. |
| `Game.Inv` | pong.ts:346-360 | The phase invariant that `Game.ReduceGameKeepsInv` and `Game.RunKeepsInv` establish: scores stay within 0..7 and never both reach 7, `restart` implies `start`, and once started the game runs exactly while both scores are below 7. |
| `Game.InitialGameInv` | pong.ts:309 | The initial game satisfies the phase invariant. |
| `Game.ReduceGameKeepsInv` | pong.ts:346-360 | Every step keeps the invariant: scores in 0..7, never both 7, `restart` implies `start`, and once started the game runs iff both scores are below 7. |
| `Game.Run` | pong.ts:374-383 | Folding the reducer over any valid actions keeps the paddle heights positive. |
| `Game.RunKeepsInv` | pong.ts:383 | Folding the reducer over any valid actions keeps the phase invariant. |
| `Game.Bounded` | pong.ts:346-360 | The ball's speed is within the rebound bounds, and the blocks are distinct cells of one grid. |
| `Game.InitialGameBounded` | pong.ts:172-174 | The initial ball serves at (-1.5, 0), and the initial game has no blocks (pong.ts:309), so it is within the bounds. |
| `Game.ReduceGameKeepsBounded` | pong.ts:346-360 | Every step keeps the bounds. It removes at most one block, and adds blocks only by spawning a whole 36-block grid into an empty list (pong.ts:357); a restart keeps the list (pong.ts:348). |
| `Game.StoppedKeepsBounded` | pong.ts:347-352 | Out of the running phase a step keeps the bounds and the block list: a restart resets the ball to its serve, and otherwise the ball does not change. |
| `Game.SpawnKeepsBounded` | pong.ts:356-357 | While running, Block keeps the bounds. It leaves a non-empty list as it is, and turns an empty list into one 36-block grid. |
| `Game.HandleCalcKeepsBounded` | pong.ts:186-231 | With cos and sin in [-1, 1], the physics step keeps the speed bounds and the grid-list invariant, and removes at most one block. |
| `Game.RunKeepsBounded` | pong.ts:383 | Folding the reducer over any valid actions keeps the bounds. |
| `Game.ReachableBounded` | pong.ts:383 | In every state reachable from the initial game, \|speedX\| <= 3.5 and \|speedY\| <= 2, and the next step removes at most one block. |
| `Game.WinnerAnnounced` | pong.ts:350-352 | In every state reachable from the initial game, the ended-phase message names the player whose score is 7, and the other score is below 7. |
| `Game.EndedIsFrozen` | pong.ts:349-352 | Once ended, any run without a Click leaves the ball, paddles, scores and blocks unchanged, and the game stays ended. |

## Left out

- DOM work is not modelled: element creation, `appendChild`, `attr`, `startText` and the `update*` projectors (pong.ts:34, 113-116, 160-175, 257-275, 298-304, 323-337). These are browser calls with no game logic in them.
- Block detaching is not modelled as a side effect. The `removeChild` calls inside `handleCalc` (pong.ts:215) appear only as the list `Blocks.Struck` of blocks whose elements would be detached.
- Element identity is not modelled. Each block that `addBlocks` creates carries the token `BlockRect(c, r)` of its grid cell, not a fresh DOM element.
- The RxJS wiring is not modelled: `observableK`, the `fromEvent` filters, `interval`, `merge` and `subscribe` (pong.ts:42-47, 134-155, 318-320, 374-384). Only the `scan` fold appears, as `Game.Run`. The mouse-bounds filter at pong.ts:136 belongs to the input adapter and is left out.
- Floating-point arithmetic is replaced by exact `real` arithmetic, so IEEE rounding, NaN and Infinity are not modelled.
- `Math.cos`, `Math.sin` and `Math.PI` are a parameter of the engine. Only their range, cos(0) = 1 and sin(0) = 0 are used, and `Physics.Angle` keeps the source's composite angle expression as written.
- HandleCalc: requires both paddle heights to be positive, so it also excludes negative heights. With a negative height the source never divides: the hit test at pong.ts:191 cannot hold, so `newSpeedX`/`newSpeedY` are not called. With a zero height the source divides by zero inside `newSpeedX`/`newSpeedY` only when the ball touches that flat paddle, and the ball's speed becomes NaN, which reals cannot express.
- ReduceGame: requires positive paddle heights and a Resize with positive height (`Game.ValidAction`). The game's own key handlers only emit heights 100 and 200 (pong.ts:142-146).
- Window bootstrap (pong.ts:388-391) is not modelled.
