/** The block manager: the breakout grid that Block spawns (pong.ts:287-295) and the
    collision test, detection fold and removal filter that the physics step applies to
    the blocks (pong.ts:199, 202, 215, 229). */
module Blocks {
  import opened Bodies

  /** [0, 1, ..., n - 1]. */
  function Range(n: nat): (r: seq<nat>)
    ensures |r| == n
    ensures forall i :: 0 <= i < n ==> r[i] == i
  {
    if n == 0 then [] else Range(n - 1) + [n - 1]
  }

  /** The column numbers [0, 1, 2] and the row numbers [0, 1, ..., 11]. */
  const RangeX: seq<nat> := Range(3)
  const RangeY: seq<nat> := Range(12)

  /** Number of blocks in one spawned grid: 3 columns of 12 rows. */
  const GridSize: nat := 36

  /** The block of column c and row r of the grid. */
  function GridBlock(c: nat, r: nat): BlockBody
  {
    BlockBody(BlockRect(c, r), 25.0 * c as real + 420.0, 50.0 * r as real + 5.0, 20.0, 40.0, White)
  }

  /** rangeY.map(r => [c, r]): the cells of column c. */
  function ColumnCells(c: nat, rs: seq<nat>): (cells: seq<(nat, nat)>)
    ensures |cells| == |rs|
    ensures forall j :: 0 <= j < |rs| ==> cells[j] == (c, rs[j])
  {
    if rs == [] then [] else [(c, rs[0])] + ColumnCells(c, rs[1..])
  }

  /** rangeX.flatMap(c => rangeY.map(r => [c, r])): the cells, column after column. */
  function GridCells(cs: seq<nat>, rs: seq<nat>): seq<(nat, nat)>
  {
    if cs == [] then [] else ColumnCells(cs[0], rs) + GridCells(cs[1..], rs)
  }

  /** The k-th cell of a grid of 12-cell columns lies in column k / 12 and row k % 12. */
  lemma {:induction false} GridCellsAt(cs: seq<nat>, rs: seq<nat>)
    requires |rs| == 12
    ensures |GridCells(cs, rs)| == 12 * |cs|
    ensures forall k :: 0 <= k < 12 * |cs| ==> GridCells(cs, rs)[k] == (cs[k / 12], rs[k % 12])
  {
    if cs != [] {
      GridCellsAt(cs[1..], rs);
      forall k | 0 <= k < 12 * |cs|
        ensures GridCells(cs, rs)[k] == (cs[k / 12], rs[k % 12])
      {
        if k >= 12 {
          assert GridCells(cs, rs)[k] == GridCells(cs[1..], rs)[k - 12];
          assert (k - 12) / 12 == k / 12 - 1 && (k - 12) % 12 == k % 12;
        }
      }
    }
  }

  /** .map(a => block): one block per cell, in the order of the cells. */
  function CellBlocks(cells: seq<(nat, nat)>): (blocks: seq<BlockBody>)
    ensures |blocks| == |cells|
    ensures forall k :: 0 <= k < |cells| ==> blocks[k] == GridBlock(cells[k].0, cells[k].1)
  {
    if cells == [] then [] else [GridBlock(cells[0].0, cells[0].1)] + CellBlocks(cells[1..])
  }

  /** The spawned grid on its own, in column-major order: block k is the one of
      column k / 12 and row k % 12. */
  function Grid(): (g: seq<BlockBody>)
    ensures |g| == GridSize
    ensures forall k :: 0 <= k < GridSize ==> g[k] == GridBlock(k / 12, k % 12)
  {
    SpawnedBlocks();
    CellBlocks(GridCells(RangeX, RangeY))
  }

  lemma SpawnedBlocks()
    ensures |CellBlocks(GridCells(RangeX, RangeY))| == GridSize
    ensures forall k :: 0 <= k < GridSize ==> CellBlocks(GridCells(RangeX, RangeY))[k] == GridBlock(k / 12, k % 12)
  {
    var cells := GridCells(RangeX, RangeY);
    SpawnedCells();
    forall k | 0 <= k < GridSize
      ensures CellBlocks(cells)[k] == GridBlock(k / 12, k % 12)
    {
      assert cells[k] == (k / 12, k % 12);
    }
  }

  lemma SpawnedCells()
    ensures |GridCells(RangeX, RangeY)| == GridSize
    ensures forall k :: 0 <= k < GridSize ==> GridCells(RangeX, RangeY)[k] == (k / 12, k % 12)
  {
    GridCellsAt(RangeX, RangeY);
    forall k | 0 <= k < GridSize
      ensures GridCells(RangeX, RangeY)[k] == (k / 12, k % 12)
    {
      assert 0 <= k / 12 < 3 && 0 <= k % 12 < 12;
    }
  }

  /** The existing blocks followed by a fresh 3 x 12 grid: block number 12 * c + r of
      the grid is 20 wide, 40 high and sits at x = 25c + 420, y = 50r + 5. */
  function AddBlocks(s: seq<BlockBody>): (r: seq<BlockBody>)
    ensures |r| == |s| + GridSize
    ensures r[..|s|] == s
    ensures forall k :: |s| <= k < |r| ==> r[k] == GridBlock((k - |s|) / 12, (k - |s|) % 12)
  {
    var g := Grid();
    assert (s + g)[..|s|] == s;
    s + g
  }

  /** Column c, row r of the grid is block number 12 * c + r after the existing ones. */
  lemma AddBlocksColumnMajor(s: seq<BlockBody>, c: nat, r: nat)
    requires c < 3 && r < 12
    ensures AddBlocks(s)[|s| + 12 * c + r] == GridBlock(c, r)
    ensures AddBlocks(s)[|s| + 12 * c + r].x == 25.0 * c as real + 420.0
    ensures AddBlocks(s)[|s| + 12 * c + r].y == 50.0 * r as real + 5.0
  {
    var k := 12 * c + r;
    assert k / 12 == c && k % 12 == r;
  }

  /** Every block is a distinct cell of one 3 x 12 grid, carrying that cell's token.
      Spawning only into an empty list and filtering keep block lists this way. */
  predicate FromGrid(blocks: seq<BlockBody>)
  {
    && (forall x :: x in blocks ==>
          x.id.BlockRect? && x.id.col < 3 && x.id.row < 12 && x == GridBlock(x.id.col, x.id.row))
    && (forall i, j :: 0 <= i < j < |blocks| ==> blocks[i] != blocks[j])
  }

  /** A freshly spawned grid is such a list. */
  lemma GridFromGrid()
    ensures FromGrid(Grid())
  {
    var g := Grid();
    forall k | 0 <= k < |g|
      ensures g[k].id.BlockRect? && g[k].id.col < 3 && g[k].id.row < 12
      ensures g[k] == GridBlock(g[k].id.col, g[k].id.row)
    {
      assert g[k] == GridBlock(k / 12, k % 12);
    }
    forall i, j | 0 <= i < j < |g|
      ensures g[i] != g[j]
    {
      GridDistinct(i, j);
    }
  }

  /** Two positions of the spawned grid hold different blocks. */
  lemma GridDistinct(i: nat, j: nat)
    requires i < j < GridSize
    ensures Grid()[i] != Grid()[j]
  {
    CellOfIndex(i);
    CellOfIndex(j);
    assert Grid()[i].id == BlockRect(i / 12, i % 12) && Grid()[j].id == BlockRect(j / 12, j % 12);
  }

  /** An index is recovered from its column and row, so distinct indices name distinct
      cells. */
  lemma CellOfIndex(k: nat)
    ensures k == 12 * (k / 12) + k % 12
  {
  }

  /** Grid cells do not overlap: the columns are 25 apart and 20 wide, the rows 50
      apart and 40 high, so a point lies in at most one of them. */
  lemma GridBlocksDisjoint(b: BallBody, c1: nat, r1: nat, c2: nat, r2: nat)
    requires BlockHit(b, GridBlock(c1, r1)) && BlockHit(b, GridBlock(c2, r2))
    ensures c1 == c2 && r1 == r2
  {
    assert 25.0 * (c1 as real - c2 as real) <= 20.0 && 25.0 * (c2 as real - c1 as real) <= 20.0;
    assert 50.0 * (r1 as real - r2 as real) <= 40.0 && 50.0 * (r2 as real - r1 as real) <= 40.0;
  }

  /** The ball's centre lies in the block's rectangle, edges included. */
  predicate BlockHit(b: BallBody, blk: BlockBody)
  {
    b.cx <= blk.x + blk.width && b.cx >= blk.x && b.cy <= blk.y + blk.height && b.cy >= blk.y
  }

  /** Some block of the list is hit. */
  ghost predicate AnyHit(b: BallBody, blocks: seq<BlockBody>)
  {
    exists k :: 0 <= k < |blocks| && BlockHit(b, blocks[k])
  }

  /** blocks.reduce((a, v) => a == true ? true : hit(v), acc): the detection fold. */
  function HitFold(b: BallBody, acc: bool, blocks: seq<BlockBody>): bool
    decreases blocks
  {
    if blocks == [] then acc
    else HitFold(b, if acc == true then true else BlockHit(b, blocks[0]), blocks[1..])
  }

  /** The fold reports a hit exactly when its seed is true or some block is hit. */
  lemma {:induction false} HitFoldIsAnyHit(b: BallBody, acc: bool, blocks: seq<BlockBody>)
    ensures HitFold(b, acc, blocks) <==> acc || AnyHit(b, blocks)
    decreases blocks
  {
    if blocks != [] {
      var acc' := if acc == true then true else BlockHit(b, blocks[0]);
      HitFoldIsAnyHit(b, acc', blocks[1..]);
      if AnyHit(b, blocks) && !acc && !BlockHit(b, blocks[0]) {
        var k :| 0 <= k < |blocks| && BlockHit(b, blocks[k]);
        assert BlockHit(b, blocks[1..][k - 1]);
      }
      if AnyHit(b, blocks[1..]) {
        var k :| 0 <= k < |blocks[1..]| && BlockHit(b, blocks[1..][k]);
        assert BlockHit(b, blocks[k + 1]);
      }
      if BlockHit(b, blocks[0]) {
        assert AnyHit(b, blocks);
      }
    }
  }

  /** blocks.filter(e => !hit(e)): the blocks that stay in the game, in their order. */
  function Survivors(b: BallBody, blocks: seq<BlockBody>): (r: seq<BlockBody>)
    ensures |r| <= |blocks|
    ensures forall x :: x in r <==> x in blocks && !BlockHit(b, x)
  {
    if blocks == [] then []
    else (if BlockHit(b, blocks[0]) then [] else [blocks[0]]) + Survivors(b, blocks[1..])
  }

  /** blocks.filter(hit): the blocks whose elements the step detaches from the canvas. */
  function Struck(b: BallBody, blocks: seq<BlockBody>): (r: seq<BlockBody>)
    ensures forall x :: x in r <==> x in blocks && BlockHit(b, x)
  {
    if blocks == [] then []
    else (if BlockHit(b, blocks[0]) then [blocks[0]] else []) + Struck(b, blocks[1..])
  }

  /** Every block either survives or is struck, never both: the two filters split the
      list, and the list shrinks by exactly the number of struck blocks. */
  lemma {:induction false} SurvivorsAndStruckSplit(b: BallBody, blocks: seq<BlockBody>)
    ensures multiset(Survivors(b, blocks)) + multiset(Struck(b, blocks)) == multiset(blocks)
    ensures |Survivors(b, blocks)| == |blocks| - |Struck(b, blocks)|
  {
    if blocks != [] {
      SurvivorsAndStruckSplit(b, blocks[1..]);
      assert blocks == [blocks[0]] + blocks[1..];
    }
  }

  /** The list shrinks exactly when some block is hit. */
  lemma ShrinksIffHit(b: BallBody, blocks: seq<BlockBody>)
    ensures |Survivors(b, blocks)| < |blocks| <==> AnyHit(b, blocks)
  {
  }

  /** Filtering keeps the order: it distributes over concatenation. */
  lemma {:induction false} SurvivorsAppend(b: BallBody, xs: seq<BlockBody>, ys: seq<BlockBody>)
    ensures Survivors(b, xs + ys) == Survivors(b, xs) + Survivors(b, ys)
  {
    if xs == [] {
      assert xs + ys == ys;
    } else {
      assert (xs + ys)[1..] == xs[1..] + ys;
      SurvivorsAppend(b, xs[1..], ys);
    }
  }

  /** Filtering a list of distinct grid blocks leaves one. */
  lemma {:induction false} SurvivorsFromGrid(b: BallBody, blocks: seq<BlockBody>)
    requires FromGrid(blocks)
    ensures FromGrid(Survivors(b, blocks))
  {
    if blocks != [] {
      var rest := blocks[1..];
      assert FromGrid(rest) by {
        forall x | x in rest ensures x in blocks { }
      }
      SurvivorsFromGrid(b, rest);
      var head := if BlockHit(b, blocks[0]) then [] else [blocks[0]];
      var r := head + Survivors(b, rest);
      forall x | x in Survivors(b, rest) ensures x != blocks[0]
      {
        var j :| 0 <= j < |rest| && rest[j] == x;
        assert blocks[j + 1] == x;
      }
      forall i, j | 0 <= i < j < |r| ensures r[i] != r[j]
      {
        if head != [] && i == 0 {
          assert r[j] in Survivors(b, rest);
        }
      }
    }
  }

  /** On distinct grid blocks, one step strikes at most one block, so the list
      shrinks by one or not at all. */
  lemma {:induction false} AtMostOneStruck(b: BallBody, blocks: seq<BlockBody>)
    requires FromGrid(blocks)
    ensures |Struck(b, blocks)| <= 1
    ensures |Survivors(b, blocks)| == |blocks| || |Survivors(b, blocks)| == |blocks| - 1
  {
    SurvivorsAndStruckSplit(b, blocks);
    if blocks != [] {
      var rest := blocks[1..];
      assert FromGrid(rest) by {
        forall x | x in rest ensures x in blocks { }
      }
      AtMostOneStruck(b, rest);
      if BlockHit(b, blocks[0]) {
        // any other struck block would lie in the same cell, so be the same block
        if Struck(b, rest) != [] {
          var x := Struck(b, rest)[0];
          var j :| 0 <= j < |rest| && rest[j] == x;
          assert blocks[j + 1] == x && x in blocks;
          GridBlocksDisjoint(b, x.id.col, x.id.row, blocks[0].id.col, blocks[0].id.row);
          assert false;
        }
      }
    }
  }

  /** When no block is hit the list is returned as it is. */
  lemma {:induction false} SurvivorsNoHit(b: BallBody, blocks: seq<BlockBody>)
    requires !AnyHit(b, blocks)
    ensures Survivors(b, blocks) == blocks
  {
    if blocks != [] {
      assert !BlockHit(b, blocks[0]);
      SurvivorsNoHit(b, blocks[1..]);
    }
  }
}
