/** A block image put together from a grid of blocks: which byte of which block each pixel channel is. */
module BlockGrid {
  import opened Bytes
  import opened BlockImages

  /** Blocks one after the other. */
  function Join(parts: seq<seq<byte>>): seq<byte>
  {
    if parts == [] then [] else parts[0] + Join(parts[1..])
  }

  /** The blocks of a grid, row by row and from left to right. */
  function JoinRows(grid: seq<seq<seq<byte>>>): seq<byte>
  {
    if grid == [] then [] else Join(grid[0]) + JoinRows(grid[1..])
  }

  /** A block for every four columns and rows, the last of each possibly past the edge. */
  predicate Covers(grid: seq<seq<seq<byte>>>, width: nat, height: nat, size: nat)
  {
    && |grid| == Across(height)
    && forall y :: 0 <= y < |grid| ==> |grid[y]| == Across(width) && forall x :: 0 <= x < |grid[y]| ==> |grid[y][x]| == size
  }

  lemma {:induction false} JoinAt(parts: seq<seq<byte>>, size: nat, k: nat)
    requires (forall i :: 0 <= i < |parts| ==> |parts[i]| == size) && k < |parts|
    ensures |Join(parts)| == |parts| * size && 0 <= k * size && k * size + size <= |Join(parts)|
    ensures Join(parts)[k * size..k * size + size] == parts[k]
    decreases |parts|
  {
    var head, rest := parts[0], Join(parts[1..]);
    JoinLength(parts, size);
    JoinLength(parts[1..], size);
    MulMonotone(k + 1, |parts|, size);
    if k > 0 {
      JoinAt(parts[1..], size, k - 1);
      assert k * size == size + (k - 1) * size;
      SliceBehind(head, rest, (k - 1) * size, (k - 1) * size + size);
    } else {
      assert (head + rest)[..size] == head;
    }
  }

  lemma SliceBehind(a: seq<byte>, b: seq<byte>, i: nat, j: nat)
    requires i <= j <= |b|
    ensures (a + b)[|a| + i..|a| + j] == b[i..j]
  {
  }

  lemma {:induction false} JoinLength(parts: seq<seq<byte>>, size: nat)
    requires forall i :: 0 <= i < |parts| ==> |parts[i]| == size
    ensures |Join(parts)| == |parts| * size
    decreases |parts|
  {
    if parts != [] {
      JoinLength(parts[1..], size);
      assert |parts| * size == size + (|parts| - 1) * size;
    }
  }

  function Rows(grid: seq<seq<seq<byte>>>): (r: seq<seq<byte>>)
    ensures |r| == |grid| && forall y :: 0 <= y < |r| ==> r[y] == Join(grid[y])
  {
    seq(|grid|, y requires 0 <= y < |grid| => Join(grid[y]))
  }

  lemma {:induction false} RowsJoin(grid: seq<seq<seq<byte>>>)
    ensures JoinRows(grid) == Join(Rows(grid))
    decreases |grid|
  {
    if grid != [] {
      RowsJoin(grid[1..]);
      assert Rows(grid)[1..] == Rows(grid[1..]);
    }
  }

  lemma GridLength(grid: seq<seq<seq<byte>>>, width: nat, height: nat, size: nat)
    requires Covers(grid, width, height, size)
    ensures forall y :: 0 <= y < |Rows(grid)| ==> |Rows(grid)[y]| == Across(width) * size
    ensures Complete(JoinRows(grid), width, height, size)
  {
    hide Join;
    RowsJoin(grid);
    forall y | 0 <= y < |grid| ensures |Rows(grid)[y]| == Across(width) * size { JoinLength(grid[y], size); }
    JoinLength(Rows(grid), Across(width) * size);
    Products(Across(width), Across(height), size, 0, 0);
  }

  lemma Products(w: nat, h: nat, size: nat, x: nat, y: nat)
    ensures h * (w * size) == w * h * size && (y * w + x) * size == y * (w * size) + x * size
    ensures y * (w * size) >= 0 && x * size >= 0 && w * size >= 0
  {
    assert h * (w * size) == h * w * size;
    assert y * (w * size) == y * w * size;
  }

  /** The grid's bytes are complete, and block `(x, y)` of them is the one the grid holds there. */
  lemma GridBlock(grid: seq<seq<seq<byte>>>, width: nat, height: nat, size: nat, x: nat, y: nat)
    requires Covers(grid, width, height, size) && x < Across(width) && y < Across(height)
    ensures Complete(JoinRows(grid), width, height, size)
    ensures BlockAt(JoinRows(grid), width, height, size, x, y) == grid[y][x]
  {
    hide Join, JoinRows, Complete;
    var (w, all) := (Across(width), JoinRows(grid));
    GridLength(grid, width, height, size);
    RowsJoin(grid);
    JoinAt(Rows(grid), w * size, y);
    JoinAt(grid[y], size, x);
    Products(w, Across(height), size, x, y);
    SliceOfSlice(all, y * (w * size), y * (w * size) + w * size, x * size, x * size + size);
    BlockSlice(all, width, height, size, x, y);
  }

  lemma BlockSlice(input: seq<byte>, width: nat, height: nat, size: nat, x: nat, y: nat)
    requires Complete(input, width, height, size) && x < Across(width) && y < Across(height)
    ensures var at := (y * Across(width) + x) * size;
            0 <= at && at + size <= |input| && BlockAt(input, width, height, size, x, y) == input[at..at + size]
  {
    BlockBounds(width, height, size, x, y);
  }

  /** Channel `c` of the pixel in column `x` and row `y`, in the block that lies there. */
  lemma PixelOfGrid(f: seq<byte> -> seq<byte>, grid: seq<seq<seq<byte>>>, width: nat, height: nat, size: nat, x: nat, y: nat, c: nat)
    requires Covers(grid, width, height, size) && x < width && y < height && c < 4 && |f(grid[y / 4][x / 4])| == 64
    ensures Complete(JoinRows(grid), width, height, size)
    ensures RowOf(f, JoinRows(grid), width, height, size, y)[4 * x + c] == f(grid[y / 4][x / 4])[4 * (4 * (y % 4) + x % 4) + c]
  {
    hide Complete, BlockAt, Covers, PixelByte, JoinRows;
    assert (4 * x + c) / SPAN == x / 4 && (4 * x + c) % SPAN == 4 * (x % 4) + c;
    GridBlock(grid, width, height, size, x / 4, y / 4);
    ByteOfRow(f, JoinRows(grid), width, height, size, y, 4 * x + c);
  }

  lemma ByteOfRow(f: seq<byte> -> seq<byte>, input: seq<byte>, width: nat, height: nat, size: nat, y: nat, i: nat)
    requires Complete(input, width, height, size) && y < height && i < 4 * width
    ensures RowOf(f, input, width, height, size, y)[i]
         == Texels(f, BlockAt(input, width, height, size, i / SPAN, y / EDGE))[y % EDGE * SPAN + i % SPAN]
  {
    hide Texels;
    BlockBounds(width, height, size, i / SPAN, y / EDGE);
  }
}
