/**
 Block-compressed images: 4x4 blocks decode into a pixel buffer whose edges clip them, and a writer
 that reads one four-row strip at a time emits the rows of the whole image. The decoder of a single
 block is any function.
 */
module BlockImages {
  import opened Bytes
  import opened Mips

  const EDGE := 4
  /** One row of a decoded block: four pixels of four channels. */
  const SPAN := 16
  const BLOCK := 64

  datatype Budget = Budget(pixels: nat, output: nat)

  /** The 64 bytes of a decoded block. */
  function Texels(f: seq<byte> -> seq<byte>, block: seq<byte>): (r: seq<byte>)
    ensures |r| == BLOCK
  {
    if |f(block)| == BLOCK then f(block) else seq(BLOCK, _ => 0)
  }

  function Across(extent: nat): (n: nat)
    ensures 4 * n >= extent && (extent > 0 ==> n > 0 && 4 * (n - 1) < extent)
  {
    (extent + 3) / 4
  }

  /** The bytes of a grid of blocks. */
  function GridBytes(width: nat, height: nat, size: nat): nat
  {
    Area(Area(Across(width), Across(height)), size)
  }

  /** Where the block in column `x` and row `y` of the grid starts. */
  function BlockStart(width: nat, size: nat, x: nat, y: nat): nat
  {
    Area(Area(y, Across(width)) + x, size)
  }

  predicate Complete(input: seq<byte>, width: nat, height: nat, size: nat)
  {
    |input| == GridBytes(width, height, size)
  }

  lemma BlockBounds(width: nat, height: nat, size: nat, x: nat, y: nat)
    requires x < Across(width) && y < Across(height)
    ensures BlockStart(width, size, x, y) + size <= GridBytes(width, height, size)
  {
    var (w, h) := (Across(width), Across(height));
    MulMonotone(y + 1, h, w);
    assert (y + 1) * w == y * w + w && w * h == h * w;
    MulMonotone(y * w + x + 1, w * h, size);
    assert (y * w + x + 1) * size == (y * w + x) * size + size;
  }

  /** Byte `i` of row `y`: pixel `i / 4` lies in block column `i / 16`. */
  function PixelByte(f: seq<byte> -> seq<byte>, input: seq<byte>, width: nat, height: nat, size: nat, y: nat, i: nat): byte
    requires Complete(input, width, height, size) && y < height && i < 4 * width
  {
    BlockBounds(width, height, size, i / SPAN, y / EDGE);
    var at := BlockStart(width, size, i / SPAN, y / EDGE);
    Texels(f, input[at..at + size])[y % EDGE * SPAN + i % SPAN]
  }

  function RowOf(f: seq<byte> -> seq<byte>, input: seq<byte>, width: nat, height: nat, size: nat, y: nat): (r: seq<byte>)
    requires Complete(input, width, height, size) && y < height
    ensures |r| == 4 * width
  {
    seq(4 * width, i requires 0 <= i < 4 * width => PixelByte(f, input, width, height, size, y, i))
  }

  // ---- rows of a pixel buffer

  lemma RowBounds(rowBytes: nat, height: nat, y: nat)
    requires y < height
    ensures 0 <= y * rowBytes && y * rowBytes + rowBytes <= height * rowBytes
  {
    MulMonotone(y + 1, height, rowBytes);
  }

  function RowSlice(pixels: seq<byte>, rowBytes: nat, height: nat, y: nat): (r: seq<byte>)
    requires y < height && |pixels| == height * rowBytes
    ensures |r| == rowBytes
  {
    RowBounds(rowBytes, height, y);
    pixels[y * rowBytes..y * rowBytes + rowBytes]
  }

  lemma RowsApart(rowBytes: nat, y: nat, z: nat)
    requires y < z
    ensures y * rowBytes + rowBytes <= z * rowBytes
  {
    MulMonotone(y + 1, z, rowBytes);
  }

  /** A copy into one row changes that part of that row and no other row. */
  lemma RowsAfterCopy(before: seq<byte>, after: seq<byte>, rowBytes: nat, height: nat, y: nat, column: nat, bytes: seq<byte>)
    requires |before| == |after| == height * rowBytes && y < height && column + |bytes| <= rowBytes
    requires 0 <= y * rowBytes && y * rowBytes + rowBytes <= height * rowBytes
    requires forall k :: 0 <= k < |before| && !(y * rowBytes + column <= k < y * rowBytes + column + |bytes|) ==> after[k] == before[k]
    requires after[y * rowBytes + column..y * rowBytes + column + |bytes|] == bytes
    ensures forall z :: 0 <= z < height && z != y ==> RowSlice(after, rowBytes, height, z) == RowSlice(before, rowBytes, height, z)
    ensures var row := RowSlice(before, rowBytes, height, y);
            RowSlice(after, rowBytes, height, y) == row[..column] + bytes + row[column + |bytes|..]
  {
    forall z | 0 <= z < height && z != y
      ensures RowSlice(after, rowBytes, height, z) == RowSlice(before, rowBytes, height, z)
    {
      OtherRow(before, after, rowBytes, height, y, z);
    }
    var at := y * rowBytes;
    var row, now := RowSlice(before, rowBytes, height, y), RowSlice(after, rowBytes, height, y);
    assert now[..column] == row[..column];
    assert now[column..column + |bytes|] == bytes by {
      SliceOfSlice(after, at, at + rowBytes, column, column + |bytes|);
    }
    assert now[column + |bytes|..] == row[column + |bytes|..];
    assert now == now[..column] + now[column..column + |bytes|] + now[column + |bytes|..];
  }

  lemma OtherRow(before: seq<byte>, after: seq<byte>, rowBytes: nat, height: nat, y: nat, z: nat)
    requires |before| == |after| == height * rowBytes && y < height && z < height && z != y
    requires 0 <= y * rowBytes && y * rowBytes + rowBytes <= height * rowBytes
    requires forall k :: 0 <= k < |before| && !(y * rowBytes <= k < y * rowBytes + rowBytes) ==> after[k] == before[k]
    ensures RowSlice(after, rowBytes, height, z) == RowSlice(before, rowBytes, height, z)
  {
    RowBounds(rowBytes, height, z);
    if z < y { RowsApart(rowBytes, z, y); } else { RowsApart(rowBytes, y, z); }
  }

  method CopyInto(pixels: array<byte>, at: nat, bytes: seq<byte>)
    requires at + |bytes| <= pixels.Length
    modifies pixels
    ensures pixels[at..at + |bytes|] == bytes
    ensures forall k :: 0 <= k < pixels.Length && !(at <= k < at + |bytes|) ==> pixels[k] == old(pixels[k])
  {
    var n := 0;
    while n < |bytes|
      invariant n <= |bytes| && forall k :: 0 <= k < n ==> pixels[at + k] == bytes[k]
      invariant forall k :: 0 <= k < pixels.Length && !(at <= k < at + n) ==> pixels[k] == old(pixels[k])
    {
      pixels[at + n] := bytes[n];
      n := n + 1;
    }
  }

  // ---- one block, one row of blocks, the whole image

  /** The part of a row that one block covers, clipped at the right edge. */
  function Covered(width: nat, x: nat): (n: nat)
    requires x < Across(width)
    ensures 0 < n <= SPAN && SPAN * x + n <= 4 * width
    ensures n < SPAN ==> SPAN * x + n == 4 * width
  {
    if 4 * x + 4 <= width then SPAN else 4 * (width - 4 * x)
  }

  lemma BlockByte(f: seq<byte> -> seq<byte>, input: seq<byte>, width: nat, height: nat, size: nat, x: nat, y: nat, k: nat)
    requires Complete(input, width, height, size) && y < height && x < Across(width) && k < Covered(width, x)
    ensures BlockStart(width, size, x, y / EDGE) + size <= |input|
    ensures RowOf(f, input, width, height, size, y)[SPAN * x + k]
         == Texels(f, BlockAt(input, width, height, size, x, y / EDGE))[y % EDGE * SPAN + k]
  {
    hide Texels, BlockStart, GridBytes;
    BlockBounds(width, height, size, x, y / EDGE);
    assert (SPAN * x + k) / SPAN == x && (SPAN * x + k) % SPAN == k;
  }

  function BlockAt(input: seq<byte>, width: nat, height: nat, size: nat, x: nat, y: nat): (r: seq<byte>)
    requires Complete(input, width, height, size) && x < Across(width) && y < Across(height)
    ensures |r| == size
  {
    BlockBounds(width, height, size, x, y);
    input[BlockStart(width, size, x, y)..BlockStart(width, size, x, y) + size]
  }

  lemma BlockRow(f: seq<byte> -> seq<byte>, input: seq<byte>, width: nat, height: nat, size: nat, x: nat, y: nat)
    requires Complete(input, width, height, size) && y < height && x < Across(width)
    ensures RowOf(f, input, width, height, size, y)[SPAN * x..SPAN * x + Covered(width, x)]
         == Texels(f, BlockAt(input, width, height, size, x, y / EDGE))[y % EDGE * SPAN..y % EDGE * SPAN + Covered(width, x)]
  {
    hide Texels, BlockAt, RowOf;
    var n, row := Covered(width, x), RowOf(f, input, width, height, size, y);
    var texels := Texels(f, BlockAt(input, width, height, size, x, y / EDGE));
    var left, right := row[SPAN * x..SPAN * x + n], texels[y % EDGE * SPAN..y % EDGE * SPAN + n];
    forall k | 0 <= k < n ensures left[k] == right[k] {
      BlockByte(f, input, width, height, size, x, y, k);
    }
  }

  /** An image being decoded: its blocks, its size and the pixels it started from. */
  datatype Job = Job(f: seq<byte> -> seq<byte>, input: seq<byte>, width: nat, height: nat, size: nat)

  ghost predicate Sized(j: Job, pixels: seq<byte>)
  {
    Complete(j.input, j.width, j.height, j.size) && |pixels| == j.height * (4 * j.width)
  }

  /** In block row `y` a row is right in `to` bytes or, past the first `rows`, in `from`; another row is as it was. */
  ghost predicate RowRight(j: Job, pixels: seq<byte>, before: seq<byte>, y: nat, z: nat, rows: nat, from: nat, to: nat)
    requires Sized(j, pixels) && Sized(j, before) && z < j.height && from <= 4 * j.width && to <= 4 * j.width
  {
    var bytes := if z < EDGE * y + rows then to else from;
    if z / EDGE == y then
      RowSlice(pixels, 4 * j.width, j.height, z)[..bytes] == RowOf(j.f, j.input, j.width, j.height, j.size, z)[..bytes]
    else
      RowSlice(pixels, 4 * j.width, j.height, z) == RowSlice(before, 4 * j.width, j.height, z)
  }

  ghost predicate Filled(j: Job, pixels: seq<byte>, before: seq<byte>, y: nat, rows: nat, from: nat, to: nat)
    requires Sized(j, pixels) && Sized(j, before) && from <= 4 * j.width && to <= 4 * j.width
  {
    forall z: nat :: z < j.height ==> RowRight(j, pixels, before, y, z, rows, from, to)
  }

  /** One more row of a block leaves the others as they were. */
  lemma RowFills(j: Job, before: seq<byte>, last: seq<byte>, pixels: seq<byte>, x: nat, y: nat, row: nat)
    requires Sized(j, before) && Sized(j, last) && Sized(j, pixels) && x < Across(j.width) && row < EDGE
    requires var z := EDGE * y + row;
             z < j.height && Filled(j, last, before, y, row, SPAN * x, SPAN * x + Covered(j.width, x))
    requires var z := EDGE * y + row;
             forall q :: 0 <= q < j.height && q != z ==>
               RowSlice(pixels, 4 * j.width, j.height, q) == RowSlice(last, 4 * j.width, j.height, q)
    requires var z := EDGE * y + row;
             var was := RowSlice(last, 4 * j.width, j.height, z);
             var n := Covered(j.width, x);
             RowSlice(pixels, 4 * j.width, j.height, z)
             == was[..SPAN * x] + RowOf(j.f, j.input, j.width, j.height, j.size, z)[SPAN * x..SPAN * x + n] + was[SPAN * x + n..]
    ensures Filled(j, pixels, before, y, row + 1, SPAN * x, SPAN * x + Covered(j.width, x))
  {
    hide RowOf, RowSlice;
    var n, z := Covered(j.width, x), EDGE * y + row;
    var rows, from, to := row + 1, SPAN * x, SPAN * x + n;
    forall q: nat | q < j.height ensures RowRight(j, pixels, before, y, q, rows, from, to) {
      assert RowRight(j, last, before, y, q, row, from, to);
      if q == z { Extends(RowSlice(pixels, 4 * j.width, j.height, z), RowSlice(last, 4 * j.width, j.height, z),
                          RowOf(j.f, j.input, j.width, j.height, j.size, z), SPAN * x, n); }
    }
  }

  lemma Extends(now: seq<byte>, was: seq<byte>, right: seq<byte>, at: nat, n: nat)
    requires |now| == |was| == |right| && at + n <= |now| && was[..at] == right[..at]
    requires now == was[..at] + right[at..at + n] + was[at + n..]
    ensures now[..at + n] == right[..at + n]
  {
    assert right[..at + n] == right[..at] + right[at..at + n];
  }

  /** Copies bytes into a row of the buffer; the other rows stay as they were. */
  method CopyIntoRow(pixels: array<byte>, rowBytes: nat, height: nat, y: nat, column: nat, bytes: seq<byte>)
    requires pixels.Length == height * rowBytes && y < height && column + |bytes| <= rowBytes
    modifies pixels
    ensures forall z :: 0 <= z < height && z != y ==> RowSlice(pixels[..], rowBytes, height, z) == RowSlice(old(pixels[..]), rowBytes, height, z)
    ensures var row := RowSlice(old(pixels[..]), rowBytes, height, y);
            RowSlice(pixels[..], rowBytes, height, y) == row[..column] + bytes + row[column + |bytes|..]
  {
    hide RowSlice;
    RowBounds(rowBytes, height, y);
    ghost var before := pixels[..];
    CopyInto(pixels, y * rowBytes + column, bytes);
    RowsAfterCopy(before, pixels[..], rowBytes, height, y, column, bytes);
  }

  /** One row of a block's texels is its part of the image's row. */
  lemma TexelRow(j: Job, texels: seq<byte>, x: nat, y: nat, row: nat)
    requires Complete(j.input, j.width, j.height, j.size) && x < Across(j.width) && row < EDGE && EDGE * y + row < j.height
    requires texels == Texels(j.f, BlockAt(j.input, j.width, j.height, j.size, x, y))
    ensures var (z, n) := (EDGE * y + row, Covered(j.width, x));
            texels[row * SPAN..row * SPAN + n] == RowOf(j.f, j.input, j.width, j.height, j.size, z)[SPAN * x..SPAN * x + n]
  {
    hide Texels, RowOf, BlockAt, Complete, Covered;
    assert (EDGE * y + row) / EDGE == y && (EDGE * y + row) % EDGE == row;
    BlockRow(j.f, j.input, j.width, j.height, j.size, x, EDGE * y + row);
  }

  /** Copies one row of a decoded block into its place. */
  method CopyBlockRow(j: Job, texels: seq<byte>, x: nat, y: nat, row: nat, pixels: array<byte>, ghost before: seq<byte>)
    requires Sized(j, pixels[..]) && Sized(j, before) && x < Across(j.width) && row < EDGE && EDGE * y + row < j.height
    requires texels == Texels(j.f, BlockAt(j.input, j.width, j.height, j.size, x, y))
    requires Filled(j, pixels[..], before, y, row, SPAN * x, SPAN * x + Covered(j.width, x))
    modifies pixels
    ensures Sized(j, pixels[..])
    ensures Filled(j, pixels[..], before, y, row + 1, SPAN * x, SPAN * x + Covered(j.width, x))
  {
    hide Texels, RowOf, BlockAt, RowSlice, Complete, Filled, Covered;
    var z, n := EDGE * y + row, Covered(j.width, x);
    ghost var last := pixels[..];
    var bytes := texels[row * SPAN..row * SPAN + n];
    TexelRow(j, texels, x, y, row);
    CopyIntoRow(pixels, 4 * j.width, j.height, z, SPAN * x, bytes);
    RowFills(j, before, last, pixels[..], x, y, row);
  }

  /** Decodes one block into its place, clipped at the right and bottom edges. */
  method DecodeBlock(j: Job, x: nat, y: nat, pixels: array<byte>, ghost before: seq<byte>)
    requires Sized(j, pixels[..]) && Sized(j, before) && x < Across(j.width) && y < Across(j.height)
    requires Filled(j, pixels[..], before, y, 0, SPAN * x, SPAN * x)
    modifies pixels
    ensures Sized(j, pixels[..])
    ensures var end := SPAN * x + Covered(j.width, x); Filled(j, pixels[..], before, y, 0, end, end)
  {
    hide Texels, BlockAt, Filled, Complete;
    var compressed := BlockAt(j.input, j.width, j.height, j.size, x, y);
    var texels := Texels(j.f, compressed);
    var spanY, row := Min(EDGE, j.height - EDGE * y), 0;
    ghost var n := Covered(j.width, x);
    NoRows(j, pixels[..], before, y, SPAN * x, SPAN * x + n);
    while row < spanY
      invariant row <= spanY && Sized(j, pixels[..]) && Filled(j, pixels[..], before, y, row, SPAN * x, SPAN * x + n)
    {
      CopyBlockRow(j, texels, x, y, row, pixels, before);
      row := row + 1;
    }
    AllRows(j, pixels[..], before, y, row, SPAN * x, SPAN * x + n);
  }

  lemma NoRows(j: Job, pixels: seq<byte>, before: seq<byte>, y: nat, from: nat, to: nat)
    requires Sized(j, pixels) && Sized(j, before) && from <= 4 * j.width && to <= 4 * j.width
    requires Filled(j, pixels, before, y, 0, from, from)
    ensures Filled(j, pixels, before, y, 0, from, to)
  {
    hide RowSlice, RowOf;
    forall z: nat | z < j.height ensures RowRight(j, pixels, before, y, z, 0, from, to) {
      assert RowRight(j, pixels, before, y, z, 0, from, from);
    }
  }

  /** When every row of the block row is done, what lies past them is vacuous. */
  lemma AllRows(j: Job, pixels: seq<byte>, before: seq<byte>, y: nat, rows: nat, from: nat, to: nat)
    requires Sized(j, pixels) && Sized(j, before) && from <= 4 * j.width && to <= 4 * j.width
    requires Filled(j, pixels, before, y, rows, from, to) && rows == Min(EDGE, j.height - EDGE * y) && EDGE * y < j.height
    ensures Filled(j, pixels, before, y, 0, to, to)
  {
    hide RowSlice, RowOf;
    forall z: nat | z < j.height ensures RowRight(j, pixels, before, y, z, 0, to, to) {
      assert RowRight(j, pixels, before, y, z, rows, from, to);
    }
  }

  /** The bytes of a row that the first `x` block columns cover. */
  function Reach(width: nat, x: nat): (n: nat)
    ensures n <= 4 * width
  {
    Min(SPAN * x, 4 * width)
  }

  lemma ReachStep(width: nat, x: nat)
    requires x < Across(width)
    ensures Reach(width, x) == SPAN * x && SPAN * x + Covered(width, x) == Reach(width, x + 1)
    ensures Reach(width, 0) == 0 && Reach(width, Across(width)) == 4 * width
  {
  }

  /** Decodes one row of blocks: its pixel rows become right and no other row changes. */
  method DecodeBlockRow(j: Job, y: nat, pixels: array<byte>)
    requires Sized(j, pixels[..]) && j.width > 0 && y < Across(j.height)
    modifies pixels
    ensures Sized(j, pixels[..])
    ensures Filled(j, pixels[..], old(pixels[..]), y, 0, 4 * j.width, 4 * j.width)
  {
    hide Filled, Complete;
    ghost var before := pixels[..];
    var x := 0;
    NothingFilled(j, before, y);
    ReachStep(j.width, 0);
    while x < Across(j.width)
      invariant x <= Across(j.width) && Sized(j, pixels[..])
      invariant Filled(j, pixels[..], before, y, 0, Reach(j.width, x), Reach(j.width, x))
    {
      ReachStep(j.width, x);
      DecodeBlock(j, x, y, pixels, before);
      x := x + 1;
    }
  }

  lemma NothingFilled(j: Job, pixels: seq<byte>, y: nat)
    requires Sized(j, pixels)
    ensures Filled(j, pixels, pixels, y, 0, 0, 0)
  {
    hide RowSlice, RowOf;
    forall z: nat | z < j.height ensures RowRight(j, pixels, pixels, y, z, 0, 0, 0) { }
  }

  /** The first `rows` rows are the image's. */
  ghost predicate Decoded(j: Job, pixels: seq<byte>, rows: nat)
    requires Sized(j, pixels)
  {
    forall z: nat :: z < rows && z < j.height ==>
      RowSlice(pixels, 4 * j.width, j.height, z) == RowOf(j.f, j.input, j.width, j.height, j.size, z)
  }

  lemma DecodedGrows(j: Job, pixels: seq<byte>, before: seq<byte>, y: nat)
    requires Sized(j, pixels) && Sized(j, before) && Decoded(j, before, EDGE * y)
    requires Filled(j, pixels, before, y, 0, 4 * j.width, 4 * j.width)
    ensures Decoded(j, pixels, EDGE * (y + 1))
  {
    hide RowSlice, RowOf;
    forall z: nat | z < EDGE * (y + 1) && z < j.height
      ensures RowSlice(pixels, 4 * j.width, j.height, z) == RowOf(j.f, j.input, j.width, j.height, j.size, z)
    {
      assert RowRight(j, pixels, before, y, z, 0, 4 * j.width, 4 * j.width);
      var row, right := RowSlice(pixels, 4 * j.width, j.height, z), RowOf(j.f, j.input, j.width, j.height, j.size, z);
      assert row[..4 * j.width] == row && right[..4 * j.width] == right;
    }
  }

  /** What the decoder demands: non-empty dimensions, both budgets, and exactly the grid's bytes. */
  predicate Admits(length: nat, size: nat, width: nat, height: nat, budget: Budget)
    requires size > 0
  {
    && width > 0 && height > 0 && Area(Across(width), Across(height)) <= MAX_BYTES / size
    && Area(width, height) <= budget.pixels && Area(width, height) <= MAX_BYTES / 4
    && 4 * Area(width, height) <= budget.output && length == GridBytes(width, height, size)
  }

  /** Decodes a whole image; every row of its buffer is the row its blocks describe. */
  method DecodeBc(j: Job, budget: Budget) returns (r: Option<seq<byte>>)
    requires j.size > 0
    ensures r.Some? <==> Admits(|j.input|, j.size, j.width, j.height, budget)
    ensures r.Some? ==> Sized(j, r.value) && Decoded(j, r.value, j.height)
  {
    hide Decoded;
    var width, height := j.width, j.height;
    if width == 0 || height == 0 { return None; }
    var blocks := Area(Across(width), Across(height));
    if blocks > MAX_BYTES / j.size { return None; }
    var pixelCount := Area(width, height);
    if pixelCount > budget.pixels || pixelCount > MAX_BYTES / 4 || 4 * pixelCount > budget.output { return None; }
    if Area(blocks, j.size) != |j.input| { return None; }
    assert 4 * pixelCount == height * (4 * width);
    var pixels := new byte[4 * pixelCount](_ => 0);
    DecodeRows(j, pixels);
    return Some(pixels[..]);
  }

  /** Decodes block row after block row into the buffer. */
  method DecodeRows(j: Job, pixels: array<byte>)
    requires Sized(j, pixels[..]) && j.width > 0
    modifies pixels
    ensures Sized(j, pixels[..]) && Decoded(j, pixels[..], j.height)
  {
    hide Sized, Decoded, Filled;
    var y := 0;
    NothingDecoded(j, pixels[..]);
    while y < Across(j.height)
      invariant y <= Across(j.height) && Sized(j, pixels[..]) && Decoded(j, pixels[..], EDGE * y)
    {
      ghost var before := pixels[..];
      DecodeBlockRow(j, y, pixels);
      DecodedGrows(j, pixels[..], before, y);
      y := y + 1;
    }
    AllDecoded(j, pixels[..], EDGE * y);
  }

  lemma NothingDecoded(j: Job, pixels: seq<byte>)
    requires Sized(j, pixels)
    ensures Decoded(j, pixels, 0)
  {
  }

  lemma AllDecoded(j: Job, pixels: seq<byte>, rows: nat)
    requires Sized(j, pixels) && Decoded(j, pixels, rows) && rows >= j.height
    ensures Decoded(j, pixels, j.height)
  {
  }
}
