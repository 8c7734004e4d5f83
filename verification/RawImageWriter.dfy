/**
 The raw image writer: each row comes from a cached strip of four rows, or from the row's own elements when
 the format is plain, and together they are the whole image. The reader of a plain element, like the decoder
 of a block, is any function.
 */
module RawImageWriter {
  import opened Bytes
  import opened Mips
  import opened BlockImages

  /** A block-compressed format: 4x4 blocks of 8 or 16 bytes. */
  predicate BlockFormat(d: Descriptor)
  {
    d.compressed && d.element == 1 && d.block == 4 && d.shift <= 1
  }

  /** A plain format: one element of one to four bytes a pixel. */
  predicate PlainFormat(d: Descriptor)
  {
    !d.compressed && !d.alphaToGreen && 0 < d.element <= 4 && d.block == 1 && d.shift == 0
  }

  lemma TableFormats(major: nat, format: nat)
    ensures var d := LookupWire(major, format); d.Some? ==> BlockFormat(d.value) || PlainFormat(d.value)
  {
  }

  function BlockSize(d: Descriptor): (n: nat)
    ensures n > 0
  {
    if d.shift == 1 then 8 else 16
  }

  lemma LevelIsGrid(d: Descriptor, width: nat, height: nat)
    requires BlockFormat(d)
    ensures LevelValue(d, width, height) == GridBytes(width, height, BlockSize(d))
  {
    var a, b := Across(width), Across(height);
    SquareOfBlocks(a, b);
    assert Pow2(1) == 2;
    assert d.shift == 0 ==> a * b * 16 == 16 * (a * b);
    assert d.shift == 1 ==> 16 * (a * b) / 2 == a * b * 8;
  }

  /** The bytes of the strip of four rows (or fewer, at the bottom) that holds a row. */
  function StripBytes(width: nat, size: nat): nat
  {
    GridBytes(width, 4, size)
  }

  function StripRows(height: nat, strip: nat): (n: nat)
    requires strip < Across(height)
    ensures 0 < n <= 4 && Across(n) == 1 && 4 * strip + n <= height
  {
    Min(4, height - 4 * strip)
  }

  lemma StripBounds(width: nat, height: nat, size: nat, strip: nat)
    requires strip < Across(height)
    ensures strip * StripBytes(width, size) >= 0
    ensures strip * StripBytes(width, size) + StripBytes(width, size) <= GridBytes(width, height, size)
    ensures GridBytes(width, StripRows(height, strip), size) == StripBytes(width, size)
  {
    var (w, h) := (Across(width), Across(height));
    assert StripBytes(width, size) == w * 1 * size == w * size;
    MulMonotone(strip + 1, h, w * size);
    TimesGrid(h, w, size);
    assert (strip + 1) * (w * size) == strip * (w * size) + w * size;
  }

  lemma TimesGrid(h: nat, w: nat, size: nat)
    ensures h * (w * size) == w * h * size
  {
    assert h * (w * size) == (h * w) * size;
  }

  function Strip(source: seq<byte>, width: nat, height: nat, size: nat, strip: nat): (r: seq<byte>)
    requires Complete(source, width, height, size) && strip < Across(height)
    ensures Complete(r, width, StripRows(height, strip), size)
  {
    StripBounds(width, height, size, strip);
    source[strip * StripBytes(width, size)..strip * StripBytes(width, size) + StripBytes(width, size)]
  }

  /** A strip's blocks are the image's blocks of that block row. */
  lemma StripBlock(source: seq<byte>, width: nat, height: nat, size: nat, strip: nat, x: nat)
    requires Complete(source, width, height, size) && strip < Across(height) && x < Across(width)
    ensures BlockAt(Strip(source, width, height, size, strip), width, StripRows(height, strip), size, x, 0)
         == BlockAt(source, width, height, size, x, strip)
  {
    StripBounds(width, height, size, strip);
    BlockBounds(width, height, size, x, strip);
    BlockBounds(width, StripRows(height, strip), size, x, 0);
    var at := strip * StripBytes(width, size);
    StripStart(width, size, strip, x);
    SliceOfSlice(source, at, at + StripBytes(width, size), BlockStart(width, size, x, 0), BlockStart(width, size, x, 0) + size);
  }

  lemma StripStart(width: nat, size: nat, strip: nat, x: nat)
    ensures strip * StripBytes(width, size) + BlockStart(width, size, x, 0) == BlockStart(width, size, x, strip)
  {
    var w := Across(width);
    assert StripBytes(width, size) == w * 1 * size == w * size;
    assert (strip * w + x) * size == strip * w * size + x * size;
    assert strip * (w * size) == strip * w * size;
  }

  /** Decoding a strip by itself gives the image's rows. */
  lemma StripRow(f: seq<byte> -> seq<byte>, source: seq<byte>, width: nat, height: nat, size: nat, strip: nat, row: nat)
    requires Complete(source, width, height, size) && strip < Across(height) && row < StripRows(height, strip)
    ensures RowOf(f, Strip(source, width, height, size, strip), width, StripRows(height, strip), size, row)
         == RowOf(f, source, width, height, size, 4 * strip + row)
  {
    var part, rows := Strip(source, width, height, size, strip), StripRows(height, strip);
    var left, right := RowOf(f, part, width, rows, size, row), RowOf(f, source, width, height, size, 4 * strip + row);
    hide Texels, Strip, BlockAt, Complete, StripBytes;
    forall i | 0 <= i < 4 * width ensures left[i] == right[i] {
      assert (4 * strip + row) / EDGE == strip && (4 * strip + row) % EDGE == row && row / EDGE == 0;
      ByteOfBlock(f, part, width, rows, size, row, i);
      ByteOfBlock(f, source, width, height, size, 4 * strip + row, i);
      StripBlock(source, width, height, size, strip, i / SPAN);
    }
  }

  lemma ByteOfBlock(f: seq<byte> -> seq<byte>, input: seq<byte>, width: nat, height: nat, size: nat, y: nat, i: nat)
    requires Complete(input, width, height, size) && y < height && i < 4 * width
    ensures PixelByte(f, input, width, height, size, y, i)
         == Texels(f, BlockAt(input, width, height, size, i / SPAN, y / EDGE))[y % EDGE * SPAN + i % SPAN]
  {
    hide Texels;
    BlockBounds(width, height, size, i / SPAN, y / EDGE);
  }

  lemma AdmittedLength(length: nat, size: nat, width: nat, height: nat, budget: Budget)
    requires size > 0 && Admits(length, size, width, height, budget)
    ensures length == GridBytes(width, height, size)
  {
  }

  lemma StripIsAdmitted(width: nat, height: nat, size: nat, strip: nat, budget: Budget)
    requires size > 0 && strip < Across(height) && Admits(GridBytes(width, height, size), size, width, height, budget)
    ensures Admits(StripBytes(width, size), size, width, StripRows(height, strip), budget)
  {
    StripBounds(width, height, size, strip);
    var rows := StripRows(height, strip);
    MulMonotone(rows, height, width);
    assert width * rows == rows * width && width * height == height * width;
    MulMonotone(1, Across(height), Across(width));
    assert Across(height) * Across(width) == Across(width) * Across(height);
  }

  // ---- the alpha-to-green conversion

  /** Red stays, alpha moves to green, blue is zero and alpha full. */
  function Greened(rgba: seq<byte>): (r: seq<byte>)
    requires |rgba| % 4 == 0
    ensures |r| == |rgba|
  {
    seq(|rgba|, i requires 0 <= i < |rgba| =>
      if i % 4 == 0 then rgba[i] else if i % 4 == 1 then rgba[i + 2] else if i % 4 == 2 then 0 else 0xFF)
  }

  function Shown(d: Descriptor, row: seq<byte>): (r: seq<byte>)
    requires |row| % 4 == 0
    ensures |r| == |row|
  {
    if d.alphaToGreen then Greened(row) else row
  }

  method AlphaToGreen(rgba: array<byte>)
    requires rgba.Length % 4 == 0
    modifies rgba
    ensures rgba[..] == Greened(old(rgba[..]))
  {
    hide Greened;
    var index := 0;
    ghost var was := rgba[..];
    while index < rgba.Length
      invariant index <= rgba.Length && index % 4 == 0
      invariant forall k :: 0 <= k < index ==> rgba[k] == Greened(was)[k]
      invariant forall k :: index <= k < rgba.Length ==> rgba[k] == was[k]
    {
      Quad(was, index);
      rgba[index + 1] := rgba[index + 3];
      rgba[index + 2] := 0;
      rgba[index + 3] := 0xFF;
      index := index + 4;
    }
  }

  lemma Quad(rgba: seq<byte>, at: nat)
    requires |rgba| % 4 == 0 && at % 4 == 0 && at < |rgba|
    ensures at + 4 <= |rgba|
    ensures Greened(rgba)[at] == rgba[at] && Greened(rgba)[at + 1] == rgba[at + 3]
    ensures Greened(rgba)[at + 2] == 0 && Greened(rgba)[at + 3] == 0xFF
  {
  }

  // ---- plain formats

  /** The four channels of an element. */
  function Channels(g: seq<byte> -> seq<byte>, element: seq<byte>): (r: seq<byte>)
    ensures |r| == 4
  {
    if |g(element)| == 4 then g(element) else [0, 0, 0, 0]
  }

  /** The elements of a plain level, pixel after pixel, as channels: nothing here knows about rows. */
  function Pixels(g: seq<byte> -> seq<byte>, source: seq<byte>, element: nat): seq<byte>
  {
    if element == 0 || |source| < element then []
    else Channels(g, source[..element]) + Pixels(g, source[element..], element)
  }

  lemma Times(count: nat, element: nat)
    requires count > 0
    ensures count * element == (count - 1) * element + element && (count - 1) * element >= 0
  {
  }

  lemma {:induction false} PixelsCount(g: seq<byte> -> seq<byte>, source: seq<byte>, element: nat, count: nat)
    requires element > 0 && |source| == count * element
    ensures |Pixels(g, source, element)| == 4 * count
    decreases count
  {
    if count > 0 {
      Times(count, element);
      PixelsCount(g, source[element..], element, count - 1);
    }
  }

  /** A level may be cut behind any of its elements. */
  lemma {:induction false} PixelsJoin(g: seq<byte> -> seq<byte>, a: seq<byte>, b: seq<byte>, element: nat, count: nat)
    requires element > 0 && |a| == count * element
    ensures Pixels(g, a + b, element) == Pixels(g, a, element) + Pixels(g, b, element)
    decreases count
  {
    hide Channels;
    if count == 0 {
      assert a + b == b;
    } else {
      Times(count, element);
      PixelsJoin(g, a[element..], b, element, count - 1);
      assert (a + b)[element..] == a[element..] + b && (a + b)[..element] == a[..element];
    }
  }

  lemma OnePixel(g: seq<byte> -> seq<byte>, element: seq<byte>)
    requires element != []
    ensures Pixels(g, element, |element|) == Channels(g, element)
  {
    hide Channels;
    assert element[..|element|] == element && element[|element|..] == [];
    assert Channels(g, element) + [] == Channels(g, element);
  }

  // ---- what the writer makes of a level

  /** A level of the size its format demands. */
  predicate Stored(d: Descriptor, length: nat, width: nat, height: nat)
  {
    length == if d.compressed then GridBytes(width, height, BlockSize(d)) else Area(Area(width, height), d.element)
  }

  /** What the writer demands: non-empty dimensions, both budgets, and exactly the level's bytes. */
  predicate Writable(d: Descriptor, length: nat, width: nat, height: nat, budget: Budget)
  {
    && width > 0 && height > 0 && Area(width, height) <= budget.pixels && Area(width, height) <= MAX_BYTES / 4
    && 4 * Area(width, height) <= budget.output && Stored(d, length, width, height)
  }

  datatype Level = Level(f: seq<byte> -> seq<byte>, g: seq<byte> -> seq<byte>, source: seq<byte>, d: Descriptor, width: nat, height: nat)

  ghost predicate Sound(l: Level)
  {
    (BlockFormat(l.d) || PlainFormat(l.d)) && Stored(l.d, |l.source|, l.width, l.height)
  }

  function StoredRow(l: Level, row: nat): (r: seq<byte>)
    requires Sound(l) && !l.d.compressed && row < l.height
    ensures |r| == l.width * l.d.element
  {
    PlainLength(l);
    RowSlice(l.source, l.width * l.d.element, l.height, row)
  }

  lemma PlainLength(l: Level)
    requires Sound(l) && !l.d.compressed
    ensures |l.source| == l.height * (l.width * l.d.element)
  {
    TimesGrid(l.height, l.width, l.d.element);
    assert l.width * l.height == l.height * l.width;
  }

  /** A row of the picture: the whole image's row, converted where the format asks for it. */
  function Line(l: Level, row: nat): (r: seq<byte>)
    requires Sound(l) && row < l.height
    ensures |r| == 4 * l.width
  {
    if l.d.compressed then Shown(l.d, RowOf(l.f, l.source, l.width, l.height, BlockSize(l.d), row))
    else
      PixelsCount(l.g, StoredRow(l, row), l.d.element, l.width);
      Pixels(l.g, StoredRow(l, row), l.d.element)
  }

  /** The first `n` rows, one after the other. */
  function Picture(l: Level, n: nat): seq<byte>
    requires Sound(l) && n <= l.height
    decreases n
  {
    if n == 0 then [] else Picture(l, n - 1) + Line(l, n - 1)
  }

  // ---- the row callback

  class RowReader {
    const l: Level
    const budget: Budget
    var cached: Option<nat>
    var decoded: seq<byte>

    constructor (level: Level, limits: Budget)
      requires BlockFormat(level.d) || PlainFormat(level.d)
      requires level.width <= 0xFFFF_FFFF && level.height <= 0xFFFF_FFFF
      requires Writable(level.d, |level.source|, level.width, level.height, limits)
      ensures l == level && budget == limits && Ready()
    {
      l, budget := level, limits;
      cached, decoded := None, [];
    }

    ghost predicate Open()
    {
      Sound(l) && l.width <= 0xFFFF_FFFF && l.height <= 0xFFFF_FFFF && Writable(l.d, |l.source|, l.width, l.height, budget)
    }

    /** A cached strip holds the decoded rows of that strip. */
    ghost predicate Ready()
      reads this
    {
      && Open()
      && (cached.Some? ==>
            && BlockFormat(l.d) && cached.value < Across(l.height)
            && var job := Job(l.f, Strip(l.source, l.width, l.height, BlockSize(l.d), cached.value), l.width,
                              StripRows(l.height, cached.value), BlockSize(l.d));
               Sized(job, decoded) && Decoded(job, decoded, job.height))
    }

    method LoadStrip(strip: nat)
      requires Open() && BlockFormat(l.d) && strip < Across(l.height)
      modifies this
      ensures Ready() && cached == Some(strip)
    {
      hide Decoded, GridBytes, Area, Admits, LevelValue, Writable;
      var (width, height, size) := (l.width, l.height, BlockSize(l.d));
      StripBounds(width, height, size, strip);
      LevelIsGrid(l.d, width, 4);
      WritableIsAdmitted(l.d, |l.source|, width, height, budget);
      StripIsAdmitted(width, height, size, strip, budget);
      var bytes := LevelValue(l.d, width, 4);
      assert bytes == StripBytes(width, size);
      var stored := l.source[strip * bytes..strip * bytes + bytes];
      assert stored == Strip(l.source, width, height, size, strip);
      var r := DecodeBc(Job(l.f, stored, width, StripRows(height, strip), size), budget);
      decoded := r.value;
      cached := Some(strip);
    }

    /** Any row, in any order, is that row of the picture. */
    method ReadRow(row: nat, rgba: array<byte>)
      requires Ready() && row < l.height && rgba.Length == 4 * l.width
      modifies this, rgba
      ensures Ready()
      ensures rgba[..] == Line(l, row)
    {
      hide RowOf, Decoded, Sized, Strip, GridBytes, Writable, BlockFormat, Pixels, Shown;
      if l.d.compressed { ReadBlockRow(row, rgba); } else { ReadPlainRow(row, rgba); }
    }

    method ReadBlockRow(row: nat, rgba: array<byte>)
      requires Ready() && BlockFormat(l.d) && row < l.height && rgba.Length == 4 * l.width
      modifies this, rgba
      ensures Ready()
      ensures rgba[..] == Shown(l.d, RowOf(l.f, l.source, l.width, l.height, BlockSize(l.d), row))
    {
      hide Greened, RowOf, Decoded, Sized, Strip, GridBytes, Writable, BlockFormat;
      var strip := row / 4;
      if cached != Some(strip) { LoadStrip(strip); }
      var line := CachedRow(row);
      CopyInto(rgba, 0, line);
      assert rgba[..] == rgba[0..0 + |line|] == line;
      if l.d.alphaToGreen { AlphaToGreen(rgba); }
    }

    method CachedRow(row: nat) returns (line: seq<byte>)
      requires Ready() && BlockFormat(l.d) && row < l.height && cached == Some(row / 4)
      ensures line == RowOf(l.f, l.source, l.width, l.height, BlockSize(l.d), row)
    {
      hide RowOf, Strip, GridBytes, Writable;
      var strip, rows := row / 4, StripRows(l.height, row / 4);
      RowBounds(4 * l.width, rows, row % 4);
      line := decoded[row % 4 * (4 * l.width)..row % 4 * (4 * l.width) + 4 * l.width];
      assert line == RowSlice(decoded, 4 * l.width, rows, row % 4);
      StripRow(l.f, l.source, l.width, l.height, BlockSize(l.d), strip, row % 4);
      assert 4 * strip + row % 4 == row;
    }

    /** Reads a plain row element by element. */
    method ReadPlainRow(row: nat, rgba: array<byte>)
      requires Open() && !l.d.compressed && row < l.height && rgba.Length == 4 * l.width
      modifies rgba
      ensures rgba[..] == Line(l, row)
    {
      hide Writable, Stored;
      PlainLength(l);
      var rowBytes := l.width * l.d.element;
      RowBounds(rowBytes, l.height, row);
      var stored := l.source[row * rowBytes..row * rowBytes + rowBytes];
      assert stored == StoredRow(l, row);
      ReadElements(stored, rgba);
    }

    method ReadElements(stored: seq<byte>, rgba: array<byte>)
      requires 0 < l.d.element && |stored| == l.width * l.d.element && rgba.Length == 4 * l.width
      modifies rgba
      ensures rgba[..] == Pixels(l.g, stored, l.d.element)
    {
      hide Channels, Pixels;
      var element := l.d.element;
      var column: nat, at: nat := 0, 0;
      PixelsCount(l.g, [], element, 0);
      while column < l.width
        invariant column <= l.width && at == column * element && at <= |stored|
        invariant rgba[..4 * column] == Pixels(l.g, stored[..at], element)
      {
        RowBounds(element, l.width, column);
        var quad := Channels(l.g, stored[at..at + element]);
        PixelsJoin(l.g, stored[..at], stored[at..at + element], element, column);
        OnePixel(l.g, stored[at..at + element]);
        assert stored[..at + element] == stored[..at] + stored[at..at + element];
        Times(column + 1, element);
        ghost var before := rgba[..4 * column];
        CopyInto(rgba, 4 * column, quad);
        assert rgba[..4 * column] == before;
        assert rgba[..4 * column + 4] == before + rgba[4 * column..4 * column + 4];
        column, at := column + 1, at + element;
      }
      assert stored[..at] == stored && rgba[..4 * column] == rgba[..];
    }
  }

  /** Writes a level row by row, once its size and both budgets are right. */
  method WriteRawImage(f: seq<byte> -> seq<byte>, g: seq<byte> -> seq<byte>, source: seq<byte>, major: nat, format: nat,
                       width: nat, height: nat, budget: Budget)
    returns (r: Option<seq<byte>>)
    requires width <= 0xFFFF_FFFF && height <= 0xFFFF_FFFF
    ensures r.Some? <==> LookupWire(major, format).Some? && Writable(LookupWire(major, format).value, |source|, width, height, budget)
    ensures r.Some? ==> Sound(Level(f, g, source, LookupWire(major, format).value, width, height))
    ensures r.Some? ==> r.value == Picture(Level(f, g, source, LookupWire(major, format).value, width, height), height)
  {
    hide LookupWire, Stored, Line, LevelValue, BlockFormat, PlainFormat;
    TableFormats(major, format);
    var known := LookupWire(major, format);
    if known.None? || width == 0 || height == 0 { return None; }
    var d := known.value;
    var pixels := Area(width, height);
    if pixels > budget.pixels || pixels > MAX_BYTES / 4 || 4 * pixels > budget.output { return None; }
    ConvertibleIsStored(|source|, d, width, height);
    if ImageLevel(d, width, height) != Some(|source|) { return None; }
    var level := Level(f, g, source, d, width, height);
    var reader := new RowReader(level, budget);
    var output, row := [], 0;
    while row < height
      invariant row <= height && reader.Ready() && output == Picture(level, row)
    {
      var rgba := new byte[4 * width](_ => 0);
      reader.ReadRow(row, rgba);
      output := output + rgba[..];
      row := row + 1;
    }
    return Some(output);
  }

  /** Within the pixel budget the padded grid of 32-bit dimensions stays far from the 64-bit limit. */
  lemma PaddedAreaFits(width: nat, height: nat)
    requires width <= 0xFFFF_FFFF && height <= 0xFFFF_FFFF && Area(width, height) <= MAX_BYTES / 4
    ensures Padded(width, 4) * Padded(height, 4) <= MAX_BYTES
  {
    hide Padded;
    PaddedBounds(width, 4);
    PaddedBounds(height, 4);
    MulMonotone(Padded(width, 4), width + 3, Padded(height, 4));
    MulMonotone(Padded(height, 4), height + 3, width + 3);
    assert Padded(height, 4) * (width + 3) == (width + 3) * Padded(height, 4);
    assert (height + 3) * (width + 3) == width * height + 3 * width + 3 * height + 9;
  }

  /** The writer's size check on 32-bit dimensions within the pixel budget. */
  lemma ConvertibleIsStored(length: nat, d: Descriptor, width: nat, height: nat)
    requires BlockFormat(d) || PlainFormat(d)
    requires 0 < width <= 0xFFFF_FFFF && 0 < height <= 0xFFFF_FFFF && Area(width, height) <= MAX_BYTES / 4
    ensures Format(d) && (ImageLevel(d, width, height) == Some(length) <==> Stored(d, length, width, height))
  {
    hide Padded, LevelValue, GridBytes;
    LevelIsRepresentable(d, width, height);
    if d.compressed {
      LevelIsGrid(d, width, height);
      PaddedAreaFits(width, height);
    } else {
      PlainLevel(d, width, height);
    }
  }

  lemma PlainLevel(d: Descriptor, width: nat, height: nat)
    requires PlainFormat(d) && Area(width, height) <= MAX_BYTES / 4
    ensures Representable(d, width, height) && LevelValue(d, width, height) == Area(Area(width, height), d.element)
  {
    PaddedBounds(width, 1);
    PaddedBounds(height, 1);
    MulMonotone(d.element, 4, width * height);
    assert d.element * (width * height) == width * height * d.element;
    assert Pow2(0) == 1;
  }

  /** What the writer demands of a compressed level is what the block decoder demands. */
  lemma WritableIsAdmitted(d: Descriptor, length: nat, width: nat, height: nat, budget: Budget)
    requires BlockFormat(d) && width <= 0xFFFF_FFFF && height <= 0xFFFF_FFFF
    ensures Writable(d, length, width, height, budget) <==> Admits(length, BlockSize(d), width, height, budget)
  {
    hide GridBytes, Padded;
    if Area(width, height) <= MAX_BYTES / 4 {
      PaddedAreaFits(width, height);
      BlocksFit(width, height);
    }
  }

  lemma BlocksFit(width: nat, height: nat)
    requires Padded(width, 4) * Padded(height, 4) <= MAX_BYTES
    ensures Area(Across(width), Across(height)) <= MAX_BYTES / 16 <= MAX_BYTES / 8
  {
    SquareOfBlocks(Across(width), Across(height));
  }

  lemma ShownJoins(d: Descriptor, a: seq<byte>, b: seq<byte>)
    requires |a| % 4 == 0 && |b| % 4 == 0
    ensures Shown(d, a + b) == Shown(d, a) + Shown(d, b)
  {
    hide Greened;
    GreenedJoins(a, b);
  }

  lemma GreenedJoins(a: seq<byte>, b: seq<byte>)
    requires |a| % 4 == 0 && |b| % 4 == 0
    ensures Greened(a + b) == Greened(a) + Greened(b)
  {
    hide Greened;
    forall i | 0 <= i < |a + b| ensures Greened(a + b)[i] == (Greened(a) + Greened(b))[i] {
      var at := i / 4 * 4;
      Quad(a + b, at);
      if at < |a| { Quad(a, at); } else { Quad(b, at - |a|); }
    }
  }

  function FirstRows(pixels: seq<byte>, rowBytes: nat, height: nat, n: nat): (r: seq<byte>)
    requires |pixels| == height * rowBytes && n <= height
    ensures n == 0 ==> r == []
    ensures n == height ==> r == pixels
  {
    MulMonotone(n, height, rowBytes);
    pixels[..n * rowBytes]
  }

  lemma RowJoins(pixels: seq<byte>, rowBytes: nat, height: nat, z: nat)
    requires |pixels| == height * rowBytes && z < height
    ensures FirstRows(pixels, rowBytes, height, z + 1) == FirstRows(pixels, rowBytes, height, z) + RowSlice(pixels, rowBytes, height, z)
  {
    RowBounds(rowBytes, height, z);
    Times(z + 1, rowBytes);
  }

  lemma FirstRowsLength(pixels: seq<byte>, rowBytes: nat, height: nat, n: nat)
    requires |pixels| == height * rowBytes && n <= height
    ensures |FirstRows(pixels, rowBytes, height, n)| == n * rowBytes
  {
  }

  lemma WholePixels(pixels: seq<byte>, width: nat, height: nat, n: nat)
    requires |pixels| == height * (4 * width) && n <= height
    ensures |FirstRows(pixels, 4 * width, height, n)| % 4 == 0
  {
    FirstRowsLength(pixels, 4 * width, height, n);
    assert n * (4 * width) == 4 * (n * width);
  }

  /** What the strips emit is the whole image's pixel buffer, converted where the format asks for it. */
  lemma {:induction false} PictureIsWhole(l: Level, j: Job, pixels: seq<byte>, n: nat)
    requires Sound(l) && BlockFormat(l.d) && j == Job(l.f, l.source, l.width, l.height, BlockSize(l.d)) && n <= l.height
    requires Sized(j, pixels) && Decoded(j, pixels, j.height)
    ensures |pixels| == l.height * (4 * l.width) && |FirstRows(pixels, 4 * l.width, l.height, n)| % 4 == 0
    ensures Picture(l, n) == Shown(l.d, FirstRows(pixels, 4 * l.width, l.height, n))
    decreases n
  {
    hide Shown, Line, Sound, BlockFormat, Sized, Decoded, RowSlice, FirstRows;
    PixelLength(j, pixels);
    WholePixels(pixels, l.width, l.height, n);
    if n == 0 {
      ShownNothing(l.d);
    } else {
      PictureIsWhole(l, j, pixels, n - 1);
      DecodedRow(l, j, pixels, n - 1);
      RowJoins(pixels, 4 * l.width, l.height, n - 1);
      ShownJoins(l.d, FirstRows(pixels, 4 * l.width, l.height, n - 1), RowSlice(pixels, 4 * l.width, l.height, n - 1));
    }
  }

  lemma PixelLength(j: Job, pixels: seq<byte>)
    requires Sized(j, pixels)
    ensures |pixels| == j.height * (4 * j.width)
  {
  }

  /** What the rows of a plain level emit is its elements in order, wherever a row ends. */
  lemma {:induction false} PictureIsLinear(l: Level, n: nat)
    requires Sound(l) && PlainFormat(l.d) && n <= l.height
    ensures |l.source| == l.height * (l.width * l.d.element)
    ensures Picture(l, n) == Pixels(l.g, FirstRows(l.source, l.width * l.d.element, l.height, n), l.d.element)
    decreases n
  {
    hide Pixels, Sound, PlainFormat, RowSlice, FirstRows;
    PlainElement(l);
    PlainLength(l);
    var rowBytes := l.width * l.d.element;
    if n == 0 {
      PixelsCount(l.g, [], l.d.element, 0);
    } else {
      PictureIsLinear(l, n - 1);
      RowJoins(l.source, rowBytes, l.height, n - 1);
      FirstRowsLength(l.source, rowBytes, l.height, n - 1);
      TimesGrid(n - 1, l.width, l.d.element);
      PixelsJoin(l.g, FirstRows(l.source, rowBytes, l.height, n - 1), StoredRow(l, n - 1), l.d.element, l.width * (n - 1));
    }
  }

  lemma PlainElement(l: Level)
    requires PlainFormat(l.d)
    ensures l.d.element > 0 && !l.d.compressed
  {
  }

  lemma DecodedRow(l: Level, j: Job, pixels: seq<byte>, z: nat)
    requires Sound(l) && BlockFormat(l.d) && j == Job(l.f, l.source, l.width, l.height, BlockSize(l.d)) && z < l.height
    requires Sized(j, pixels) && Decoded(j, pixels, j.height)
    ensures Line(l, z) == Shown(l.d, RowSlice(pixels, 4 * j.width, j.height, z))
  {
    hide Shown, Pixels;
  }

  lemma ShownNothing(d: Descriptor)
    ensures Shown(d, []) == []
  {
  }
}
