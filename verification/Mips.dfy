/**
 Mip pyramids are sized twice: the texture prober shifts the base dimensions level by level, and the
 image writer halves them in place. Both sizes, over the format tables of the two files.
 */
module Mips {
  import opened Bytes

  const MAX_BYTES := 0xFFFF_FFFF_FFFF_FFFF
  const MAX_WIRE := 65535

  /** Stored geometry of a level in the texture prober. */
  datatype Geometry = Geometry(edge: nat, bytes: nat, compressed: bool)

  /** A pixel format of the image writer. */
  datatype Descriptor = Descriptor(compressed: bool, alphaToGreen: bool, element: nat, block: nat, shift: nat)

  function GeometryFor(major: nat, format: nat): Option<Geometry>
  {
    match format
    case 0 => Some(Geometry(1, 1, false))
    case 1 => Some(Geometry(1, 2, false))
    case 2 => Some(Geometry(1, 1, false))
    case 3 => Some(Geometry(1, 2, false))
    case 4 => Some(Geometry(1, 3, false))
    case 5 => Some(Geometry(1, 4, false))
    case 17 => Some(Geometry(4, 8, true))
    case 18 => Some(Geometry(4, 16, true))
    case 19 => Some(Geometry(4, 16, true))
    case 20 => Some(Geometry(4, 8, true))
    case 21 => Some(Geometry(4, 16, true))
    case 22 => Some(Geometry(4, 16, true))
    case 34 => if major == 4 then Some(Geometry(4, 16, true)) else None
    case _ => None
  }

  function Plain(element: nat): Option<Descriptor>
  {
    Some(Descriptor(false, false, element, 1, 0))
  }

  function Blocks(shift: nat): Option<Descriptor>
  {
    Some(Descriptor(true, false, 1, 4, shift))
  }

  function LookupWire(major: nat, format: nat): Option<Descriptor>
  {
    if major == 2 then
      match format
      case 0 => Plain(1)
      case 1 => Plain(1)
      case 2 => Plain(2)
      case 3 => Plain(3)
      case 4 => Plain(4)
      case 7 => Blocks(1)
      case 8 => Blocks(0)
      case 9 => Blocks(0)
      case 10 => Blocks(1)
      case 11 => Blocks(0)
      case _ => None
    else if major == 3 || major == 4 then
      match format
      case 0 => Plain(1)
      case 1 => Plain(2)
      case 2 => Plain(1)
      case 3 => Plain(2)
      case 4 => Plain(3)
      case 5 => Plain(4)
      case 6 => Plain(2)
      case 7 => Plain(2)
      case 17 => Blocks(1)
      case 18 => Blocks(0)
      case 19 => Blocks(0)
      case 20 => Blocks(1)
      case 21 => Blocks(0)
      case 22 => Blocks(0)
      case 34 => if major == 4 then Some(Descriptor(true, true, 1, 4, 0)) else None
      case _ => None
    else None
  }

  // ---- one level

  function Area(width: nat, height: nat): nat
  {
    width * height
  }

  function TextureLevel(g: Geometry, width: nat, height: nat): nat
    requires g.edge > 0
  {
    if !g.compressed then Area(width, height) * g.bytes
    else Area((width + g.edge - 1) / g.edge, (height + g.edge - 1) / g.edge) * g.bytes
  }

  /** An extent rounded up to the block edge. */
  function Padded(extent: nat, block: nat): (p: nat)
    requires block > 0
  {
    (extent + block - 1) / block * block
  }

  predicate Format(d: Descriptor)
  {
    0 < d.element <= 4 && (d.block == 1 || d.block == 4) && d.shift <= 1
  }

  function LevelValue(d: Descriptor, width: nat, height: nat): nat
    requires Format(d)
  {
    Area(Area(Padded(width, d.block), Padded(height, d.block)), d.element) / Pow2(d.shift)
  }

  /** The level size, unless an intermediate product passes 64 bits. */
  function ImageLevel(d: Descriptor, width: nat, height: nat): Option<nat>
    requires Format(d) && width > 0
  {
    var padded := Padded(width, d.block);
    PaddedBounds(width, d.block);
    if Padded(height, d.block) > MAX_BYTES / padded then None
    else if padded * Padded(height, d.block) > MAX_BYTES / d.element then None
    else Some(LevelValue(d, width, height))
  }

  lemma PaddedBounds(extent: nat, block: nat)
    requires block == 1 || block == 4
    ensures extent <= Padded(extent, block) <= extent + block - 1
  {
  }

  lemma FitsDivision(a: nat, b: nat, limit: nat)
    requires b > 0
    ensures a > limit / b <==> a * b > limit
  {
    if a > limit / b { MulMonotone(limit / b + 1, a, b); } else { MulMonotone(a, limit / b, b); }
    assert limit == b * (limit / b) + limit % b;
  }

  predicate Representable(d: Descriptor, width: nat, height: nat)
    requires Format(d)
  {
    Padded(width, d.block) * Padded(height, d.block) * d.element <= MAX_BYTES
  }

  lemma LevelIsRepresentable(d: Descriptor, width: nat, height: nat)
    requires Format(d) && width > 0
    ensures ImageLevel(d, width, height).Some? <==> Representable(d, width, height)
  {
    hide Padded, LevelValue;
    PaddedBounds(width, d.block);
    var pw, ph := Padded(width, d.block), Padded(height, d.block);
    FitsDivision(ph, pw, MAX_BYTES);
    FitsDivision(pw * ph, d.element, MAX_BYTES);
    assert ph * pw == pw * ph;
    if pw * ph > MAX_BYTES { MulMonotone(1, d.element, pw * ph); assert d.element * (pw * ph) == pw * ph * d.element; }
  }

  function Half(extent: nat): (h: nat)
    ensures h <= Max(extent, 1) && h > 0
  {
    if extent > 1 then extent / 2 else 1
  }

  lemma PaddedMonotone(a: nat, b: nat, block: nat)
    requires a <= b && (block == 1 || block == 4)
    ensures Padded(a, block) <= Padded(b, block)
  {
  }

  lemma HalfIsRepresentable(d: Descriptor, width: nat, height: nat)
    requires Format(d) && width > 0 && height > 0 && Representable(d, width, height)
    ensures Representable(d, Half(width), Half(height))
  {
    hide Padded;
    PaddedMonotone(Half(width), width, d.block);
    PaddedMonotone(Half(height), height, d.block);
    var (a, b, x, y) := (Padded(Half(width), d.block), Padded(Half(height), d.block), Padded(width, d.block), Padded(height, d.block));
    MulMonotone(a, x, b);
    MulMonotone(b, y, x);
    assert b * x == x * b && y * x == x * y;
    MulMonotone(a * b, x * y, d.element);
  }

  // ---- whole chains

  /** Every level of the pyramid down to one pixel, the largest first. */
  function ImageChain(d: Descriptor, width: nat, height: nat): nat
    requires Format(d) && width > 0 && height > 0
    decreases width + height
  {
    if width == 1 && height == 1 then LevelValue(d, width, height)
    else LevelValue(d, width, height) + ImageChain(d, Half(width), Half(height))
  }

  function TextureChain(g: Geometry, width: nat, height: nat): nat
    requires g.edge > 0 && width > 0 && height > 0
    decreases width + height
  {
    if width == 1 && height == 1 then TextureLevel(g, width, height)
    else TextureLevel(g, width, height) + TextureChain(g, Half(width), Half(height))
  }

  function Levels(width: nat, height: nat): (n: nat)
    requires width > 0 && height > 0
    ensures n > 0
    decreases width + height
  {
    if width == 1 && height == 1 then 1 else 1 + Levels(Half(width), Half(height))
  }

  /** Walks the pyramid while it still fits the total; it can only overflow on the base level. */
  method ChainMatches(width: nat, height: nat, d: Descriptor, mipmaps: bool, total: nat) returns (r: Option<bool>)
    requires Format(d) && width > 0 && height > 0
    ensures r.Some? <==> Representable(d, width, height)
    ensures r.Some? ==>
      (r.value <==> total == if mipmaps then ImageChain(d, width, height) else LevelValue(d, width, height))
  {
    hide Padded, LevelValue, Representable;
    var remaining, w, h := total, width, height;
    LevelIsRepresentable(d, w, h);
    if !Representable(d, w, h) { return None; }
    while true
      invariant w > 0 && h > 0 && remaining <= total && Representable(d, w, h)
      invariant !mipmaps ==> w == width && h == height && remaining == total
      invariant mipmaps ==> total - remaining + ImageChain(d, w, h) == ImageChain(d, width, height)
      decreases w + h
    {
      LevelIsRepresentable(d, w, h);
      var level := ImageLevel(d, w, h);
      assert level == Some(LevelValue(d, w, h));
      if level.value > remaining { return Some(false); }
      remaining := remaining - level.value;
      if !mipmaps || (w == 1 && h == 1) { return Some(remaining == 0); }
      HalfIsRepresentable(d, w, h);
      w, h := Half(w), Half(h);
    }
  }

  method MaxMipLevels(width: nat, height: nat) returns (levels: nat)
    requires width > 0 && height > 0
    ensures levels == Levels(width, height)
  {
    levels := 1;
    var w, h := width, height;
    while w > 1 || h > 1
      invariant w > 0 && h > 0 && levels + Levels(w, h) == Levels(width, height) + 1
      decreases w + h
    {
      w, h := Half(w), Half(h);
      levels := levels + 1;
    }
  }

  /** The base dimension shifted right by the level, and never zero. */
  function LevelDimension(size: nat, level: nat): nat
  {
    var halved := size / Pow2(level);
    if halved > 0 then halved else 1
  }

  lemma DivideTwice(n: nat, p: nat)
    requires p > 0
    ensures n / (2 * p) == n / 2 / p
  {
    var q, r := n / 2 / p, n / 2 % p;
    assert n / 2 == p * q + r && n == 2 * (n / 2) + n % 2;
    assert n == (2 * p) * q + (2 * r + n % 2);
    DivUnique(n, 2 * p, q, 2 * r + n % 2);
  }

  /** Shifting once more is shifting the halved dimension. */
  lemma DimensionStep(size: nat, level: nat)
    requires size > 0
    ensures LevelDimension(size, level + 1) == LevelDimension(Half(size), level)
  {
    DivideTwice(size, Pow2(level));
    if size == 1 { OneShifted(level); }
  }

  lemma OneShifted(level: nat)
    ensures 1 / Pow2(level) <= 1 && 0 / Pow2(level) == 0
  {
    if level == 0 {
    } else {
      assert Pow2(level) > 1;
      DivUnique(1, Pow2(level), 0, 1);
    }
    DivUnique(0, Pow2(level), 0, 0);
  }

  function SumOfLevels(g: Geometry, width: nat, height: nat, n: nat): nat
    requires g.edge > 0
  {
    if n == 0 then 0
    else SumOfLevels(g, width, height, n - 1)
         + TextureLevel(g, LevelDimension(width, n - 1), LevelDimension(height, n - 1))
  }

  lemma {:induction false} SumStep(g: Geometry, width: nat, height: nat, n: nat)
    requires g.edge > 0 && width > 0 && height > 0
    ensures SumOfLevels(g, width, height, n + 1)
         == TextureLevel(g, width, height) + SumOfLevels(g, Half(width), Half(height), n)
    decreases n
  {
    hide TextureLevel, LevelDimension, Half;
    if n == 0 {
      BaseDimension(width);
      BaseDimension(height);
    } else {
      SumStep(g, width, height, n - 1);
      DimensionStep(width, n - 1);
      DimensionStep(height, n - 1);
    }
  }

  lemma BaseDimension(size: nat)
    requires size > 0
    ensures LevelDimension(size, 0) == size
  {
  }

  /** Shift-and-clamp over the counted levels gives the iterated-halving sum. */
  lemma {:induction false} ShiftedSumIsChain(g: Geometry, width: nat, height: nat)
    requires g.edge > 0 && width > 0 && height > 0
    ensures SumOfLevels(g, width, height, Levels(width, height)) == TextureChain(g, width, height)
    decreases width + height
  {
    hide TextureLevel, LevelDimension;
    SumStep(g, width, height, Levels(width, height) - 1);
    if width != 1 || height != 1 { ShiftedSumIsChain(g, Half(width), Half(height)); }
  }

  method ChainBytes(g: Geometry, width: nat, height: nat) returns (total: nat)
    requires g.edge > 0 && width > 0 && height > 0
    ensures total == TextureChain(g, width, height)
  {
    hide TextureLevel, LevelDimension;
    total := 0;
    var levels := MaxMipLevels(width, height);
    for level := 0 to levels
      invariant total == SumOfLevels(g, width, height, level)
    {
      total := total + TextureLevel(g, LevelDimension(width, level), LevelDimension(height, level));
    }
    ShiftedSumIsChain(g, width, height);
  }

  // ---- the two agree

  lemma SquareOfBlocks(a: nat, b: nat)
    ensures (a * 4) * (b * 4) == 16 * (a * b)
  {
  }

  /** What the tables say of a format both files know. */
  lemma FormatsMatch(major: nat, format: nat)
    requires (major == 3 || major == 4) && GeometryFor(major, format).Some?
    ensures LookupWire(major, format).Some?
    ensures var g, d := GeometryFor(major, format).value, LookupWire(major, format).value;
            && Format(d) && d.compressed == g.compressed
            && (g.compressed ==> g.edge == 4 && d.block == 4 && d.element == 1 && g.bytes * Pow2(d.shift) == 16)
            && (!g.compressed ==> g.edge == 1 && d.block == 1 && d.shift == 0 && g.bytes == d.element)
  {
    assert Pow2(1) == 2;
  }

  lemma LevelsAgree(major: nat, format: nat, width: nat, height: nat)
    requires (major == 3 || major == 4) && GeometryFor(major, format).Some?
    ensures LookupWire(major, format).Some? && Format(LookupWire(major, format).value)
    ensures LevelValue(LookupWire(major, format).value, width, height)
         == TextureLevel(GeometryFor(major, format).value, width, height)
  {
    hide GeometryFor, LookupWire;
    FormatsMatch(major, format);
    var g, d := GeometryFor(major, format).value, LookupWire(major, format).value;
    assert Pow2(1) == 2;
    if g.compressed {
      var a, b := (width + 3) / 4, (height + 3) / 4;
      SquareOfBlocks(a, b);
      assert d.shift == 0 ==> a * b * 16 == 16 * (a * b);
      assert d.shift == 1 ==> 16 * (a * b) / 2 == a * b * 8;
    }
  }

  /** Every dimension of the wire format is far from the 64-bit limit. */
  lemma WireIsRepresentable(d: Descriptor, width: nat, height: nat)
    requires Format(d) && 0 < width <= MAX_WIRE && 0 < height <= MAX_WIRE
    ensures Representable(d, width, height)
  {
    hide Padded;
    PaddedBounds(width, d.block);
    PaddedBounds(height, d.block);
    var pw, ph := Padded(width, d.block), Padded(height, d.block);
    MulMonotone(pw, 65538, ph);
    MulMonotone(ph, 65538, 65538);
    assert 65538 * ph == ph * 65538;
    MulMonotone(d.element, 4, pw * ph);
    assert d.element * (pw * ph) == pw * ph * d.element;
  }

  lemma {:induction false} ChainsAgree(major: nat, format: nat, width: nat, height: nat)
    requires (major == 3 || major == 4) && GeometryFor(major, format).Some? && width > 0 && height > 0
    ensures LookupWire(major, format).Some? && Format(LookupWire(major, format).value)
    ensures GeometryFor(major, format).value.edge > 0
    ensures ImageChain(LookupWire(major, format).value, width, height)
         == TextureChain(GeometryFor(major, format).value, width, height)
    decreases width + height
  {
    hide GeometryFor, LookupWire, LevelValue, TextureLevel;
    FormatsMatch(major, format);
    LevelsAgree(major, format, width, height);
    if width != 1 || height != 1 { ChainsAgree(major, format, Half(width), Half(height)); }
  }

  /** Every raw body the prober exposes has the size the writer requires of a base level. */
  lemma ProbedBaseConverts(major: nat, format: nat, width: nat, height: nat)
    requires (major == 3 || major == 4) && GeometryFor(major, format).Some?
    requires 0 < width <= MAX_WIRE && 0 < height <= MAX_WIRE
    ensures LookupWire(major, format).Some? && Format(LookupWire(major, format).value)
    ensures ImageLevel(LookupWire(major, format).value, width, height)
         == Some(TextureLevel(GeometryFor(major, format).value, width, height))
  {
    hide GeometryFor, LookupWire, LevelValue, TextureLevel, Representable;
    LevelsAgree(major, format, width, height);
    WireIsRepresentable(LookupWire(major, format).value, width, height);
    LevelIsRepresentable(LookupWire(major, format).value, width, height);
  }

  /** For every format both files know, the writer's chain check answers yes for exactly the prober's chain size. */
  method CheckProbedChain(major: nat, format: nat, width: nat, height: nat, total: nat) returns (matches: bool)
    requires (major == 3 || major == 4) && GeometryFor(major, format).Some?
    requires 0 < width <= MAX_WIRE && 0 < height <= MAX_WIRE
    ensures GeometryFor(major, format).value.edge > 0
    ensures matches <==> total == TextureChain(GeometryFor(major, format).value, width, height)
  {
    hide GeometryFor, LookupWire, LevelValue, TextureLevel, Representable;
    ChainsAgree(major, format, width, height);
    var d := LookupWire(major, format).value;
    WireIsRepresentable(d, width, height);
    var r := ChainMatches(width, height, d, true, total);
    matches := r.value;
  }
}
