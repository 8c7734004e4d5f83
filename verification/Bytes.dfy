/** Bytes, failure and little-endian fields: the vocabulary every reader below shares. */
module Bytes {

  type byte = x: int | 0 <= x < 256

  /** A value, or the exception the source throws in its place. */
  datatype Option<+T> = None | Some(value: T)

  function Min(a: int, b: int): (m: int)
  {
    if a < b then a else b
  }

  function Max(a: int, b: int): (m: int)
  {
    if a < b then b else a
  }

  /** The little-endian 32-bit field at `at`. */
  function U32(s: seq<byte>, at: nat): (v: int)
    requires at + 4 <= |s|
    ensures 0 <= v < 0x1_0000_0000
  {
    s[at] as int + 0x100 * s[at + 1] as int + 0x1_0000 * s[at + 2] as int + 0x100_0000 * s[at + 3] as int
  }

  /** The little-endian 64-bit field at `at`. */
  function U64(s: seq<byte>, at: nat): (v: int)
    requires at + 8 <= |s|
    ensures 0 <= v < 0x1_0000_0000_0000_0000
  {
    U32(s, at) + 0x1_0000_0000 * U32(s, at + 4)
  }

  function Pow2(n: nat): (p: nat)
    ensures p > 0
  {
    if n == 0 then 1 else 2 * Pow2(n - 1)
  }

  /** Exclusive or of the low `width` bits. */
  function XorBits(a: nat, b: nat, width: nat): (r: nat)
    ensures r < Pow2(width)
    decreases width
  {
    if width == 0 then 0 else (a % 2 + b % 2) % 2 + 2 * XorBits(a / 2, b / 2, width - 1)
  }

  lemma BitTwice(p: nat, q: nat, x: nat)
    requires p < 2 && q < 2
    ensures var r := (p + q) % 2 + 2 * x;
            (r % 2 + q) % 2 == p && r / 2 == x
  {
  }

  lemma {:induction false} XorBitsTwice(a: nat, b: nat, width: nat)
    requires a < Pow2(width)
    ensures XorBits(XorBits(a, b, width), b, width) == a
    decreases width
  {
    hide XorBits;
    XorStep(a, b, width);
    if width > 0 {
      var x := XorBits(a / 2, b / 2, width - 1);
      XorStep((a % 2 + b % 2) % 2 + 2 * x, b, width);
      BitTwice(a % 2, b % 2, x);
      XorBitsTwice(a / 2, b / 2, width - 1);
    }
  }

  lemma XorStep(a: nat, b: nat, width: nat)
    ensures XorBits(a, b, width) == if width == 0 then 0 else (a % 2 + b % 2) % 2 + 2 * XorBits(a / 2, b / 2, width - 1)
  {
  }

  lemma ByteSpan()
    ensures Pow2(8) == 256
  {
    assert Pow2(4) == 16;
    assert Pow2(6) == 64;
  }

  function Xor(a: byte, b: byte): byte
  {
    ByteSpan();
    XorBits(a, b, 8)
  }

  lemma PowersApart(x: nat, r: nat, n: nat)
    requires r < 2 && n > 0
    ensures (r + 2 * x) / Pow2(n) == x / Pow2(n - 1)
  {
    var p := Pow2(n - 1);
    var q := x / p;
    assert x == p * q + x % p;
    assert Pow2(n) * q == 2 * (p * q);
    DivUnique(r + 2 * x, Pow2(n), q, r + 2 * (x % p));
  }

  /** Bit `i` of the exclusive or is set exactly when it is set in one of the two. */
  lemma {:induction false} XorBitAt(a: nat, b: nat, width: nat, i: nat)
    requires i < width
    ensures XorBits(a, b, width) / Pow2(i) % 2 == 1 <==> a / Pow2(i) % 2 != b / Pow2(i) % 2
    decreases width
  {
    if i > 0 {
      XorBitAt(a / 2, b / 2, width - 1, i - 1);
      PowersApart(XorBits(a / 2, b / 2, width - 1), (a % 2 + b % 2) % 2, i);
      PowersApart(a / 2, a % 2, i);
      PowersApart(b / 2, b % 2, i);
    }
  }

  lemma XorBit(a: byte, b: byte, i: nat)
    requires i < 8
    ensures Xor(a, b) / Pow2(i) % 2 == 1 <==> a / Pow2(i) % 2 != b / Pow2(i) % 2
  {
    XorBitAt(a, b, 8, i);
  }

  lemma XorTwice(a: byte, k: byte)
    ensures Xor(Xor(a, k), k) == a
  {
    ByteSpan();
    XorBitsTwice(a, k, 8);
  }

  lemma SliceOfSlice<T>(s: seq<T>, from: nat, to: nat, i: nat, j: nat)
    requires from <= to <= |s| && i <= j <= to - from
    ensures s[from..to][i..j] == s[from + i..from + j]
  {
    var inner := s[from..to];
    assert forall k | i <= k < j :: inner[i..j][k - i] == inner[k] == s[from + k];
  }

  lemma SliceOfTake<T>(s: seq<T>, size: nat, i: nat, j: nat)
    requires i <= j <= size <= |s|
    ensures s[..size][i..j] == s[i..j]
  {
  }

  lemma SliceOfWindow<T>(s: seq<T>, at: nat, size: nat, i: nat, j: nat)
    requires i <= j <= size && at + size <= |s|
    ensures s[at..][..size][i..j] == s[at + i..at + j]
  {
  }

  /** The low `count` bytes of a value, least significant first. */
  function LittleEndian(value: nat, count: nat): (r: seq<byte>)
    ensures |r| == count
    decreases count
  {
    if count == 0 then [] else [value % 256] + LittleEndian(value / 256, count - 1)
  }

  lemma LittleEndian4(value: nat)
    ensures LittleEndian(value, 4)
         == [value % 0x100, value / 0x100 % 0x100, value / 0x1_0000 % 0x100, value / 0x100_0000 % 0x100]
  {
    var (a, b, c) := (value / 0x100, value / 0x1_0000, value / 0x100_0000);
    assert a / 0x100 == b && b / 0x100 == c;
    assert LittleEndian(c, 1) == [c % 0x100] + LittleEndian(c / 0x100, 0);
    assert LittleEndian(b, 2) == [b % 0x100] + LittleEndian(c, 1);
    assert LittleEndian(a, 3) == [a % 0x100] + LittleEndian(b, 2);
    assert LittleEndian(value, 4) == [value % 0x100] + LittleEndian(a, 3);
  }

  lemma Digits256(value: nat)
    requires value < 0x1_0000_0000
    ensures value == value % 0x100 + 0x100 * (value / 0x100 % 0x100) + 0x1_0000 * (value / 0x1_0000 % 0x100)
                     + 0x100_0000 * (value / 0x100_0000 % 0x100)
  {
    var (a, b, c) := (value / 0x100, value / 0x1_0000, value / 0x100_0000);
    assert a / 0x100 == b && b / 0x100 == c;
    assert value == value % 0x100 + 0x100 * a && a == a % 0x100 + 0x100 * b && b == b % 0x100 + 0x100 * c;
  }

  /** A field reads back what was written to it. */
  lemma U32OfBytes(s: seq<byte>, at: nat, value: nat)
    requires at + 4 <= |s| && value < 0x1_0000_0000 && s[at..at + 4] == LittleEndian(value, 4)
    ensures U32(s, at) == value
  {
    var e := s[at..at + 4];
    LittleEndian4(value);
    Digits256(value);
    assert e[0] == s[at] && e[1] == s[at + 1] && e[2] == s[at + 2] && e[3] == s[at + 3];
  }

  /** Any four bytes are the bytes of the word they make. */
  lemma BytesOfU32(s: seq<byte>)
    requires |s| == 4
    ensures LittleEndian(U32(s, 0), 4) == s
  {
    var v := U32(s, 0);
    LittleEndian4(v);
    var (a, b) := (s[1] as int + 0x100 * (s[2] as int + 0x100 * s[3] as int), s[2] as int + 0x100 * s[3] as int);
    assert v == s[0] as int + 0x100 * a && a == s[1] as int + 0x100 * b;
    assert v / 0x100 == a && a / 0x100 == b && b / 0x100 == s[3] as int;
    assert v / 0x1_0000 == b && v / 0x100_0000 == s[3] as int;
  }

  lemma BytesOfField(s: seq<byte>, at: nat)
    requires at + 4 <= |s|
    ensures LittleEndian(U32(s, at), 4) == s[at..at + 4]
  {
    hide LittleEndian;
    BytesOfU32(s[at..at + 4]);
  }

  lemma LittleEndian8(value: nat)
    ensures LittleEndian(value, 8) == LittleEndian(value, 4) + LittleEndian(value / 0x1_0000_0000, 4)
  {
    LittleEndianSplit(value, 4, 4);
    assert value / 0x100 / 0x100 / 0x100 / 0x100 == value / 0x1_0000_0000;
  }

  function Shift(value: nat, count: nat): nat
    decreases count
  {
    if count == 0 then value else Shift(value / 256, count - 1)
  }

  lemma {:induction false} LittleEndianSplit(value: nat, low: nat, high: nat)
    ensures LittleEndian(value, low + high) == LittleEndian(value, low) + LittleEndian(Shift(value, low), high)
    decreases low
  {
    if low > 0 { LittleEndianSplit(value / 256, low - 1, high); }
  }

  lemma U64OfBytes(s: seq<byte>, at: nat, value: nat)
    requires at + 8 <= |s| && value < 0x1_0000_0000_0000_0000 && s[at..at + 8] == LittleEndian(value, 8)
    ensures U64(s, at) == value
  {
    var low, high := value % 0x1_0000_0000, value / 0x1_0000_0000;
    LittleEndian8(value);
    LowBytes(value);
    assert s[at..at + 4] == s[at..at + 8][..4] && s[at + 4..at + 8] == s[at..at + 8][4..];
    U32OfBytes(s, at, low);
    U32OfBytes(s, at + 4, high);
  }

  lemma LowBytes(value: nat)
    ensures LittleEndian(value, 4) == LittleEndian(value % 0x1_0000_0000, 4)
  {
    hide LittleEndian;
    var r, q := value % 0x1_0000_0000, value / 0x1_0000_0000;
    LittleEndian4(value);
    LittleEndian4(r);
    assert value == r + 0x1_0000_0000 * q;
    AddMultiple(r, 0x100, 0x100_0000 * q);
    AddMultiple(r, 0x1_0000, 0x1_0000 * q);
    AddMultiple(r, 0x100_0000, 0x100 * q);
    LowDigit(r, 0x100_0000 * q);
    LowDigit(r / 0x100, 0x1_0000 * q);
    LowDigit(r / 0x1_0000, 0x100 * q);
    LowDigit(r / 0x100_0000, q);
  }

  lemma AddMultiple(r: nat, d: nat, k: nat)
    requires d > 0
    ensures (r + d * k) / d == r / d + k
  {
    assert r + d * k == d * (r / d + k) + r % d;
    DivUnique(r + d * k, d, r / d + k, r % d);
  }

  lemma DivUnique(a: nat, d: nat, q: nat, r: nat)
    requires d > 0 && r < d && a == d * q + r
    ensures a / d == q
  {
    if a / d < q { MulMonotone(a / d + 1, q, d); }
    if a / d > q { MulMonotone(q + 1, a / d, d); }
  }

  lemma MulMonotone(a: nat, b: nat, d: nat)
    requires a <= b
    ensures a * d <= b * d
  {
  }

  lemma LowDigit(r: nat, k: nat)
    ensures (r + 0x100 * k) % 0x100 == r % 0x100
  {
  }

  // ---- numbers of any width

  const SPAN32 := 0x1_0000_0000
  const SPAN64 := 0x1_0000_0000_0000_0000
  const MAX64 := 0x8000_0000_0000_0000

  function Unsigned(bytes: seq<byte>): nat
  {
    if bytes == [] then 0 else bytes[0] as int + 256 * Unsigned(bytes[1..])
  }

  function Reversed(bytes: seq<byte>): (r: seq<byte>)
    ensures |r| == |bytes|
  {
    seq(|bytes|, i requires 0 <= i < |bytes| => bytes[|bytes| - 1 - i])
  }

  function Pow256(n: nat): (p: nat)
    ensures p > 0
  {
    if n == 0 then 1 else 256 * Pow256(n - 1)
  }

  /** The low bytes of a value, most significant first. */
  function BigEndian(value: nat, width: nat): (r: seq<byte>)
    ensures |r| == width
  {
    if width == 0 then [] else BigEndian(value / 256, width - 1) + [value % 256]
  }

  lemma {:induction false} UnsignedOfBytes(value: nat, count: nat)
    requires value < Pow256(count)
    ensures Unsigned(LittleEndian(value, count)) == value
    decreases count
  {
    if count > 0 {
      UnsignedOfBytes(value / 256, count - 1);
      assert LittleEndian(value, count)[1..] == LittleEndian(value / 256, count - 1);
    }
  }

  lemma {:induction false} UnsignedOfReversed(value: nat, width: nat)
    requires value < Pow256(width)
    ensures Unsigned(Reversed(BigEndian(value, width))) == value
    decreases width
  {
    if width > 0 {
      UnsignedOfReversed(value / 256, width - 1);
      var high := BigEndian(value / 256, width - 1);
      assert Reversed(high + [value % 256])[1..] == Reversed(high);
    }
  }

  /** A 64-bit pattern read as a signed integer. */
  function Signed64(bits: nat): int
  {
    if bits >= MAX64 then bits - SPAN64 else bits
  }

  function Signed32(bits: nat): int
  {
    if bits >= 0x8000_0000 then bits - SPAN32 else bits
  }
}
