/** Writing an RSCC stream from packed blocks, and what both of its readers then make of it. */
module RsccPack {
  import opened Bytes
  import FastLz
  import FastLzChecker
  import FastLzPack
  import Rscc

  /** A stored block and the logical bytes it stands for. */
  datatype Part = Part(block: seq<byte>, plain: seq<byte>)

  /** The block is packed from items that mean the plain bytes, padded to what the codec encodes at least. */
  ghost predicate PackedAs(part: Part, level: nat, items: seq<FastLzPack.Item>, out: seq<byte>)
  {
    && FastLzPack.Packable(level, items) && FastLzPack.Means(items, out, 0)
    && !FastLzPack.FarItem(level, items[|items| - 1])
    && part.block == FastLzPack.Pack(level, items)
    && |out| == FastLz.Padded(|part.plain|) && part.plain <= out
  }

  ghost predicate Packed(part: Part)
  {
    exists level, items, out :: PackedAs(part, level, items, out)
  }

  /** Every block is full but the last, which is shorter and may be empty. */
  predicate Parted(blockSize: nat, parts: seq<Part>)
  {
    && parts != [] && |parts[|parts| - 1].plain| < blockSize
    && forall k :: 0 <= k < |parts| - 1 ==> |parts[k].plain| == blockSize
  }

  function Table(parts: seq<Part>): (r: seq<byte>)
    ensures |r| == 4 * |parts|
  {
    if parts == [] then [] else LittleEndian(|parts[0].block|, 4) + Table(parts[1..])
  }

  function Stored(parts: seq<Part>): seq<byte>
  {
    if parts == [] then [] else parts[0].block + Stored(parts[1..])
  }

  function Plain(parts: seq<Part>): seq<byte>
  {
    if parts == [] then [] else parts[0].plain + Plain(parts[1..])
  }

  const RSCC: seq<byte> := [0x52, 0x53, 0x43, 0x43]

  /** Magic, mode, block size, logical size, the sizes of the stored blocks, the blocks, and the magic again. */
  function Pack(blockSize: nat, parts: seq<Part>): (r: seq<byte>)
    ensures |r| == 20 + 4 * |parts| + |Stored(parts)|
  {
    RSCC + LittleEndian(0, 4) + LittleEndian(blockSize, 4) + LittleEndian(|Plain(parts)|, 4) + Table(parts) + Stored(parts) + RSCC
  }

  /** What the limits demand. */
  predicate Within(blockSize: nat, parts: seq<Part>, limits: Rscc.Limits)
  {
    && blockSize < SPAN32 && |Plain(parts)| < SPAN32 && |Pack(blockSize, parts)| <= limits.maxInput
    && |Plain(parts)| <= limits.maxOutput && |parts| <= limits.maxBlocks
    && forall k :: 0 <= k < |parts| ==>
         && |parts[k].block| <= limits.maxBlock && |parts[k].block| < SPAN32
         && |parts[k].block| <= Min(limits.maxOutput, Rscc.INT_MAX) && |parts[k].plain| <= Min(limits.maxOutput, Rscc.INT_MAX)
  }

  // ---- the header

  lemma {:induction false} PlainLength(blockSize: nat, parts: seq<Part>)
    requires Parted(blockSize, parts)
    ensures |Plain(parts)| == (|parts| - 1) * blockSize + |parts[|parts| - 1].plain|
    decreases |parts|
  {
    if |parts| > 1 {
      PlainLength(blockSize, parts[1..]);
      assert (|parts| - 1) * blockSize == blockSize + (|parts| - 2) * blockSize;
    } else {
      assert Plain(parts[1..]) == [];
    }
  }

  lemma CountOfParts(blockSize: nat, parts: seq<Part>)
    requires Parted(blockSize, parts)
    ensures var h := Rscc.Header(blockSize, |Plain(parts)|);
            h.Valid() && h.Count() == |parts| && forall k: nat :: k < |parts| ==> h.LogicalBytes(k) == |parts[k].plain|
  {
    hide Plain;
    PlainLength(blockSize, parts);
    var n, last := |parts| - 1, |parts[|parts| - 1].plain|;
    QuotientAndRest(n, last, blockSize);
    assert |Plain(parts)| / blockSize == n && |Plain(parts)| % blockSize == last;
  }

  lemma QuotientAndRest(q: nat, r: nat, d: nat)
    requires r < d
    ensures (q * d + r) / d == q && (q * d + r) % d == r
  {
    assert d * q == q * d;
    DivUnique(q * d + r, d, q, r);
  }

  /** The header and the table of a packed stream. */
  lemma HeaderReads(blockSize: nat, parts: seq<Part>, limits: Rscc.Limits)
    requires Parted(blockSize, parts) && Within(blockSize, parts, limits)
    ensures Rscc.ParseHeader(Pack(blockSize, parts), limits) == Some(Rscc.Header(blockSize, |Plain(parts)|))
  {
    hide LittleEndian, Plain, Stored, Table, Parted, Rscc.Header.Count;
    var s := Pack(blockSize, parts);
    CountOfParts(blockSize, parts);
    assert s[..4] == RSCC && s[|s| - 4..] == RSCC;
    assert s[4..8] == LittleEndian(0, 4) && s[8..12] == LittleEndian(blockSize, 4) && s[12..16] == LittleEndian(|Plain(parts)|, 4);
    U32OfBytes(s, 4, 0);
    U32OfBytes(s, 8, blockSize);
    U32OfBytes(s, 12, |Plain(parts)|);
  }

  // ---- the table and the blocks

  lemma {:induction false} TableAt(parts: seq<Part>, k: nat)
    requires k < |parts|
    ensures Table(parts)[4 * k..4 * k + 4] == LittleEndian(|parts[k].block|, 4)
    decreases k
  {
    hide LittleEndian;
    var head, rest := LittleEndian(|parts[0].block|, 4), Table(parts[1..]);
    if k > 0 {
      TableAt(parts[1..], k - 1);
      assert (head + rest)[4 * k..4 * k + 4] == rest[4 * (k - 1)..4 * (k - 1) + 4];
    } else {
      assert (head + rest)[..4] == head;
    }
  }

  lemma EntryReads(blockSize: nat, parts: seq<Part>, k: nat)
    requires k < |parts| && |parts[k].block| < SPAN32
    ensures Rscc.Entry(Pack(blockSize, parts), k) == |parts[k].block|
  {
    hide LittleEndian, Plain, Stored, Table;
    var s := Pack(blockSize, parts);
    TableAt(parts, k);
    assert s[16..16 + 4 * |parts|] == Table(parts);
    SliceOfSlice(s, 16, 16 + 4 * |parts|, 4 * k, 4 * k + 4);
    U32OfBytes(s, 16 + 4 * k, |parts[k].block|);
  }

  /** How far into the stored blocks block `k` starts. */
  function Before(parts: seq<Part>, k: nat): nat
    requires k <= |parts|
  {
    if k == 0 then 0 else |parts[0].block| + Before(parts[1..], k - 1)
  }

  lemma {:induction false} StoredAt(parts: seq<Part>, k: nat)
    requires k < |parts|
    ensures Before(parts, k + 1) == Before(parts, k) + |parts[k].block| <= |Stored(parts)|
    ensures Stored(parts)[Before(parts, k)..Before(parts, k + 1)] == parts[k].block
    decreases k
  {
    var head, rest := parts[0].block, Stored(parts[1..]);
    if k > 0 {
      StoredAt(parts[1..], k - 1);
      var (at, end) := (Before(parts[1..], k - 1), Before(parts[1..], k));
      assert (head + rest)[|head| + at..|head| + end] == rest[at..end];
    } else {
      assert Before(parts[1..], 0) == 0;
      assert (head + rest)[..|head|] == head;
    }
  }

  lemma {:induction false} AllStored(parts: seq<Part>)
    ensures Before(parts, |parts|) == |Stored(parts)|
  {
    if parts != [] { AllStored(parts[1..]); }
  }

  lemma BlockReads(blockSize: nat, parts: seq<Part>, k: nat)
    requires k < |parts|
    ensures var (s, at) := (Pack(blockSize, parts), 16 + 4 * |parts| + Before(parts, k));
            at + |parts[k].block| <= |s| - 4 && s[at..at + |parts[k].block|] == parts[k].block
  {
    hide LittleEndian, Plain, Stored, Table, Before;
    var s, from := Pack(blockSize, parts), 16 + 4 * |parts|;
    StoredAt(parts, k);
    assert s[from..from + |Stored(parts)|] == Stored(parts);
    SliceOfSlice(s, from, from + |Stored(parts)|, Before(parts, k), Before(parts, k + 1));
  }

  lemma PackedDecompresses(part: Part, maxOutput: nat)
    requires Packed(part) && |part.block| <= Min(maxOutput, Rscc.INT_MAX) && |part.plain| <= Min(maxOutput, Rscc.INT_MAX)
    ensures Rscc.DecompressBlock(part.block, |part.plain|, maxOutput) == Some(part.plain)
  {
    hide FastLzPack.Packable, FastLzPack.Means, FastLzPack.FarItem, FastLzPack.Pack, FastLzChecker.Passes, FastLz.Decode;
    var level, items, out :| PackedAs(part, level, items, out);
    FastLzPack.PackedDecodes(level, items, out);
    FastLzPack.PackedPasses(level, items, out);
    FastLzPack.PackParts(level, items, 0);
    var padded := FastLz.Padded(|part.plain|);
    assert FastLzChecker.Passes(FastLzChecker.Walk(part.block), padded);
    assert FastLz.Decode(part.block, padded) == FastLz.Whole(out);
    assert out[..|part.plain|] == part.plain;
    assert |part.block| > 0;
  }

  lemma PlainTail(parts: seq<Part>, k: nat)
    requires k < |parts|
    ensures Plain(parts[k..]) == parts[k].plain + Plain(parts[k + 1..])
  {
    assert parts[k..][0] == parts[k] && parts[k..][1..] == parts[k + 1..];
  }

  /** From any block on, the decode goes on to the end of what the parts stand for. */
  lemma {:induction false} PartsDecompress(blockSize: nat, parts: seq<Part>, limits: Rscc.Limits, k: nat)
    requires Parted(blockSize, parts) && Within(blockSize, parts, limits) && (forall p :: p in parts ==> Packed(p)) && k <= |parts|
    ensures var (s, h) := (Pack(blockSize, parts), Rscc.Header(blockSize, |Plain(parts)|));
            && h.Valid() && h.Count() == |parts| && 16 + 4 * |parts| + Before(parts, k) <= |s| - 4
            && Rscc.DecompressFrom(s, h, limits, k, 16 + 4 * |parts| + Before(parts, k)) == Some(Plain(parts[k..]))
    decreases |parts| - k
  {
    hide Pack, Parted, Plain, Stored, Before, Packed, Rscc.DecompressBlock, Rscc.DecompressFrom, Rscc.Entry, Rscc.Header.Count,
      Rscc.Header.LogicalBytes;
    var (s, h) := (Pack(blockSize, parts), Rscc.Header(blockSize, |Plain(parts)|));
    CountOfParts(blockSize, parts);
    if k == |parts| {
      AllStored(parts);
      NothingLeft(s, h, limits, |parts|);
      assert parts[k..] == [] && Plain([]) == [] by { NoPlain(); }
    } else {
      var at := 16 + 4 * |parts| + Before(parts, k);
      BlockReads(blockSize, parts, k);
      EntryReads(blockSize, parts, k);
      StoredAt(parts, k);
      PartsDecompress(blockSize, parts, limits, k + 1);
      PackedDecompresses(parts[k], limits.maxOutput);
      Rscc.DecompressStep(s, h, limits, k, at, Some(parts[k].plain));
      PlainTail(parts, k);
    }
  }

  lemma NoPlain()
    ensures Plain([]) == []
  {
  }

  lemma NothingLeft(s: seq<byte>, h: Rscc.Header, limits: Rscc.Limits, n: nat)
    requires h.Valid() && h.Count() == n && 16 + 4 * n <= |s| - 4
    ensures Rscc.DecompressFrom(s, h, limits, n, |s| - 4) == Some([])
  {
  }

  /** A packed stream decompresses to the logical bytes of its parts. */
  lemma PackedStreamDecompresses(blockSize: nat, parts: seq<Part>, limits: Rscc.Limits)
    requires Parted(blockSize, parts) && Within(blockSize, parts, limits) && forall p :: p in parts ==> Packed(p)
    ensures Rscc.Decompress(Pack(blockSize, parts), limits) == Some(Plain(parts))
  {
    hide Pack, Parted, Within, Plain, Packed, Rscc.DecompressFrom, Rscc.Header.Count, Rscc.ParseHeader;
    HeaderReads(blockSize, parts, limits);
    CountOfParts(blockSize, parts);
    PartsDecompress(blockSize, parts, limits, 0);
    assert parts[0..] == parts;
  }

  /** Every in-range random read of a packed stream whose blocks the reader admits is that slice of the logical bytes. */
  lemma PackedStreamReads(blockSize: nat, parts: seq<Part>, limits: Rscc.Limits, offset: nat, count: nat)
    requires Parted(blockSize, parts) && Within(blockSize, parts, limits) && forall p :: p in parts ==> Packed(p)
    requires |parts[0].plain| <= limits.maxBlock && offset + count <= |Plain(parts)|
    ensures var (s, h) := (Pack(blockSize, parts), Rscc.Header(blockSize, |Plain(parts)|));
            && Rscc.ParseHeader(s, limits) == Some(h) && Rscc.Laid(s, h)
            && Rscc.ReadSpec(s, h, limits, offset, count) == Some(Plain(parts)[offset..offset + count])
  {
    hide Pack, Within, Plain, Packed, Rscc.DecompressFrom, Rscc.Header.Count, Rscc.Header.LogicalBytes, Rscc.ParseHeader, Rscc.Laid,
      Rscc.Decompress, Rscc.ReadSpec;
    HeaderReads(blockSize, parts, limits);
    CountOfParts(blockSize, parts);
    PackedStreamDecompresses(blockSize, parts, limits);
    Rscc.RandomAccessAgrees(Pack(blockSize, parts), limits, Rscc.Header(blockSize, |Plain(parts)|), Plain(parts));
  }

  // ---- every accepted stream is a packed one

  /** What a block of an accepted stream is packed from. */
  lemma DecompressedIsPacked(block: seq<byte>, plain: seq<byte>, maxOutput: nat)
    requires Rscc.DecompressBlock(block, |plain|, maxOutput) == Some(plain)
    ensures Packed(Part(block, plain))
    ensures |block| <= Min(maxOutput, Rscc.INT_MAX) && |plain| <= Min(maxOutput, Rscc.INT_MAX)
  {
    hide FastLz.Decode, FastLzChecker.Passes, FastLzChecker.Walk, FastLzPack.Packable, FastLzPack.Means, FastLzPack.Pack, FastLzPack.FarItem;
    var out := FastLz.Decode(block, FastLz.Padded(|plain|)).out;
    WholeSize(block, FastLz.Padded(|plain|));
    FastLzPack.WholeIsPacked(block, out);
    var level, items :| FastLzPack.PackedFrom(block, out, level, items);
    FastLzPack.PackedPasses(level, items, out);
    assert PackedAs(Part(block, plain), level, items, out);
  }

  lemma WholeSize(block: seq<byte>, padded: nat)
    ensures FastLz.Decode(block, padded).Whole? ==> |FastLz.Decode(block, padded).out| == padded
  {
  }

  /** The parts an accepted stream is made of. */
  function PartsOf(s: seq<byte>, h: Rscc.Header, output: seq<byte>): (parts: seq<Part>)
    requires Rscc.Laid(s, h) && |output| == h.total
    ensures |parts| == h.Count()
    ensures forall k: nat :: k < |parts| ==>
              Rscc.LogicalStart(h, k) + h.LogicalBytes(k) <= |output|
              && parts[k] == Part(Rscc.Block(s, h, k), output[Rscc.LogicalStart(h, k)..Rscc.LogicalStart(h, k) + h.LogicalBytes(k)])
  {
    assert forall k: nat :: k < h.Count() ==> Rscc.LogicalStart(h, k) + h.LogicalBytes(k) <= h.total by {
      forall k: nat | k < h.Count() ensures Rscc.LogicalStart(h, k) + h.LogicalBytes(k) <= h.total { PartEnds(h, k); }
    }
    seq(h.Count(), k requires 0 <= k < h.Count() =>
      Part(Rscc.Block(s, h, k), output[Rscc.LogicalStart(h, k)..Rscc.LogicalStart(h, k) + h.LogicalBytes(k)]))
  }

  lemma PartEnds(h: Rscc.Header, k: nat)
    requires h.Valid() && k < h.Count()
    ensures Rscc.LogicalStart(h, k) + h.LogicalBytes(k) <= h.total
    ensures k + 1 < h.Count() ==> h.LogicalBytes(k) == h.blockSize && Rscc.LogicalStart(h, k + 1) == Rscc.LogicalStart(h, k) + h.LogicalBytes(k)
    ensures k + 1 == h.Count() ==> Rscc.LogicalStart(h, k) + h.LogicalBytes(k) == h.total && h.LogicalBytes(k) < h.blockSize
  {
    hide Rscc.LogicalStart, Rscc.Header.Count, Rscc.Header.LogicalBytes;
    Rscc.BlocksCoverTotal(h);
    Rscc.LogicalStartIsProduct(h, k);
    Rscc.LogicalStartIsProduct(h, h.Count() - 1);
    if k + 1 < h.Count() { MulMonotone(k + 1, h.Count() - 1, h.blockSize); }
    StartSteps(h, k);
    LastIsShort(h);
    assert (k + 1) * h.blockSize == k * h.blockSize + h.blockSize;
  }

  lemma StartSteps(h: Rscc.Header, k: nat)
    ensures Rscc.LogicalStart(h, k + 1) == Rscc.LogicalStart(h, k) + h.blockSize
  {
  }

  lemma LastIsShort(h: Rscc.Header)
    requires h.Valid()
    ensures h.LogicalBytes(h.Count() - 1) < h.blockSize
  {
  }

  lemma {:induction false} PlainIsOutput(s: seq<byte>, h: Rscc.Header, output: seq<byte>, k: nat)
    requires Rscc.Laid(s, h) && |output| == h.total && k < h.Count()
    ensures Rscc.LogicalStart(h, k) <= |output| && Plain(PartsOf(s, h, output)[k..]) == output[Rscc.LogicalStart(h, k)..]
    decreases h.Count() - k
  {
    hide Plain, Rscc.LogicalStart, Rscc.Header.Count, Rscc.Header.LogicalBytes, Rscc.Block;
    var parts, at := PartsOf(s, h, output), Rscc.LogicalStart(h, k);
    PartEnds(h, k);
    PlainTail(parts, k);
    if k + 1 < h.Count() {
      PlainIsOutput(s, h, output, k + 1);
      assert output[at..] == output[at..at + h.LogicalBytes(k)] + output[at + h.LogicalBytes(k)..];
    } else {
      assert parts[k + 1..] == [];
      NoPlain();
      assert parts[k].plain + [] == output[at..];
    }
  }

  lemma {:induction false} TableIs(t: seq<byte>, parts: seq<Part>)
    requires |t| == 4 * |parts| && forall k :: 0 <= k < |parts| ==> |parts[k].block| == U32(t, 4 * k)
    ensures Table(parts) == t
    decreases |parts|
  {
    hide LittleEndian, U32;
    if parts != [] {
      var rest := t[4..];
      forall k | 0 <= k < |parts[1..]| ensures |parts[1..][k].block| == U32(rest, 4 * k) {
        assert parts[1..][k] == parts[k + 1];
        FieldBehind(t, k);
      }
      TableIs(rest, parts[1..]);
      BytesOfField(t, 0);
      assert t == t[0..4] + rest;
    }
  }

  lemma FieldBehind(t: seq<byte>, k: nat)
    requires 4 * k + 8 <= |t|
    ensures U32(t[4..], 4 * k) == U32(t, 4 * (k + 1))
  {
  }

  lemma TableIsStored(s: seq<byte>, parts: seq<Part>)
    requires 16 + 4 * |parts| <= |s| && forall k :: 0 <= k < |parts| ==> |parts[k].block| == Rscc.Entry(s, k)
    ensures Table(parts) == s[16..16 + 4 * |parts|]
  {
    hide U32, Rscc.Entry;
    var t := s[16..16 + 4 * |parts|];
    forall k | 0 <= k < |parts| ensures |parts[k].block| == U32(t, 4 * k) { Rscc.EntryInBatch(s, 0, |parts|, k); }
    TableIs(t, parts);
  }

  lemma {:induction false} BlocksAreStored(s: seq<byte>, h: Rscc.Header, output: seq<byte>, k: nat)
    requires Rscc.Laid(s, h) && |output| == h.total && k <= h.Count()
    ensures Rscc.BlockStart(s, h.Count(), k) <= |s| - 4
    ensures Stored(PartsOf(s, h, output)[k..]) == s[Rscc.BlockStart(s, h.Count(), k)..|s| - 4]
    decreases h.Count() - k
  {
    hide Rscc.Header.Count, Rscc.Header.LogicalBytes, Rscc.LogicalStart, Stored, Rscc.Entry;
    var parts, n := PartsOf(s, h, output), h.Count();
    Rscc.BlockStartsGrow(s, n, k, n);
    var at := Rscc.BlockStart(s, n, k);
    if k == n {
      assert parts[k..] == [];
      NothingStored();
      assert s[at..|s| - 4] == [];
    } else {
      Rscc.BlockStartsGrow(s, n, k + 1, n);
      BlocksAreStored(s, h, output, k + 1);
      StoredTail(parts, k);
      assert s[at..|s| - 4] == s[at..Rscc.BlockStart(s, n, k + 1)] + s[Rscc.BlockStart(s, n, k + 1)..|s| - 4];
    }
  }

  lemma NothingStored()
    ensures Stored([]) == []
  {
  }

  lemma StoredTail(parts: seq<Part>, k: nat)
    requires k < |parts|
    ensures Stored(parts[k..]) == parts[k].block + Stored(parts[k + 1..])
  {
    assert parts[k..][0] == parts[k] && parts[k..][1..] == parts[k + 1..];
  }

  lemma BlockSize(s: seq<byte>, h: Rscc.Header, k: nat)
    requires Rscc.Laid(s, h) && k < h.Count()
    ensures |Rscc.Block(s, h, k)| == Rscc.Entry(s, k)
  {
    hide Rscc.Entry, Rscc.Header.Count;
    Rscc.BlockStartsGrow(s, h.Count(), k + 1, h.Count());
  }

  /** The bytes of an accepted stream are those of its parts. */
  lemma StreamIsPacked(s: seq<byte>, limits: Rscc.Limits, h: Rscc.Header, output: seq<byte>)
    requires Rscc.ParseHeader(s, limits) == Some(h) && Rscc.Laid(s, h) && |output| == h.total
    requires Plain(PartsOf(s, h, output)) == output
    ensures Pack(h.blockSize, PartsOf(s, h, output)) == s
  {
    hide LittleEndian, Plain, Stored, Table, Rscc.Block, Rscc.Entry, Rscc.Header.LogicalBytes, Rscc.LogicalStart, Rscc.Header.Count;
    var parts, n := PartsOf(s, h, output), h.Count();
    forall k | 0 <= k < n ensures |parts[k].block| == Rscc.Entry(s, k) { BlockSize(s, h, k); }
    TableIsStored(s, parts);
    BlocksAreStored(s, h, output, 0);
    assert parts[0..] == parts;
    BytesOfField(s, 4);
    BytesOfField(s, 8);
    BytesOfField(s, 12);
    SevenParts(s, 16 + 4 * n, |s| - 4);
  }

  lemma SevenParts(s: seq<byte>, a: nat, b: nat)
    requires 16 <= a <= b <= |s|
    ensures s == s[..4] + s[4..8] + s[8..12] + s[12..16] + s[16..a] + s[a..b] + s[b..]
  {
    assert s[..8] == s[..4] + s[4..8] && s[..12] == s[..8] + s[8..12] && s[..16] == s[..12] + s[12..16];
    assert s[..a] == s[..16] + s[16..a] && s[..b] == s[..a] + s[a..b];
  }

  /** Every stream that decompresses is packed, within the limits, from blocks that stand for its output. */
  lemma AcceptedIsPacked(s: seq<byte>, limits: Rscc.Limits, output: seq<byte>) returns (blockSize: nat, parts: seq<Part>)
    requires Rscc.Decompress(s, limits) == Some(output)
    ensures Parted(blockSize, parts) && Within(blockSize, parts, limits) && forall p :: p in parts ==> Packed(p)
    ensures s == Pack(blockSize, parts) && output == Plain(parts)
  {
    hide Rscc.ParseHeader, Rscc.DecompressFrom, Rscc.DecompressBlock, Rscc.Laid, Rscc.Header.Count, Rscc.Header.LogicalBytes, Rscc.LogicalStart,
      Rscc.Block, Packed, Plain, Pack, Rscc.ReadSpec, Rscc.Entry;
    var h := Rscc.ParseHeader(s, limits).value;
    HeaderFits(s, limits);
    Rscc.RandomAccessAgrees(s, limits, h, output);
    blockSize, parts := h.blockSize, PartsOf(s, h, output);
    forall k: nat | k < h.Count()
      ensures Packed(parts[k]) && |parts[k].block| <= limits.maxBlock && |parts[k].block| < SPAN32
      ensures |parts[k].block| <= Min(limits.maxOutput, Rscc.INT_MAX) && |parts[k].plain| <= Min(limits.maxOutput, Rscc.INT_MAX)
      ensures |parts[k].plain| == h.LogicalBytes(k)
    {
      PartDecompresses(s, limits, h, output, k);
    }
    forall k: nat | k < h.Count() ensures h.LogicalBytes(k) == if k + 1 == h.Count() then |parts[k].plain| else blockSize { PartEnds(h, k); }
    PartEnds(h, h.Count() - 1);
    PlainIsOutput(s, h, output, 0);
    ZeroStart(h);
    assert parts[0..] == parts && output[0..] == output;
    StreamIsPacked(s, limits, h, output);
  }

  lemma ZeroStart(h: Rscc.Header)
    ensures Rscc.LogicalStart(h, 0) == 0
  {
  }

  lemma HeaderFits(s: seq<byte>, limits: Rscc.Limits)
    requires Rscc.ParseHeader(s, limits).Some?
    ensures var h := Rscc.ParseHeader(s, limits).value;
            && h.Valid() && h.blockSize < SPAN32 && h.total < SPAN32 && h.total <= limits.maxOutput
            && h.Count() <= limits.maxBlocks && |s| <= limits.maxInput
  {
    hide Rscc.Header.Count;
  }

  lemma PartDecompresses(s: seq<byte>, limits: Rscc.Limits, h: Rscc.Header, output: seq<byte>, k: nat)
    requires Rscc.ParseHeader(s, limits) == Some(h) && Rscc.Decompress(s, limits) == Some(output) && Rscc.Laid(s, h) && |output| == h.total
    requires k < h.Count()
    ensures var part := PartsOf(s, h, output)[k];
            && Packed(part) && |part.block| <= limits.maxBlock && |part.block| < SPAN32 && |part.plain| == h.LogicalBytes(k)
            && |part.block| <= Min(limits.maxOutput, Rscc.INT_MAX) && |part.plain| <= Min(limits.maxOutput, Rscc.INT_MAX)
  {
    hide Rscc.ParseHeader, Rscc.DecompressFrom, Rscc.DecompressBlock, Rscc.Header.Count, Rscc.Header.LogicalBytes, Rscc.LogicalStart, Rscc.Block, Packed,
      Rscc.Entry;
    var part, at, n := PartsOf(s, h, output)[k], Rscc.LogicalStart(h, k), h.LogicalBytes(k);
    Rscc.BlockDecompresses(s, h, limits, k, output);
    BlockSize(s, h, k);
    EntryIsWord(s, k);
    assert output[at..][..n] == output[at..at + n];
    DecompressedIsPacked(part.block, part.plain, limits.maxOutput);
  }

  lemma EntryIsWord(s: seq<byte>, k: nat)
    requires 16 + 4 * k + 4 <= |s|
    ensures Rscc.Entry(s, k) < SPAN32
  {
  }
}
