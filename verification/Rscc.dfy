/**
 The RSCC container: a table of independently compressed blocks. `Decompress` is the whole-stream
 decoder; `Reader` serves random reads from a cursor over the table and one cached block.
 Blocks are FastLZ streams.
 */
module Rscc {
  import opened Bytes
  import FastLz
  import FastLzChecker
  import FastLzStream

  const MAGIC: seq<byte> := [0x52, 0x53, 0x43, 0x43]
  const BATCH := 1024  // table entries fetched at a time
  const INT_MAX := 0x7FFF_FFFF

  datatype Limits = Limits(maxInput: nat, maxOutput: nat, maxBlock: nat, maxBlocks: nat)

  // ---- geometry

  datatype Header = Header(blockSize: nat, total: nat) {

    predicate Valid()
    {
      blockSize > 0
    }

    function Count(): (n: nat)
      requires Valid()
      ensures n > 0
    {
      total / blockSize + 1
    }

    /** Every block is full except the last, which an exact multiple leaves empty. */
    function LogicalBytes(index: nat): nat
      requires Valid()
    {
      if index + 1 == Count() then total % blockSize else blockSize
    }
  }

  lemma DivMod(a: nat, d: nat)
    requires d > 0
    ensures a == a / d * d + a % d && a % d < d
  {
  }

  lemma QuotientOrder(q: nat, r: nat, p: nat, t: nat, d: nat)
    requires r < d && t < d && q * d + r < p * d + t
    ensures q <= p && (q == p ==> r < t)
  {
    if q > p { MulMonotone(p + 1, q, d); }
  }

  /** The logical offset of block `index`. */
  function LogicalStart(h: Header, index: nat): nat
    decreases index
  {
    if index == 0 then 0 else LogicalStart(h, index - 1) + h.blockSize
  }

  lemma {:induction false} LogicalStartIsProduct(h: Header, index: nat)
    ensures LogicalStart(h, index) == index * h.blockSize
    decreases index
  {
    if index > 0 {
      LogicalStartIsProduct(h, index - 1);
      assert index * h.blockSize == (index - 1) * h.blockSize + h.blockSize;
    }
  }

  /** The blocks before the last are full, and the last holds the rest. */
  lemma BlocksCoverTotal(h: Header)
    requires h.Valid()
    ensures LogicalStart(h, h.Count() - 1) + h.LogicalBytes(h.Count() - 1) == h.total
    ensures forall index: nat :: index + 1 < h.Count() ==> h.LogicalBytes(index) == h.blockSize
  {
    LogicalStartIsProduct(h, h.Count() - 1);
    DivMod(h.total, h.blockSize);
  }

  /** An in-range position falls in a block that holds it, and never in an empty last block. */
  lemma Locate(h: Header, offset: nat)
    requires h.Valid() && offset < h.total
    ensures offset / h.blockSize < h.Count()
    ensures offset % h.blockSize < h.LogicalBytes(offset / h.blockSize) <= h.blockSize
    ensures offset == LogicalStart(h, offset / h.blockSize) + offset % h.blockSize
  {
    LogicalStartIsProduct(h, offset / h.blockSize);
    DivMod(offset, h.blockSize);
    DivMod(h.total, h.blockSize);
    QuotientOrder(offset / h.blockSize, offset % h.blockSize, h.total / h.blockSize, h.total % h.blockSize, h.blockSize);
  }

  /** The zero-length last block of an exact multiple is never touched by a read. */
  lemma EmptyTailIsUntouched(h: Header, offset: nat)
    requires h.Valid() && offset < h.total && h.LogicalBytes(h.Count() - 1) == 0
    ensures offset / h.blockSize < h.Count() - 1
  {
    Locate(h, offset);
  }

  // ---- the wire layout

  function Entry(s: seq<byte>, index: nat): nat
    requires 16 + 4 * index + 4 <= |s|
  {
    U32(s, 16 + 4 * index)
  }

  lemma EntryInBatch(s: seq<byte>, first: nat, batch: nat, item: nat)
    requires item < batch && 16 + 4 * (first + batch) <= |s|
    ensures U32(s[16 + 4 * first..16 + 4 * (first + batch)], 4 * item) == Entry(s, first + item)
  {
  }

  /** The stored offset of block `index`: the end of the table plus the sizes before it. */
  function BlockStart(s: seq<byte>, count: nat, index: nat): (start: nat)
    requires index <= count && 16 + 4 * count <= |s|
    ensures start >= 16 + 4 * count
    decreases index
  {
    if index == 0 then 16 + 4 * count else BlockStart(s, count, index - 1) + Entry(s, index - 1)
  }

  lemma {:induction false} BlockStartsGrow(s: seq<byte>, count: nat, i: nat, j: nat)
    requires i <= j <= count && 16 + 4 * count <= |s|
    ensures BlockStart(s, count, i) <= BlockStart(s, count, j)
    decreases j
  {
    if i < j { BlockStartsGrow(s, count, i, j - 1); }
  }

  /** The table fits, and its blocks fill the space up to the trailing magic. */
  predicate Laid(s: seq<byte>, h: Header)
  {
    && h.Valid()
    && 16 + 4 * h.Count() <= |s| - 4
    && BlockStart(s, h.Count(), h.Count()) == |s| - 4
  }

  function Block(s: seq<byte>, h: Header, index: nat): seq<byte>
    requires Laid(s, h) && index < h.Count()
  {
    BlockStartsGrow(s, h.Count(), index + 1, h.Count());
    s[BlockStart(s, h.Count(), index)..BlockStart(s, h.Count(), index + 1)]
  }

  /** The fixed header, when every check that precedes the block data holds. */
  function ParseHeader(s: seq<byte>, limits: Limits): (r: Option<Header>)
    ensures r.Some? ==> r.value.Valid() && 16 + 4 * r.value.Count() <= |s| - 4
  {
    if !(16 <= |s| <= limits.maxInput) || s[..4] != MAGIC || s[|s| - 4..] != MAGIC then None
    else
      var h := Header(U32(s, 8), U32(s, 12));
      if h.blockSize == 0 || U32(s, 4) != 0 || h.total > limits.maxOutput then None
      else if h.Count() > limits.maxBlocks || 16 + 4 * h.Count() > |s| - 4 then None
      else Some(h)
  }

  // ---- whole-stream decompression

  /** One block decoded to exactly `expected` bytes, or None. */
  function DecompressBlock(block: seq<byte>, expected: nat, maxOutput: nat): (r: Option<seq<byte>>)
    ensures r.Some? ==> |r.value| == expected
  {
    var limit := Min(maxOutput, INT_MAX);
    var padded := FastLz.Padded(expected);
    if |block| > limit || expected > limit || |block| == 0 then None
    else if !FastLzChecker.Passes(FastLzChecker.Walk(block), padded) then None
    else match FastLz.Decode(block, padded)
      case Broken(_) => None
      case Whole(out) => Some(out[..expected])
  }

  /** Blocks `index` onward, whose first byte is at `offset`. */
  function DecompressFrom(s: seq<byte>, h: Header, limits: Limits, index: nat, offset: nat): (r: Option<seq<byte>>)
    requires h.Valid() && 16 + 4 * h.Count() <= |s| - 4 && index <= h.Count() && offset <= |s| - 4
    decreases h.Count() - index
  {
    if index == h.Count() then if offset == |s| - 4 then Some([]) else None
    else
      var compressed := Entry(s, index);
      if compressed > limits.maxBlock || offset + compressed > |s| - 4 then None
      else
        match DecompressBlock(s[offset..offset + compressed], h.LogicalBytes(index), limits.maxOutput)
        case None => None
        case Some(out) => Prepend(out, DecompressFrom(s, h, limits, index + 1, offset + compressed))
  }

  function Prepend(output: seq<byte>, rest: Option<seq<byte>>): Option<seq<byte>>
  {
    match rest
    case None => None
    case Some(bytes) => Some(output + bytes)
  }

  lemma PrependFails(output: seq<byte>)
    ensures Prepend(output, None) == None
  {
  }

  lemma PrependEmpty(output: seq<byte>)
    ensures Prepend(output, Some([])) == Some(output)
  {
    assert output + [] == output;
  }

  lemma PrependNothing(rest: Option<seq<byte>>)
    ensures Prepend([], rest) == rest
  {
    if rest.Some? { assert [] + rest.value == rest.value; }
  }

  lemma PrependAssociates(a: seq<byte>, b: seq<byte>, rest: Option<seq<byte>>)
    ensures Prepend(a, Prepend(b, rest)) == Prepend(a + b, rest)
  {
    if rest.Some? { assert a + (b + rest.value) == a + b + rest.value; }
  }

  lemma DecompressStep(s: seq<byte>, h: Header, limits: Limits, index: nat, offset: nat, out: Option<seq<byte>>)
    requires h.Valid() && 16 + 4 * h.Count() <= |s| - 4 && index <= h.Count() && offset <= |s| - 4
    requires index < h.Count() && Entry(s, index) <= limits.maxBlock && offset + Entry(s, index) <= |s| - 4
    requires out == DecompressBlock(s[offset..offset + Entry(s, index)], h.LogicalBytes(index), limits.maxOutput)
    ensures DecompressFrom(s, h, limits, index, offset)
         == if out.None? then None
            else Prepend(out.value, DecompressFrom(s, h, limits, index + 1, offset + Entry(s, index)))
  {
  }

  function Decompress(s: seq<byte>, limits: Limits): (r: Option<seq<byte>>)
  {
    match ParseHeader(s, limits)
    case None => None
    case Some(h) => DecompressFrom(s, h, limits, 0, 16 + 4 * h.Count())
  }

  method CheckedDecompressBlock(block: seq<byte>, expected: nat, maxOutput: nat) returns (r: Option<seq<byte>>)
    ensures r == DecompressBlock(block, expected, maxOutput)
  {
    var limit := Min(maxOutput, INT_MAX);
    if |block| > limit || expected > limit || |block| == 0 { return None; }
    var ok := FastLzChecker.RequireCompleteInput(block, FastLz.Padded(expected));
    if !ok { return None; }
    match FastLz.Decode(block, FastLz.Padded(expected)) {
      case Broken(_) => r := None;
      case Whole(out) => r := Some(out[..expected]);
    }
  }

  method DecompressRscc(s: seq<byte>, limits: Limits) returns (r: Option<seq<byte>>)
    ensures r == Decompress(s, limits)
  {
    hide DecompressBlock, Header.Count, Header.LogicalBytes, Prepend, Entry;
    var header := ParseHeader(s, limits);
    if header.None? { return None; }
    var h := header.value;
    var output: seq<byte> := [];
    var offset: nat := 16 + 4 * h.Count();
    var index: nat := 0;
    ghost var whole := DecompressFrom(s, h, limits, 0, offset);
    PrependNothing(whole);
    while index < h.Count()
      invariant index <= h.Count() && offset <= |s| - 4
      invariant whole == Prepend(output, DecompressFrom(s, h, limits, index, offset))
    {
      var compressed := Entry(s, index);
      if compressed > limits.maxBlock || offset + compressed > |s| - 4 {
        PrependFails(output);
        return None;
      }
      var block := CheckedDecompressBlock(s[offset..offset + compressed], h.LogicalBytes(index), limits.maxOutput);
      DecompressStep(s, h, limits, index, offset, block);
      if block.None? {
        PrependFails(output);
        return None;
      }
      PrependAssociates(output, block.value, DecompressFrom(s, h, limits, index + 1, offset + compressed));
      output := output + block.value;
      offset := offset + compressed;
      index := index + 1;
    }
    if offset != |s| - 4 {
      PrependFails(output);
      return None;
    }
    PrependEmpty(output);
    return Some(output);
  }

  // ---- random access

  /** What one block's stream yields. */
  function BlockOutcome(s: seq<byte>, h: Header, index: nat): FastLz.Outcome
    requires Laid(s, h) && index < h.Count()
  {
    FastLz.Decode(Block(s, h, index), FastLz.Padded(h.LogicalBytes(index)))
  }

  predicate BlockAdmitted(s: seq<byte>, h: Header, limits: Limits, index: nat)
    requires Laid(s, h) && index < h.Count()
  {
    h.LogicalBytes(index) <= limits.maxBlock && Entry(s, index) <= limits.maxBlock
  }

  /** Whether the part of a read that falls in one block succeeds. */
  predicate PieceOk(s: seq<byte>, h: Header, limits: Limits, index: nat, within: nat, count: nat)
    requires Laid(s, h) && index < h.Count()
  {
    && BlockAdmitted(s, h, limits, index)
    && FastLzStream.Readable(BlockOutcome(s, h, index), h.LogicalBytes(index), within, count)
  }

  /** The part of a read that one block serves. */
  function Piece(s: seq<byte>, h: Header, limits: Limits, index: nat, within: nat, count: nat): (r: Option<seq<byte>>)
    requires Laid(s, h) && index < h.Count() && 0 < count
    ensures r.Some? ==> |r.value| == count
  {
    if PieceOk(s, h, limits, index, within, count) then
      FastLzStream.WindowEndBounds(within + count, 0);
      assert FastLzStream.WindowEnd(within + count) >= within + count;
      Some(BlockOutcome(s, h, index).out[within..within + count])
    else None
  }

  /** The bytes a read returns: a slice of each block it touches, in order. */
  function ReadSpec(s: seq<byte>, h: Header, limits: Limits, offset: nat, count: nat): (r: Option<seq<byte>>)
    requires Laid(s, h) && offset + count <= h.total
    ensures r.Some? ==> |r.value| == count
    decreases count
  {
    if count == 0 then Some([])
    else
      Locate(h, offset);
      var index := offset / h.blockSize;
      var within := offset % h.blockSize;
      var amount := Min(count, h.LogicalBytes(index) - within);
      match Piece(s, h, limits, index, within, amount)
      case None => None
      case Some(bytes) => Prepend(bytes, ReadSpec(s, h, limits, offset + amount, count - amount))
  }

  // ---- an accepted stream is readable everywhere

  /** An accepted tail consists of its first block and an accepted shorter tail. */
  lemma TailStep(s: seq<byte>, h: Header, limits: Limits, index: nat, offset: nat)
    requires h.Valid() && 16 + 4 * h.Count() <= |s| - 4 && index < h.Count() && offset <= |s| - 4
    requires DecompressFrom(s, h, limits, index, offset).Some?
    ensures offset + Entry(s, index) <= |s| - 4
    ensures DecompressFrom(s, h, limits, index + 1, offset + Entry(s, index)).Some?
    ensures |DecompressFrom(s, h, limits, index, offset).value|
         == h.LogicalBytes(index) + |DecompressFrom(s, h, limits, index + 1, offset + Entry(s, index)).value|
  {
    hide DecompressBlock, Header.Count, Header.LogicalBytes, Entry;
  }

  lemma TailEnd(s: seq<byte>, h: Header, limits: Limits, offset: nat)
    requires h.Valid() && 16 + 4 * h.Count() <= |s| - 4 && offset <= |s| - 4
    requires DecompressFrom(s, h, limits, h.Count(), offset).Some?
    ensures offset == |s| - 4 && DecompressFrom(s, h, limits, h.Count(), offset) == Some([])
  {
    hide Header.Count;
  }

  /** The tail of an accepted stream from block `index` is itself accepted, at the table's offset. */
  lemma {:induction false} TailAccepted(s: seq<byte>, h: Header, limits: Limits, index: nat)
    requires h.Valid() && 16 + 4 * h.Count() <= |s| - 4 && index <= h.Count()
    requires DecompressFrom(s, h, limits, 0, 16 + 4 * h.Count()).Some?
    ensures BlockStart(s, h.Count(), index) <= |s| - 4
    ensures DecompressFrom(s, h, limits, index, BlockStart(s, h.Count(), index)).Some?
    ensures index == h.Count() ==> Laid(s, h)
    decreases index
  {
    hide DecompressFrom, Header.Count, Header.LogicalBytes, Entry;
    if index > 0 {
      TailAccepted(s, h, limits, index - 1);
      TailStep(s, h, limits, index - 1, BlockStart(s, h.Count(), index - 1));
    }
    if index == h.Count() { TailEnd(s, h, limits, BlockStart(s, h.Count(), index)); }
  }

  /** The tail from block `index` is as long as the logical bytes that remain. */
  lemma {:induction false} TailLength(s: seq<byte>, h: Header, limits: Limits, index: nat, offset: nat)
    requires h.Valid() && 16 + 4 * h.Count() <= |s| - 4 && index < h.Count() && offset <= |s| - 4
    requires DecompressFrom(s, h, limits, index, offset).Some?
    ensures LogicalStart(h, index) + |DecompressFrom(s, h, limits, index, offset).value| == h.total
    decreases h.Count() - index
  {
    hide DecompressFrom, Header.Count, Header.LogicalBytes, Entry;
    BlocksCoverTotal(h);
    TailStep(s, h, limits, index, offset);
    if index + 1 < h.Count() {
      TailLength(s, h, limits, index + 1, offset + Entry(s, index));
    } else {
      TailEnd(s, h, limits, offset + Entry(s, index));
    }
  }

  /** Block `index` starts at its logical offset in the output. */
  lemma {:induction false} TailIsSuffix(s: seq<byte>, h: Header, limits: Limits, index: nat, output: seq<byte>)
    requires Laid(s, h) && index < h.Count()
    requires DecompressFrom(s, h, limits, 0, 16 + 4 * h.Count()) == Some(output)
    ensures |output| == h.total && LogicalStart(h, index) <= |output| && BlockStart(s, h.Count(), index) <= |s| - 4
    ensures DecompressFrom(s, h, limits, index, BlockStart(s, h.Count(), index))
         == Some(output[LogicalStart(h, index)..])
    decreases index
  {
    hide DecompressBlock, Header.Count, Header.LogicalBytes, DecompressFrom;
    TailLength(s, h, limits, 0, 16 + 4 * h.Count());
    TailAccepted(s, h, limits, index);
    TailLength(s, h, limits, index, BlockStart(s, h.Count(), index));
    if index > 0 {
      TailIsSuffix(s, h, limits, index - 1, output);
      BlocksCoverTotal(h);
      DropFullBlock(s, h, limits, index - 1, BlockStart(s, h.Count(), index - 1));
      assert output[LogicalStart(h, index - 1)..][h.blockSize..] == output[LogicalStart(h, index)..];
    }
  }

  lemma DropFullBlock(s: seq<byte>, h: Header, limits: Limits, index: nat, offset: nat)
    requires h.Valid() && 16 + 4 * h.Count() <= |s| - 4 && index < h.Count() && offset <= |s| - 4
    requires h.LogicalBytes(index) == h.blockSize
    requires DecompressFrom(s, h, limits, index, offset).Some?
    ensures var tail := DecompressFrom(s, h, limits, index, offset).value;
            && offset + Entry(s, index) <= |s| - 4 && h.blockSize <= |tail|
            && DecompressFrom(s, h, limits, index + 1, offset + Entry(s, index)) == Some(tail[h.blockSize..])
  {
    hide DecompressBlock, Header.Count, Header.LogicalBytes;
  }

  lemma HeadOfTail(s: seq<byte>, h: Header, limits: Limits, index: nat, offset: nat, tail: seq<byte>)
    requires h.Valid() && 16 + 4 * h.Count() <= |s| - 4 && index < h.Count() && offset <= |s| - 4
    requires DecompressFrom(s, h, limits, index, offset) == Some(tail)
    ensures Entry(s, index) <= limits.maxBlock && offset + Entry(s, index) <= |s| - 4 && h.LogicalBytes(index) <= |tail|
    ensures DecompressBlock(s[offset..offset + Entry(s, index)], h.LogicalBytes(index), limits.maxOutput) == Some(tail[..h.LogicalBytes(index)])
  {
    hide DecompressBlock, Header.Count, Header.LogicalBytes;
  }

  /** A block of an accepted stream decodes to the output at its logical offset. */
  lemma BlockDecompresses(s: seq<byte>, h: Header, limits: Limits, index: nat, output: seq<byte>)
    requires Laid(s, h) && index < h.Count()
    requires DecompressFrom(s, h, limits, 0, 16 + 4 * h.Count()) == Some(output)
    ensures Entry(s, index) <= limits.maxBlock
    ensures LogicalStart(h, index) + h.LogicalBytes(index) <= |output|
    ensures DecompressBlock(Block(s, h, index), h.LogicalBytes(index), limits.maxOutput)
         == Some(output[LogicalStart(h, index)..][..h.LogicalBytes(index)])
  {
    hide DecompressBlock, DecompressFrom, Header.Count, Header.LogicalBytes, LogicalStart;
    TailIsSuffix(s, h, limits, index, output);
    HeadOfTail(s, h, limits, index, BlockStart(s, h.Count(), index), output[LogicalStart(h, index)..]);
  }

  lemma DecompressedBlockIsWhole(block: seq<byte>, expected: nat, maxOutput: nat)
    requires DecompressBlock(block, expected, maxOutput).Some?
    ensures var r := FastLz.Decode(block, FastLz.Padded(expected));
            r.Whole? && expected <= |r.out| && DecompressBlock(block, expected, maxOutput) == Some(r.out[..expected])
  {
  }

  lemma FirstBlockIsLargest(h: Header, index: nat)
    requires h.Valid() && index < h.Count()
    ensures h.LogicalBytes(index) <= h.LogicalBytes(0)
  {
    DivMod(h.total, h.blockSize);
  }

  lemma AcceptedPiece(s: seq<byte>, h: Header, limits: Limits, index: nat, within: nat, count: nat, output: seq<byte>)
    requires Laid(s, h) && index < h.Count() && 0 < count && within + count <= h.LogicalBytes(index)
    requires DecompressFrom(s, h, limits, 0, 16 + 4 * h.Count()) == Some(output)
    requires h.LogicalBytes(0) <= limits.maxBlock
    ensures LogicalStart(h, index) + within + count <= |output|
    ensures Piece(s, h, limits, index, within, count)
         == Some(output[LogicalStart(h, index) + within..LogicalStart(h, index) + within + count])
  {
    hide DecompressFrom, DecompressBlock, Header.Count, Header.LogicalBytes, BlockStart, FastLz.Decode;
    BlockDecompresses(s, h, limits, index, output);
    DecompressedBlockIsWhole(Block(s, h, index), h.LogicalBytes(index), limits.maxOutput);
    FirstBlockIsLargest(h, index);
    var at, size := LogicalStart(h, index), h.LogicalBytes(index);
    var out := BlockOutcome(s, h, index).out;
    SliceOfWindow(output, at, size, within, within + count);
    SliceOfTake(out, size, within, within + count);
  }

  /** The first piece of a non-empty read, and the read that remains after it. */
  lemma ReadStepAt(s: seq<byte>, h: Header, limits: Limits, offset: nat, count: nat, index: nat, within: nat)
      returns (amount: nat)
    requires Laid(s, h) && offset + count <= h.total && 0 < count
    requires index == offset / h.blockSize && within == offset % h.blockSize
    ensures index < h.Count() && 0 < amount <= count && within + amount <= h.LogicalBytes(index)
    ensures amount == Min(count, h.LogicalBytes(index) - within)
    ensures offset == LogicalStart(h, index) + within
    ensures ReadSpec(s, h, limits, offset, count)
         == match Piece(s, h, limits, index, within, amount)
            case None => None
            case Some(bytes) => Prepend(bytes, ReadSpec(s, h, limits, offset + amount, count - amount))
  {
    hide Piece, LogicalStart, BlockStart;
    Locate(h, offset);
    amount := Min(count, h.LogicalBytes(index) - within);
  }

  lemma ReadStep(s: seq<byte>, h: Header, limits: Limits, offset: nat, count: nat)
      returns (index: nat, within: nat, amount: nat)
    requires Laid(s, h) && offset + count <= h.total && 0 < count
    ensures index < h.Count() && 0 < amount <= count && within + amount <= h.LogicalBytes(index)
    ensures offset == LogicalStart(h, index) + within
    ensures ReadSpec(s, h, limits, offset, count)
         == match Piece(s, h, limits, index, within, amount)
            case None => None
            case Some(bytes) => Prepend(bytes, ReadSpec(s, h, limits, offset + amount, count - amount))
  {
    hide Piece, LogicalStart, BlockStart, ReadSpec;
    index, within := offset / h.blockSize, offset % h.blockSize;
    amount := ReadStepAt(s, h, limits, offset, count, index, within);
  }

  lemma {:induction false} AcceptedReads(s: seq<byte>, h: Header, limits: Limits, offset: nat, count: nat, output: seq<byte>)
    requires Laid(s, h) && offset + count <= h.total && h.LogicalBytes(0) <= limits.maxBlock
    requires DecompressFrom(s, h, limits, 0, 16 + 4 * h.Count()) == Some(output) && |output| == h.total
    ensures ReadSpec(s, h, limits, offset, count) == Some(output[offset..offset + count])
    decreases count
  {
    hide DecompressFrom, Header.Count, Header.LogicalBytes, Piece, LogicalStart, BlockStart, ReadSpec;
    if count == 0 {
      ReadNothing(s, h, limits, offset);
      assert output[offset..offset + count] == [];
    } else {
      var index, within, amount := ReadStep(s, h, limits, offset, count);
      AcceptedPiece(s, h, limits, index, within, amount, output);
      AcceptedReads(s, h, limits, offset + amount, count - amount, output);
      assert output[offset..offset + count]
          == output[offset..offset + amount] + output[offset + amount..offset + count];
    }
  }

  /**
   Every stream that whole-stream decompression accepts opens for random access, and every in-range
   read returns that slice of the output, exactly when the reader's block limit admits its blocks.
   */
  lemma RandomAccessAgrees(s: seq<byte>, limits: Limits, h: Header, output: seq<byte>)
    requires ParseHeader(s, limits) == Some(h) && Decompress(s, limits) == Some(output)
    ensures Laid(s, h) && |output| == h.total
    ensures (forall offset: nat, count: nat | offset + count <= h.total ::
               ReadSpec(s, h, limits, offset, count) == Some(output[offset..offset + count]))
            <==> h.LogicalBytes(0) <= limits.maxBlock
  {
    hide ParseHeader, DecompressFrom;
    TailAccepted(s, h, limits, h.Count());
    TailIsSuffix(s, h, limits, 0, output);
    if h.LogicalBytes(0) <= limits.maxBlock {
      forall offset: nat, count: nat | offset + count <= h.total
        ensures ReadSpec(s, h, limits, offset, count) == Some(output[offset..offset + count])
      {
        AcceptedReads(s, h, limits, offset, count, output);
      }
    } else {
      DivMod(h.total, h.blockSize);
      var offset: nat, count: nat := 0, 1;
      var index, within, amount := ReadStep(s, h, limits, offset, count);
      assert ReadSpec(s, h, limits, offset, count) != Some(output[offset..offset + count]);
    }
  }

  lemma ReadNothing(s: seq<byte>, h: Header, limits: Limits, offset: nat)
    requires Laid(s, h) && offset <= h.total
    ensures ReadSpec(s, h, limits, offset, 0) == Some([])
  {
  }

  class Reader {
    const s: seq<byte>
    const limits: Limits
    var h: Header
    var nextIndex: nat
    var nextOffset: nat
    var cached: Option<nat>
    var streamed: FastLzStream.Decoder?

    /** The header and table have been validated. */
    ghost predicate Opened()
      reads this`h
    {
      ParseHeader(s, limits) == Some(h) && Laid(s, h)
    }

    /** The cursor sits at the stored start of the next block. */
    ghost predicate CursorOk()
      requires Opened()
      reads this`h, this`nextIndex, this`nextOffset
    {
      nextIndex <= h.Count() && nextOffset == BlockStart(s, h.Count(), nextIndex)
    }

    ghost function Footprint(): set<object>
      reads this`streamed
    {
      if streamed == null then {} else {streamed, streamed.input, streamed.output, streamed.history}
    }

    /** The cached decoder streams exactly the block it is cached for. */
    ghost predicate CacheOk()
      requires Opened()
      reads this`h, this`cached, this`streamed, Footprint()
    {
      cached.Some? ==>
        && cached.value < h.Count()
        && BlockAdmitted(s, h, limits, cached.value)
        && streamed != null && this !in Footprint() && streamed.Valid()
        && streamed.block == Block(s, h, cached.value)
        && streamed.logical == h.LogicalBytes(cached.value)
    }

    ghost predicate Valid()
      reads this, Footprint()
    {
      Opened() && CursorOk() && CacheOk()
    }

    constructor (s: seq<byte>, limits: Limits)
      ensures this.s == s && this.limits == limits && fresh(this)
    {
      this.s, this.limits := s, limits;
      h := Header(0, 0);
      nextIndex, nextOffset, cached, streamed := 0, 0, None, null;
    }

    /** Validates the header, then accounts for every stored block without decoding any. */
    method Open() returns (ok: bool)
      modifies this
      ensures ok <==> ParseHeader(s, limits).Some? && Laid(s, ParseHeader(s, limits).value)
      ensures ok ==> Valid() && cached.None?
    {
      if |s| > limits.maxInput || |s| < 16 + 4 { return false; }
      if s[..4] != MAGIC || s[|s| - 4..] != MAGIC { return false; }
      h := Header(U32(s, 8), U32(s, 12));
      if h.blockSize == 0 || U32(s, 4) != 0 || h.total > limits.maxOutput { return false; }
      var count := h.Count();
      if count > limits.maxBlocks || count > (|s| - 16 - 4) / 4 { return false; }
      assert ParseHeader(s, limits) == Some(h);
      ok := AccountTable(count);
      if !ok { return; }
      nextIndex, nextOffset, cached := 0, 16 + 4 * count, None;
    }

    /** Adds up the table in batches; the blocks must reach the trailing magic exactly. */
    method AccountTable(count: nat) returns (ok: bool)
      requires 16 + 4 * count <= |s| - 4
      ensures ok <==> BlockStart(s, count, count) == |s| - 4
    {
      hide Entry, U32;
      var accounted := 16 + 4 * count;
      var index := 0;
      while index < count
        invariant index <= count && accounted == BlockStart(s, count, index) <= |s| - 4
      {
        var batch := Min(count - index, BATCH);
        var entries := s[16 + 4 * index..16 + 4 * (index + batch)];
        for item := 0 to batch
          invariant accounted == BlockStart(s, count, index + item) <= |s| - 4
        {
          EntryInBatch(s, index, batch, item);
          var compressed := U32(entries, 4 * item);
          if compressed > |s| - 4 - accounted {
            BlockStartsGrow(s, count, index + item + 1, count);
            return false;
          }
          accounted := accounted + compressed;
        }
        index := index + batch;
      }
      return accounted == |s| - 4;
    }

    /** Opens a stream over the block at the cursor, if its sizes are admitted. */
    method OpenStream(compressed: nat) returns (ok: bool)
      requires Opened() && CursorOk() && nextIndex < h.Count() && compressed == Entry(s, nextIndex)
      modifies this`streamed, this`cached
      ensures ok <==> BlockAdmitted(s, h, limits, nextIndex)
      ensures ok ==> CacheOk() && cached == Some(nextIndex) && fresh(Footprint())
    {
      hide Entry, ParseHeader, Header.Count, Header.LogicalBytes, FastLzStream.Decoder.Valid;
      BlockStartsGrow(s, h.Count(), nextIndex + 1, h.Count());
      var logical := h.LogicalBytes(nextIndex);
      if logical > limits.maxBlock || compressed > limits.maxBlock { return false; }
      streamed := new FastLzStream.Decoder(s[nextOffset..nextOffset + compressed], logical);
      cached := Some(nextIndex);
      return true;
    }

    /** Passes one table entry; the entry of the wanted block opens a stream over that block. */
    method Pass(index: nat, compressed: nat) returns (ok: bool)
      requires Opened() && CursorOk() && nextIndex <= index < h.Count() && compressed == Entry(s, nextIndex)
      modifies this
      ensures h == old(h)
      ensures ok <==> (old(nextIndex) == index ==> BlockAdmitted(s, h, limits, index))
      ensures ok ==> CursorOk() && nextIndex == old(nextIndex) + 1
      ensures ok && nextIndex == index + 1 ==> Valid() && cached == Some(index) && fresh(Footprint())
    {
      hide Entry, ParseHeader, Header.Count, Header.LogicalBytes, FastLzStream.Decoder.Valid;
      BlockStartsGrow(s, h.Count(), nextIndex + 1, h.Count());
      assert compressed <= |s| - 4 - nextOffset;
      if nextIndex == index {
        ok := OpenStream(compressed);
        if !ok { return; }
      }
      nextOffset := nextOffset + compressed;
      nextIndex := nextIndex + 1;
      return true;
    }

    /** Passes a run of table entries fetched together. */
    method PassBatch(index: nat, batch: nat) returns (ok: bool)
      requires Opened() && CursorOk() && index < h.Count() && 0 < batch <= index + 1 - nextIndex
      modifies this
      ensures h == old(h)
      ensures ok <==> (old(nextIndex) + batch == index + 1 ==> BlockAdmitted(s, h, limits, index))
      ensures ok ==> CursorOk() && nextIndex == old(nextIndex) + batch
      ensures ok && nextIndex == index + 1 ==> Valid() && cached == Some(index) && fresh(Footprint())
    {
      hide Entry, ParseHeader, Header.Count, Header.LogicalBytes, CacheOk, BlockStart, BlockAdmitted;
      var first := nextIndex;
      var entries := s[16 + 4 * first..16 + 4 * (first + batch)];
      for item := 0 to batch
        invariant h == old(h) && Opened() && CursorOk() && nextIndex == first + item
        invariant nextIndex == index + 1 ==>
            BlockAdmitted(s, h, limits, index) && Valid() && cached == Some(index) && fresh(Footprint())
      {
        EntryInBatch(s, first, batch, item);
        ok := Pass(index, U32(entries, 4 * item));
        if !ok { return; }
      }
      return true;
    }

    /** Walks the table up to and including block `index`, from the start if the cursor is past it. */
    method Advance(index: nat) returns (ok: bool)
      requires Opened() && CursorOk() && index < h.Count()
      modifies this
      ensures h == old(h)
      ensures ok <==> BlockAdmitted(s, h, limits, index)
      ensures ok ==> Valid() && cached == Some(index) && fresh(Footprint())
    {
      hide Entry, ParseHeader, Header.Count, Header.LogicalBytes, CacheOk, BlockAdmitted;
      if index < nextIndex { nextIndex, nextOffset := 0, 16 + 4 * h.Count(); }
      while nextIndex <= index
        invariant h == old(h) && Opened() && CursorOk() && nextIndex <= index + 1
        invariant nextIndex == index + 1 ==>
            BlockAdmitted(s, h, limits, index) && Valid() && cached == Some(index) && fresh(Footprint())
      {
        ok := PassBatch(index, Min(index - nextIndex + 1, BATCH));
        if !ok { return; }
      }
      return true;
    }

    /** Makes the cached stream that of block `index`. */
    method Load(index: nat) returns (ok: bool)
      requires Valid() && index < h.Count()
      modifies this
      ensures h == old(h)
      ensures ok <==> BlockAdmitted(s, h, limits, index)
      ensures ok ==> Valid() && cached == Some(index)
      ensures ok ==> fresh(Footprint()) || streamed == old(streamed)
    {
      if cached == Some(index) { return true; }
      ok := Advance(index);
    }

    /** The part of a read that falls in one block. */
    method ReadPiece(index: nat, within: nat, amount: nat) returns (r: Option<seq<byte>>)
      requires Valid() && index < h.Count() && 0 < amount && within + amount <= h.LogicalBytes(index)
      modifies this, Footprint()
      ensures h == old(h)
      ensures r == Piece(s, h, limits, index, within, amount)
      ensures r.Some? ==> Valid() && fresh(Footprint() - old(Footprint()))
    {
      hide Header.Count, Header.LogicalBytes, BlockStart, FastLz.Decode, FastLzStream.Readable, ParseHeader;
      hide FastLzStream.Decoder.Valid, Block;
      var ok := Load(index);
      if !ok { return None; }
      r := streamed.Read(within, amount);
    }

    /** The next piece of a non-empty read: as much as the block at `logical` holds. */
    method ReadNext(logical: nat, rest: nat) returns (r: Option<seq<byte>>)
      requires Valid() && logical + rest <= h.total && 0 < rest
      modifies this, Footprint()
      ensures h == old(h)
      ensures r.None? ==> ReadSpec(s, h, limits, logical, rest).None?
      ensures r.Some? ==> Valid() && fresh(Footprint() - old(Footprint())) && 0 < |r.value| <= rest
      ensures r.Some? ==>
                ReadSpec(s, h, limits, logical, rest)
                == Prepend(r.value, ReadSpec(s, h, limits, logical + |r.value|, rest - |r.value|))
    {
      hide ReadSpec, Header.Count, Header.LogicalBytes, BlockStart, Piece, ParseHeader;
      var index := logical / h.blockSize;
      var within := logical % h.blockSize;
      ghost var expected := ReadStepAt(s, h, limits, logical, rest, index, within);
      r := ReadPiece(index, within, Min(rest, h.LogicalBytes(index) - within));
    }

    /** Any in-range read: the bytes the specification names, piece by piece through the cache. */
    method Read(offset: nat, count: nat) returns (r: Option<seq<byte>>)
      requires Valid()
      modifies this, Footprint()
      ensures h == old(h)
      ensures r == if offset + count > h.total then None else ReadSpec(s, h, limits, offset, count)
      ensures r.Some? ==> Valid() && fresh(Footprint() - old(Footprint()))
    {
      hide ReadSpec, Header.Count, Header.LogicalBytes, BlockStart, ParseHeader;
      if offset + count > h.total { return None; }
      var copied: seq<byte> := [];
      ghost var whole := ReadSpec(s, h, limits, offset, count);
      PrependNothing(whole);
      while |copied| < count
        invariant h == old(h) && Valid() && fresh(Footprint() - old(Footprint()))
        invariant |copied| <= count
        invariant whole == Prepend(copied, ReadSpec(s, h, limits, offset + |copied|, count - |copied|))
      {
        ghost var at, rest := offset + |copied|, count - |copied|;
        var bytes := ReadNext(offset + |copied|, count - |copied|);
        if bytes.None? { return None; }
        PrependAssociates(copied, bytes.value, ReadSpec(s, h, limits, at + |bytes.value|, rest - |bytes.value|));
        copied := copied + bytes.value;
      }
      ReadNothing(s, h, limits, offset + count);
      PrependEmpty(copied);
      return Some(copied);
    }

    /** Drains the empty last block of an exact multiple, which no read ever touches. */
    method ValidateTerminalBlock() returns (ok: bool)
      requires Valid()
      modifies this, Footprint()
      ensures h == old(h)
      ensures ok ==> Valid()
      ensures var last := old(h.Count()) - 1;
              ok <==> (old(h.total % h.blockSize) == 0 ==>
                         BlockAdmitted(s, old(h), limits, last) && BlockOutcome(s, old(h), last).Whole?)
    {
      hide BlockStart, FastLz.Decode, ParseHeader, FastLzStream.Decoder.Valid, Block, Header.LogicalBytes, Laid;
      if h.total % h.blockSize != 0 { return true; }
      ok := Load(h.Count() - 1);
      if !ok { return; }
      ok := streamed.Finish();
    }
  }
}
