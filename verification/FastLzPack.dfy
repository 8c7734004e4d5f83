/**
 Writing a FastLZ block from a list of literal runs and matches, straight from the wire format, and what
 every reader of the block then makes of it.
 */
module FastLzPack {
  import opened Bytes
  import FastLz
  import FastLzChecker
  import FastLzStream

  datatype Item = Run(bytes: seq<byte>) | Copy(distance: nat, count: nat)

  /** What a level can write: level 2 reaches further back, and its counts have no bound. */
  predicate Writable(level: nat, item: Item)
  {
    match item
    case Run(bytes) => 1 <= |bytes| <= 32
    case Copy(distance, count) =>
      3 <= count && 1 <= distance && if level == 1 then count <= 264 && distance <= 8192 else distance <= 73727
  }

  predicate Packable(level: nat, items: seq<Item>)
  {
    1 <= level <= 2 && items != [] && items[0].Run? && forall k :: 0 <= k < |items| ==> Writable(level, items[k])
  }

  // ---- the wire format

  /** A count byte, continued as long as it is full. */
  function Chain(n: nat): (r: seq<byte>)
  {
    if n < 255 then [n] else [255] + Chain(n - 255)
  }

  /** Counts from 9 on do not fit the control byte. */
  function LongCount(level: nat, count: nat): seq<byte>
    requires level == 1 ==> count <= 264
  {
    if count < 9 then [] else if level == 1 then [count - 9] else Chain(count - 9)
  }

  /** The top three bits of a control byte: 1 to 6 for counts 3 to 8, and 7 for longer ones. */
  function CountBits(count: nat): (n: nat)
    requires count >= 3
    ensures 1 <= n <= 7
  {
    if count < 9 then count - 2 else 7
  }

  predicate Near(level: nat, distance: nat)
  {
    level == 1 || distance < 8192
  }

  /** The low five bits of the control byte, and the bytes behind the count. */
  function Low(level: nat, distance: nat): (n: nat)
    requires 1 <= distance && (Near(level, distance) ==> distance <= 8192)
    ensures n < 32
  {
    if Near(level, distance) then (distance - 1) / 256 else 31
  }

  function Operand(level: nat, distance: nat): seq<byte>
    requires 1 <= distance <= 73727
  {
    if Near(level, distance) then [(distance - 1) % 256] else [255, (distance - 8192) / 256, (distance - 8192) % 256]
  }

  function PackItem(level: nat, item: Item): (r: seq<byte>)
    requires Writable(level, item)
    ensures r != []
  {
    match item
    case Run(bytes) => [|bytes| - 1] + bytes
    case Copy(distance, count) => [CountBits(count) * 32 + Low(level, distance)] + (LongCount(level, count) + Operand(level, distance))
  }

  function PackItems(level: nat, items: seq<Item>): seq<byte>
    requires forall k :: 0 <= k < |items| ==> Writable(level, items[k])
  {
    if items == [] then [] else PackItem(level, items[0]) + PackItems(level, items[1..])
  }

  /** The level is the top three bits of the first control byte, less one. */
  function Pack(level: nat, items: seq<Item>): seq<byte>
    requires Packable(level, items)
  {
    [(level - 1) * 32 + |items[0].bytes| - 1] + (items[0].bytes + PackItems(level, items[1..]))
  }

  // ---- the meaning of a list of items

  /** From position `at` on, `out` is what the items say: a run is its bytes, and a copied byte is the one `distance` before it. */
  predicate Means(items: seq<Item>, out: seq<byte>, at: nat)
  {
    if items == [] then at == |out|
    else match items[0]
      case Run(bytes) => at + |bytes| <= |out| && out[at..at + |bytes|] == bytes && Means(items[1..], out, at + |bytes|)
      case Copy(distance, count) =>
        && 1 <= distance <= at && at + count <= |out| && (forall i :: at <= i < at + count ==> out[i] == out[i - distance])
        && Means(items[1..], out, at + count)
  }

  // ---- reading back what was written

  predicate At(block: seq<byte>, ip: nat, part: seq<byte>)
  {
    ip + |part| <= |block| && block[ip..ip + |part|] == part
  }

  lemma AtBoth(block: seq<byte>, ip: nat, a: seq<byte>, b: seq<byte>)
    requires At(block, ip, a + b)
    ensures At(block, ip, a) && At(block, ip + |a|, b)
  {
    var whole := a + b;
    SliceOfSlice(block, ip, ip + |whole|, 0, |a|);
    SliceOfSlice(block, ip, ip + |whole|, |a|, |whole|);
    assert whole[..|a|] == a && whole[|a|..] == b;
  }

  lemma AtByte(block: seq<byte>, ip: nat, b: byte)
    requires At(block, ip, [b])
    ensures ip < |block| && block[ip] == b
  {
    assert block[ip..ip + 1][0] == block[ip];
  }

  lemma {:induction false} ChainReads(block: seq<byte>, ip: nat, n: nat)
    requires At(block, ip, Chain(n))
    ensures FastLz.Extension(block, ip) == Some((n, ip + |Chain(n)|))
    decreases n
  {
    if n < 255 {
      AtByte(block, ip, n);
    } else {
      AtBoth(block, ip, [255], Chain(n - 255));
      AtByte(block, ip, 255);
      ChainReads(block, ip + 1, n - 255);
    }
  }

  lemma CountReads(block: seq<byte>, level: nat, ip: nat, count: nat)
    requires 1 <= level <= 2 && 3 <= count && (level == 1 ==> count <= 264) && At(block, ip, LongCount(level, count))
    ensures var field := CountBits(count) - 1;
            count >= field + 3 && FastLz.LengthEscape(block, level, field, ip) == Some((count - field - 3, ip + |LongCount(level, count)|))
  {
    if count >= 9 {
      if level == 1 { AtByte(block, ip, count - 9); } else { ChainReads(block, ip, count - 9); }
    }
  }

  lemma OperandReads(block: seq<byte>, level: nat, ip: nat, distance: nat)
    requires 1 <= level <= 2 && 1 <= distance <= 73727 && (level == 1 ==> distance <= 8192) && At(block, ip, Operand(level, distance))
    ensures ip < |block|
    ensures Near(level, distance) ==> Low(level, distance) * 256 + block[ip] + 1 == distance
    ensures Near(level, distance) && level == 2 ==> !(block[ip] == 255 && Low(level, distance) == 31)
    ensures !Near(level, distance) ==> ip + 3 <= |block| && block[ip] == 255
                                       && FastLz.FarDistance(block[ip + 1], block[ip + 2]) == distance
  {
    var operand := Operand(level, distance);
    assert forall i :: 0 <= i < |operand| ==> block[ip + i] == operand[i] by {
      forall i | 0 <= i < |operand| ensures block[ip + i] == operand[i] { assert block[ip..ip + |operand|][i] == block[ip + i]; }
    }
  }

  /** The token of a match. */
  lemma CopyReads(block: seq<byte>, level: nat, ip: nat, distance: nat, count: nat)
    requires 1 <= level <= 2 && Writable(level, Copy(distance, count)) && At(block, ip, PackItem(level, Copy(distance, count)))
    ensures ip + |PackItem(level, Copy(distance, count))| <= |block| && block[ip] >= 32
    ensures FastLz.ReadToken(block, level, block[ip], ip + 1)
         == FastLz.Match(count, distance, ip + |PackItem(level, Copy(distance, count))|)
  {
    hide *;
    CopyParts(block, level, ip, distance, count);
    var long := LongCount(level, count);
    CountReads(block, level, ip + 1, count);
    OperandReads(block, level, ip + 1 + |long|, distance);
    LowOfFar(level, distance);
    OperandSize(level, distance);
    TokenIs(block, level, block[ip], ip + 1, CountBits(count) - 1, count - CountBits(count) - 2, ip + 1 + |long|, Low(level, distance));
    assert ip + |PackItem(level, Copy(distance, count))| == ip + 1 + |long| + |Operand(level, distance)|;
  }

  /** Where the parts of a written match lie. */
  lemma CopyParts(block: seq<byte>, level: nat, ip: nat, distance: nat, count: nat)
    requires 1 <= level <= 2 && Writable(level, Copy(distance, count)) && At(block, ip, PackItem(level, Copy(distance, count)))
    ensures count >= 3 && 1 <= distance <= 73727 && (level == 1 ==> count <= 264 && distance <= 8192)
    ensures var (long, operand) := (LongCount(level, count), Operand(level, distance));
            && ip < |block| && block[ip] == CountBits(count) * 32 + Low(level, distance)
            && block[ip] / 32 == CountBits(count) && block[ip] % 32 == Low(level, distance)
            && At(block, ip + 1, long) && At(block, ip + 1 + |long|, operand)
            && |PackItem(level, Copy(distance, count))| == 1 + |long| + |operand|
            && ip + 1 + |long| + |operand| <= |block|
  {
    hide At, LongCount, Operand, Low, CountBits;
    var ctrl: byte, long, operand := CountBits(count) * 32 + Low(level, distance), LongCount(level, count), Operand(level, distance);
    AtBoth(block, ip, [ctrl], long + operand);
    AtByte(block, ip, ctrl);
    AtBoth(block, ip + 1, long, operand);
    AtFits(block, ip + 1 + |long|, operand);
  }

  lemma AtFits(block: seq<byte>, ip: nat, part: seq<byte>)
    requires At(block, ip, part)
    ensures ip + |part| <= |block|
  {
  }

  /** The token behind a control byte, once its count and its operand are known. */
  lemma TokenIs(block: seq<byte>, level: nat, ctrl: byte, ip: nat, field: nat, extra: nat, at: nat, low: nat)
    requires ip <= at < |block| && ctrl / 32 == field + 1 && ctrl % 32 == low && FastLz.LengthEscape(block, level, field, ip) == Some((extra, at))
    ensures ctrl >= 32
    ensures !(level == 2 && block[at] == 255 && low == 31) ==>
      FastLz.ReadToken(block, level, ctrl, ip) == FastLz.Match(field + extra + 3, low * 256 + block[at] + 1, at + 1)
    ensures level == 2 && block[at] == 255 && low == 31 && at + 3 <= |block| ==>
      FastLz.ReadToken(block, level, ctrl, ip) == FastLz.Match(field + extra + 3, FastLz.FarDistance(block[at + 1], block[at + 2]), at + 3)
  {
    hide FastLz.LengthEscape, FastLz.FarDistance;
  }

  lemma LowOfFar(level: nat, distance: nat)
    requires 1 <= distance
    ensures !Near(level, distance) ==> Low(level, distance) == 31 && level != 1
  {
  }

  lemma OperandSize(level: nat, distance: nat)
    requires 1 <= distance <= 73727
    ensures |Operand(level, distance)| == if Near(level, distance) then 1 else 3
  {
  }

  lemma {:induction false} CopyExpands(out: seq<byte>, at: nat, distance: nat, count: nat)
    requires 1 <= distance <= at && at + count <= |out|
    requires forall i :: at <= i < at + count ==> out[i] == out[i - distance]
    ensures FastLz.Expand(out[..at], distance, count) == out[..at + count]
    decreases count
  {
    if count > 0 {
      assert out[..at] + [out[at]] == out[..at + 1];
      CopyExpands(out, at + 1, distance, count - 1);
    }
  }

  lemma RestOf(level: nat, items: seq<Item>)
    requires items != [] && forall k :: 0 <= k < |items| ==> Writable(level, items[k])
    ensures forall k :: 0 <= k < |items[1..]| ==> Writable(level, items[1..][k])
    ensures PackItems(level, items) == PackItem(level, items[0]) + PackItems(level, items[1..])
  {
  }

  /** Every item takes two bytes or more, so neither level ends before the last one. */
  lemma ItemIsLong(level: nat, item: Item)
    requires Writable(level, item)
    ensures |PackItem(level, item)| >= 2
  {
  }

  /** From any item on, the decode goes on to the end of what the items mean. */
  lemma {:induction false} ItemsDecode(block: seq<byte>, level: nat, ip: nat, items: seq<Item>, out: seq<byte>, at: nat)
    requires 1 <= level <= 2 && (forall k :: 0 <= k < |items| ==> Writable(level, items[k]))
    requires At(block, ip, PackItems(level, items)) && ip + |PackItems(level, items)| == |block|
    requires at <= |out| && Means(items, out, at)
    ensures FastLz.AtBoundary(block, level, |out|, ip, out[..at]) == FastLz.Whole(out)
    decreases |items|
  {
    hide PackItem, PackItems, FastLz.ReadToken, At;
    if items == [] {
      assert PackItems(level, items) == [] by { NoItems(level); }
      assert out[..at] == out;
    } else {
      RestOf(level, items);
      AtBoth(block, ip, PackItem(level, items[0]), PackItems(level, items[1..]));
      ItemIsLong(level, items[0]);
      ItemDecodes(block, level, ip, items[0], out, at);
      var next := ip + |PackItem(level, items[0])|;
      match items[0]
      case Run(bytes) => ItemsDecode(block, level, next, items[1..], out, at + |bytes|);
      case Copy(distance, count) => ItemsDecode(block, level, next, items[1..], out, at + count);
    }
  }

  lemma NoItems(level: nat)
    ensures PackItems(level, []) == []
  {
  }

  function Size(item: Item): nat
  {
    match item
    case Run(bytes) => |bytes|
    case Copy(_, count) => count
  }

  predicate MeansHere(item: Item, out: seq<byte>, at: nat)
  {
    at + Size(item) <= |out|
    && match item
       case Run(bytes) => out[at..at + |bytes|] == bytes
       case Copy(distance, count) => 1 <= distance <= at && forall i :: at <= i < at + count ==> out[i] == out[i - distance]
  }

  lemma ItemDecodes(block: seq<byte>, level: nat, ip: nat, item: Item, out: seq<byte>, at: nat)
    requires 1 <= level <= 2 && Writable(level, item) && At(block, ip, PackItem(level, item)) && MeansHere(item, out, at)
    ensures ip + |PackItem(level, item)| <= |block|
    ensures FastLz.AtBoundary(block, level, |out|, ip, out[..at])
         == FastLz.AtBoundary(block, level, |out|, ip + |PackItem(level, item)|, out[..at + Size(item)])
  {
    hide FastLz.AtBoundary, FastLz.ReadToken, FastLz.Expand, PackItem, At;
    match item
    case Run(bytes) => RunItem(block, level, ip, bytes, out, at);
    case Copy(distance, count) =>
      ItemIsLong(level, item);
      CopyReads(block, level, ip, distance, count);
      CopyExpands(out, at, distance, count);
      MatchDecodes(block, level, ip, ip + |PackItem(level, item)|, distance, count, |out|, out[..at]);
  }

  lemma RunItem(block: seq<byte>, level: nat, ip: nat, bytes: seq<byte>, out: seq<byte>, at: nat)
    requires 1 <= level <= 2 && Writable(level, Run(bytes)) && At(block, ip, PackItem(level, Run(bytes))) && MeansHere(Run(bytes), out, at)
    ensures ip + |PackItem(level, Run(bytes))| <= |block|
    ensures FastLz.AtBoundary(block, level, |out|, ip, out[..at])
         == FastLz.AtBoundary(block, level, |out|, ip + |PackItem(level, Run(bytes))|, out[..at + |bytes|])
  {
    hide *;
    RunParts(block, level, ip, bytes, out, at);
    RunDecodes(block, level, ip, |bytes|, |out|, out[..at]);
  }

  lemma RunParts(block: seq<byte>, level: nat, ip: nat, bytes: seq<byte>, out: seq<byte>, at: nat)
    requires 1 <= level <= 2 && Writable(level, Run(bytes)) && At(block, ip, PackItem(level, Run(bytes))) && MeansHere(Run(bytes), out, at)
    ensures 1 <= |bytes| <= 32 && |PackItem(level, Run(bytes))| == 1 + |bytes| && at + |bytes| <= |out|
    ensures ip + 1 + |bytes| <= |block| && block[ip] == |bytes| - 1 && block[ip + 1..ip + 1 + |bytes|] == bytes
    ensures out[..at] + bytes == out[..at + |bytes|]
  {
    AtBoth(block, ip, [|bytes| - 1], bytes);
    AtByte(block, ip, |bytes| - 1);
  }

  lemma MatchDecodes(block: seq<byte>, level: nat, ip: nat, next: nat, distance: nat, count: nat, padded: nat, out: seq<byte>)
    requires 1 <= level <= 2 && ip + 2 <= |block| && 1 <= distance <= |out| && |out| + count <= padded
    requires FastLz.ReadToken(block, level, block[ip], ip + 1) == FastLz.Match(count, distance, next)
    ensures next <= |block|
    ensures FastLz.AtBoundary(block, level, padded, ip, out)
         == FastLz.AtBoundary(block, level, padded, next, FastLz.Expand(out, distance, count))
  {
    hide FastLz.ReadToken;
    assert FastLz.AtBoundary(block, level, padded, ip, out) == FastLz.AtControl(block, level, padded, block[ip], ip + 1, out);
  }

  lemma RunDecodes(block: seq<byte>, level: nat, ip: nat, count: nat, padded: nat, out: seq<byte>)
    requires 1 <= level <= 2 && 1 <= count <= 32 && ip + 1 + count <= |block| && block[ip] == count - 1 && |out| + count <= padded
    ensures FastLz.AtBoundary(block, level, padded, ip, out)
         == FastLz.AtBoundary(block, level, padded, ip + 1 + count, out + block[ip + 1..ip + 1 + count])
  {
    hide FastLz.LengthEscape;
    FirstRunDecodes(block, level, ip + 1, count, padded, out);
  }

  lemma FirstRunDecodes(block: seq<byte>, level: nat, ip: nat, count: nat, padded: nat, out: seq<byte>)
    requires 1 <= count <= 32 && ip + count <= |block| && |out| + count <= padded
    ensures FastLz.AtControl(block, level, padded, count - 1, ip, out)
         == FastLz.AtBoundary(block, level, padded, ip + count, out + block[ip..ip + count])
  {
    hide FastLz.LengthEscape;
    assert FastLz.ReadToken(block, level, count - 1, ip) == FastLz.Literal(count);
  }

  /** A packed block decodes to what its items mean, at either level. */
  lemma PackedDecodes(level: nat, items: seq<Item>, out: seq<byte>)
    requires Packable(level, items) && Means(items, out, 0)
    ensures FastLz.Decode(Pack(level, items), |out|) == FastLz.Whole(out)
  {
    hide *;
    PackParts(level, items, |out|);
    MeansFirst(items, out);
    var block, n := Pack(level, items), |items[0].bytes|;
    assert [] + items[0].bytes == out[..n];
    FirstRunDecodes(block, level, 1, n, |out|, []);
    ItemsDecode(block, level, 1 + n, items[1..], out, n);
  }

  /** The header, the first run and the place of the other items. */
  lemma PackParts(level: nat, items: seq<Item>, padded: nat)
    requires Packable(level, items)
    ensures 1 <= level <= 2 && items != [] && items[0].Run? && forall k :: 0 <= k < |items[1..]| ==> Writable(level, items[1..][k])
    ensures var (block, bytes) := (Pack(level, items), items[0].bytes);
            var rest := PackItems(level, items[1..]);
            && 1 <= |bytes| <= 32 && 1 + |bytes| + |rest| == |block| && block[1..1 + |bytes|] == bytes && At(block, 1 + |bytes|, rest)
            && FastLz.Decode(block, padded) == FastLz.AtControl(block, level, padded, |bytes| - 1, 1, [])
  {
    hide PackItems, FastLz.AtControl, FastLz.Level;
    var (block, bytes) := (Pack(level, items), items[0].bytes);
    FirstByte(level, |bytes| - 1);
    assert block[1..1 + |bytes|] == bytes && block[1 + |bytes|..] == PackItems(level, items[1..]);
  }

  lemma MeansFirst(items: seq<Item>, out: seq<byte>)
    requires items != [] && items[0].Run? && Means(items, out, 0)
    ensures var n := |items[0].bytes|; n <= |out| && out[..n] == items[0].bytes && Means(items[1..], out, n)
  {
  }

  lemma FirstByte(level: nat, low: nat)
    requires 1 <= level <= 2 && low < 32
    ensures var first := (level - 1) * 32 + low; FastLz.Level(first) == level && first % 32 == low
  {
  }

  /** Every read inside the logical bytes succeeds, and returns that slice of what the items mean. */
  lemma PackedReads(level: nat, items: seq<Item>, out: seq<byte>, logical: nat, offset: nat, count: nat)
    requires Packable(level, items) && Means(items, out, 0) && |out| == FastLz.Padded(logical)
    ensures var whole := FastLz.Decode(Pack(level, items), FastLz.Padded(logical));
            && (FastLzStream.Readable(whole, logical, offset, count) <==> offset + count <= logical)
            && whole.out == out
  {
    PackedDecodes(level, items, out);
  }

  // ---- every block that decodes is a packed one

  lemma {:induction false} ChainWrites(block: seq<byte>, ip: nat)
    requires FastLz.Extension(block, ip).Some?
    ensures var (sum, next) := FastLz.Extension(block, ip).value; block[ip..next] == Chain(sum)
    decreases |block| - ip
  {
    if block[ip] == 255 {
      ChainWrites(block, ip + 1);
      var (sum, next) := FastLz.Extension(block, ip + 1).value;
      assert block[ip..next] == [255] + block[ip + 1..next];
    } else {
      assert block[ip..ip + 1] == [block[ip]];
    }
  }

  lemma CountWrites(block: seq<byte>, level: nat, field: nat, ip: nat)
    requires 1 <= level <= 2 && field <= 6 && ip <= |block| && FastLz.LengthEscape(block, level, field, ip).Some?
    ensures var (extra, at) := FastLz.LengthEscape(block, level, field, ip).value;
            var count := field + extra + 3;
            && (level == 1 ==> count <= 264) && CountBits(count) == field + 1 && block[ip..at] == LongCount(level, count)
  {
    hide Chain;
    if field == 6 && level == 2 { ChainWrites(block, ip); }
  }

  lemma OperandWrites(block: seq<byte>, level: nat, low: nat, at: nat)
    requires 1 <= level <= 2 && low < 32 && at < |block|
    ensures var far := level == 2 && block[at] == 255 && low == 31;
            && (far && at + 3 <= |block| ==>
                  var distance := FastLz.FarDistance(block[at + 1], block[at + 2]);
                  8192 <= distance <= 73727 && Low(level, distance) == low && block[at..at + 3] == Operand(level, distance))
            && (!far ==>
                  var distance := low * 256 + block[at] + 1;
                  && (if level == 1 then distance <= 8192 else distance < 8192)
                  && Low(level, distance) == low && block[at..at + 1] == Operand(level, distance))
  {
  }

  /** The parts of a match token. */
  lemma TokenParts(block: seq<byte>, level: nat, ctrl: byte, ip: nat)
    requires ip <= |block| && FastLz.ReadToken(block, level, ctrl, ip).Match?
    ensures ctrl >= 32 && FastLz.LengthEscape(block, level, ctrl / 32 - 1, ip).Some?
    ensures var token, escape := FastLz.ReadToken(block, level, ctrl, ip), FastLz.LengthEscape(block, level, ctrl / 32 - 1, ip).value;
            var at := escape.1;
            && token.count == ctrl / 32 - 1 + escape.0 + 3 && ip <= at < |block|
            && if level == 2 && block[at] == 255 && ctrl % 32 == 31
               then at + 3 <= |block| && token.distance == FastLz.FarDistance(block[at + 1], block[at + 2]) && token.next == at + 3
               else token.distance == ctrl % 32 * 256 + block[at] + 1 && token.next == at + 1
  {
    hide FastLz.LengthEscape, FastLz.FarDistance;
  }

  /** A match token is written as its count and distance. */
  lemma MatchWrites(block: seq<byte>, level: nat, ip: nat)
    requires 1 <= level <= 2 && ip < |block| && FastLz.ReadToken(block, level, block[ip], ip + 1).Match?
    ensures var token := FastLz.ReadToken(block, level, block[ip], ip + 1);
            var item := Copy(token.distance, token.count);
            Writable(level, item) && block[ip..token.next] == PackItem(level, item)
  {
    hide Chain, LongCount, Operand, FastLz.LengthEscape, FastLz.FarDistance, FastLz.ReadToken, Low, CountBits;
    var ctrl := block[ip];
    var token := FastLz.ReadToken(block, level, ctrl, ip + 1);
    TokenParts(block, level, ctrl, ip + 1);
    var at := FastLz.LengthEscape(block, level, ctrl / 32 - 1, ip + 1).value.1;
    CountWrites(block, level, ctrl / 32 - 1, ip + 1);
    OperandWrites(block, level, ctrl % 32, at);
    CopyIsWritten(block, level, ip, at, token.next, token.distance, token.count);
  }

  /** The control byte, the count and the operand make the item. */
  lemma CopyIsWritten(block: seq<byte>, level: nat, ip: nat, at: nat, next: nat, distance: nat, count: nat)
    requires Writable(level, Copy(distance, count)) && ip < at <= next <= |block|
    requires block[ip] / 32 == CountBits(count) && block[ip] % 32 == Low(level, distance)
    requires block[ip + 1..at] == LongCount(level, count) && block[at..next] == Operand(level, distance)
    ensures block[ip..next] == PackItem(level, Copy(distance, count))
  {
    hide LongCount, Operand, Low, CountBits;
    assert block[ip] == block[ip] / 32 * 32 + block[ip] % 32;
    assert block[ip..next] == [block[ip]] + (block[ip + 1..at] + block[at..next]);
  }

  predicate Repeats(out: seq<byte>, from: nat, to: nat, distance: nat)
    requires distance <= from && to <= |out|
  {
    forall i :: from <= i < to ==> out[i] == out[i - distance]
  }

  lemma {:induction false} ExpandRepeats(out: seq<byte>, distance: nat, count: nat)
    requires 1 <= distance <= |out|
    ensures Repeats(FastLz.Expand(out, distance, count), |out|, |out| + count, distance)
    decreases count
  {
    if count > 0 {
      var at := |out|;
      var more := out + [out[at - distance]];
      ExpandRepeats(more, distance, count - 1);
      RepeatsOnce(FastLz.Expand(more, distance, count - 1), more, at, count, distance);
    }
  }

  lemma RepeatsOnce(r: seq<byte>, more: seq<byte>, at: nat, count: nat, distance: nat)
    requires count > 0 && 1 <= distance <= at && |more| == at + 1 && |r| == at + count && more <= r
    requires more[at] == more[at - distance] && Repeats(r, at + 1, at + count, distance)
    ensures Repeats(r, at, at + count, distance)
  {
    assert r[at] == more[at] && r[at - distance] == more[at - distance];
  }

  /** One more item in front. */
  lemma ItemInFront(block: seq<byte>, level: nat, ip: nat, next: nat, item: Item, rest: seq<Item>, out: seq<byte>, at: nat)
    requires ip <= next <= |block| && Writable(level, item) && block[ip..next] == PackItem(level, item) && MeansHere(item, out, at)
    requires (forall k :: 0 <= k < |rest| ==> Writable(level, rest[k])) && block[next..] == PackItems(level, rest)
    requires Means(rest, out, at + Size(item))
    ensures forall k :: 0 <= k < |[item] + rest| ==> Writable(level, ([item] + rest)[k])
    ensures block[ip..] == PackItems(level, [item] + rest) && Means([item] + rest, out, at)
  {
    hide PackItem, Writable;
    assert ([item] + rest)[1..] == rest && block[ip..] == block[ip..next] + block[next..];
  }

  lemma {:induction false} BoundaryUnpacks(block: seq<byte>, level: nat, padded: nat, ip: nat, out: seq<byte>) returns (items: seq<Item>)
    requires 1 <= level <= 2 && ip <= |block| && FastLz.AtBoundary(block, level, padded, ip, out).Whole?
    ensures forall k :: 0 <= k < |items| ==> Writable(level, items[k])
    ensures block[ip..] == PackItems(level, items)
    ensures Means(items, FastLz.AtBoundary(block, level, padded, ip, out).out, |out|)
    decreases |block| - ip
  {
    hide FastLz.ReadToken, FastLz.AtBoundary, PackItem, PackItems, Means, Writable, FastLz.Expand;
    var whole := FastLz.AtBoundary(block, level, padded, ip, out).out;
    if FastLz.Ended(level, ip, |block|) {
      items := [];
      EndUnpacks(block, level, padded, ip, out);
    } else {
      BoundaryParts(block, level, padded, ip, out);
      var token := FastLz.ReadToken(block, level, block[ip], ip + 1);
      match token
      case Literal(count) =>
        var bytes := block[ip + 1..ip + 1 + count];
        LiteralIsRun(block, level, ip, count);
        var rest := BoundaryUnpacks(block, level, padded, ip + 1 + count, out + bytes);
        assert whole[|out|..|out| + count] == bytes;
        ItemInFront(block, level, ip, ip + 1 + count, Run(bytes), rest, whole, |out|);
        items := [Run(bytes)] + rest;
      case Match(count, distance, next) =>
        MatchWrites(block, level, ip);
        ExpandRepeats(out, distance, count);
        var grown := FastLz.Expand(out, distance, count);
        var rest := BoundaryUnpacks(block, level, padded, next, grown);
        assert grown <= whole;
        ItemInFront(block, level, ip, next, Copy(distance, count), rest, whole, |out|);
        items := [Copy(distance, count)] + rest;
    }
  }

  lemma EndUnpacks(block: seq<byte>, level: nat, padded: nat, ip: nat, out: seq<byte>)
    requires ip <= |block| && FastLz.Ended(level, ip, |block|) && FastLz.AtBoundary(block, level, padded, ip, out).Whole?
    ensures block[ip..] == PackItems(level, []) && Means([], FastLz.AtBoundary(block, level, padded, ip, out).out, |out|)
  {
  }

  /** The token at a boundary, and the decode behind it. */
  lemma BoundaryParts(block: seq<byte>, level: nat, padded: nat, ip: nat, out: seq<byte>)
    requires ip <= |block| && 1 <= level && !FastLz.Ended(level, ip, |block|) && FastLz.AtBoundary(block, level, padded, ip, out).Whole?
    ensures ip < |block|
    ensures var whole := FastLz.AtBoundary(block, level, padded, ip, out);
            match FastLz.ReadToken(block, level, block[ip], ip + 1)
            case Malformed => false
            case Literal(count) =>
              && ip + 1 + count <= |block|
              && whole == FastLz.AtBoundary(block, level, padded, ip + 1 + count, out + block[ip + 1..ip + 1 + count])
            case Match(count, distance, next) =>
              && 1 <= distance <= |out| && ip + 1 < next <= |block|
              && whole == FastLz.AtBoundary(block, level, padded, next, FastLz.Expand(out, distance, count))
  {
    hide FastLz.ReadToken, FastLz.Expand;
    var token := FastLz.ReadToken(block, level, block[ip], ip + 1);
    assert FastLz.AtBoundary(block, level, padded, ip, out) == FastLz.AtControl(block, level, padded, block[ip], ip + 1, out);
    if token.Literal? && token.count + |out| <= padded {
      assert FastLz.AtControl(block, level, padded, block[ip], ip + 1, out) == FastLz.InLiteral(block, level, padded, ip + 1, token.count, out);
    }
  }

  lemma LiteralIsRun(block: seq<byte>, level: nat, ip: nat, count: nat)
    requires ip < |block| && FastLz.ReadToken(block, level, block[ip], ip + 1) == FastLz.Literal(count) && ip + 1 + count <= |block|
    ensures 1 <= count <= 32 && block[ip] == count - 1 && Writable(level, Run(block[ip + 1..ip + 1 + count]))
    ensures block[ip..ip + 1 + count] == PackItem(level, Run(block[ip + 1..ip + 1 + count]))
  {
    hide FastLz.LengthEscape;
  }

  /** A block decodes whole exactly when it is packed from items that mean what it decodes to. */
  lemma WholeIsPacked(block: seq<byte>, out: seq<byte>)
    ensures FastLz.Decode(block, |out|) == FastLz.Whole(out) <==> exists level, items :: PackedFrom(block, out, level, items)
  {
    hide FastLz.Decode, PackedFrom;
    if FastLz.Decode(block, |out|) == FastLz.Whole(out) {
      var level, items := Unpack(block, out);
      assert PackedFrom(block, out, level, items);
    }
    if level, items :| PackedFrom(block, out, level, items) { PackedFromDecodes(block, out, level, items); }
  }

  ghost predicate PackedFrom(block: seq<byte>, out: seq<byte>, level: nat, items: seq<Item>)
  {
    Packable(level, items) && Means(items, out, 0) && block == Pack(level, items)
  }

  lemma PackedFromDecodes(block: seq<byte>, out: seq<byte>, level: nat, items: seq<Item>)
    requires PackedFrom(block, out, level, items)
    ensures FastLz.Decode(block, |out|) == FastLz.Whole(out)
  {
    PackedDecodes(level, items, out);
  }

  lemma Unpack(block: seq<byte>, out: seq<byte>) returns (level: nat, items: seq<Item>)
    requires FastLz.Decode(block, |out|) == FastLz.Whole(out)
    ensures PackedFrom(block, out, level, items)
  {
    hide FastLz.AtBoundary, PackItems, Means;
    level := FastLz.Level(block[0]);
    var n := block[0] % 32 + 1;
    FirstLiteral(block, level, n, |out|);
    var bytes := block[1..1 + n];
    assert [] + bytes == bytes;
    var rest := BoundaryUnpacks(block, level, |out|, 1 + n, bytes);
    items := [Run(bytes)] + rest;
    MeansWithFirst(bytes, rest, out);
    FirstOfLevel(block[0]);
    assert items[1..] == rest;
    assert block == [block[0]] + (bytes + block[1 + n..]);
  }

  lemma FirstOfLevel(first: byte)
    requires FastLz.Level(first) <= 2
    ensures first == (FastLz.Level(first) - 1) * 32 + first % 32 && 1 <= FastLz.Level(first)
  {
  }

  lemma FirstLiteral(block: seq<byte>, level: nat, n: nat, padded: nat)
    requires |block| >= 2 && level == FastLz.Level(block[0]) && n == block[0] % 32 + 1
    requires FastLz.Decode(block, padded).Whole?
    ensures level <= 2 && n <= 32 && 1 + n <= |block|
    ensures FastLz.Decode(block, padded) == FastLz.AtBoundary(block, level, padded, 1 + n, [] + block[1..1 + n])
  {
    hide FastLz.LengthEscape, FastLz.AtBoundary;
    assert FastLz.ReadToken(block, level, n - 1, 1) == FastLz.Literal(n);
    assert FastLz.Decode(block, padded) == FastLz.AtControl(block, level, padded, n - 1, 1, []);
    if n <= padded { assert FastLz.Decode(block, padded) == FastLz.InLiteral(block, level, padded, 1, n, []); }
  }

  lemma MeansWithFirst(bytes: seq<byte>, rest: seq<Item>, out: seq<byte>)
    requires bytes <= out && Means(rest, out, |bytes|)
    ensures Means([Run(bytes)] + rest, out, 0)
  {
    assert ([Run(bytes)] + rest)[1..] == rest && out[0..0 + |bytes|] == bytes;
  }

  // ---- what the input checker makes of it

  predicate FarItem(level: nat, item: Item)
  {
    item.Copy? && !Near(level, item.distance)
  }

  lemma ItemWalks(block: seq<byte>, level: nat, ip: nat, item: Item, walked: FastLzChecker.Walked)
    requires 1 <= level <= 2 && Writable(level, item) && At(block, ip, PackItem(level, item))
    ensures ip + |PackItem(level, item)| <= |block|
    ensures FastLzChecker.WalkBoundary(block, level, ip, walked)
         == FastLzChecker.WalkBoundary(block, level, ip + |PackItem(level, item)|,
                                       FastLzChecker.Walked(walked.total + Size(item), FarItem(level, item)))
  {
    hide FastLz.ReadToken, PackItem, At;
    ItemIsLong(level, item);
    match item
    case Run(bytes) => RunWalks(block, level, ip, bytes, walked);
    case Copy(distance, count) =>
      CopyReads(block, level, ip, distance, count);
      assert FastLzChecker.WalkBoundary(block, level, ip, walked)
          == FastLzChecker.WalkControl(block, level, block[ip], ip + 1, walked.total);
  }

  lemma RunWalks(block: seq<byte>, level: nat, ip: nat, bytes: seq<byte>, walked: FastLzChecker.Walked)
    requires 1 <= level <= 2 && Writable(level, Run(bytes)) && At(block, ip, PackItem(level, Run(bytes)))
    ensures ip + |PackItem(level, Run(bytes))| <= |block|
    ensures FastLzChecker.WalkBoundary(block, level, ip, walked)
         == FastLzChecker.WalkBoundary(block, level, ip + |PackItem(level, Run(bytes))|,
                                       FastLzChecker.Walked(walked.total + |bytes|, false))
  {
    hide FastLz.LengthEscape, FastLzChecker.WalkBoundary;
    AtBoth(block, ip, [|bytes| - 1], bytes);
    AtByte(block, ip, |bytes| - 1);
    WalkContinues(block, level, ip, walked);
    assert FastLz.ReadToken(block, level, block[ip], ip + 1) == FastLz.Literal(|bytes|);
  }

  lemma WalkContinues(block: seq<byte>, level: nat, ip: nat, walked: FastLzChecker.Walked)
    requires 1 <= level <= 2 && ip + 2 <= |block|
    ensures FastLzChecker.WalkBoundary(block, level, ip, walked)
         == FastLzChecker.WalkControl(block, level, block[ip], ip + 1, walked.total)
  {
  }

  lemma {:induction false} ItemsWalk(block: seq<byte>, level: nat, ip: nat, items: seq<Item>, walked: FastLzChecker.Walked)
    requires 1 <= level <= 2 && (forall k :: 0 <= k < |items| ==> Writable(level, items[k]))
    requires At(block, ip, PackItems(level, items)) && ip + |PackItems(level, items)| == |block|
    ensures var r := FastLzChecker.WalkBoundary(block, level, ip, walked);
            r.Some? && r.value.far == if items == [] then walked.far else FarItem(level, items[|items| - 1])
    decreases |items|
  {
    hide PackItem, PackItems, FastLzChecker.WalkBoundary, At;
    if items == [] {
      NoItems(level);
      WalkEnds(block, level, walked);
    } else {
      RestOf(level, items);
      AtBoth(block, ip, PackItem(level, items[0]), PackItems(level, items[1..]));
      ItemWalks(block, level, ip, items[0], walked);
      ItemsWalk(block, level, ip + |PackItem(level, items[0])|, items[1..],
                FastLzChecker.Walked(walked.total + Size(items[0]), FarItem(level, items[0])));
    }
  }

  lemma WalkEnds(block: seq<byte>, level: nat, walked: FastLzChecker.Walked)
    requires 1 <= level <= 2
    ensures FastLzChecker.WalkBoundary(block, level, |block|, walked) == Some(walked)
  {
  }

  lemma FirstRunWalks(level: nat, items: seq<Item>)
    requires Packable(level, items)
    ensures var (block, n) := (Pack(level, items), |items[0].bytes|);
            1 + n <= |block| && FastLzChecker.Walk(block) == FastLzChecker.WalkBoundary(block, level, 1 + n, FastLzChecker.Walked(n, false))
  {
    hide PackItems, FastLzChecker.WalkBoundary, FastLz.Level, FastLz.LengthEscape;
    FirstByte(level, |items[0].bytes| - 1);
    var block, n := Pack(level, items), |items[0].bytes|;
    assert FastLz.ReadToken(block, level, n - 1, 1) == FastLz.Literal(n);
  }

  /** The checker accepts a packed block exactly when it does not end in a far match. */
  lemma PackedPasses(level: nat, items: seq<Item>, out: seq<byte>)
    requires Packable(level, items) && Means(items, out, 0)
    ensures FastLzChecker.Passes(FastLzChecker.Walk(Pack(level, items)), |out|) <==> !FarItem(level, items[|items| - 1])
  {
    hide PackItems, Pack, FastLz.Decode, FastLzChecker.Walk, FastLzChecker.WalkBoundary, At, Means, FarItem;
    var block, n := Pack(level, items), |items[0].bytes|;
    PackedDecodes(level, items, out);
    FastLzChecker.DecodesWhole(block, |out|);
    PackParts(level, items, |out|);
    FirstRunWalks(level, items);
    ItemsWalk(block, level, 1 + n, items[1..], FastLzChecker.Walked(n, false));
    RunIsNear(level, items[0]);
  }

  lemma RunIsNear(level: nat, item: Item)
    requires item.Run?
    ensures !FarItem(level, item)
  {
  }
}
