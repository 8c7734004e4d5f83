/** The FastLZ token grammar (levels 1 and 2) as a pure whole-block decoder. */
module FastLz {
  import opened Bytes

  /** One control byte with its operands. `next` is the cursor after a match's operands. */
  datatype Token =
    | Literal(count: nat)
    | Match(count: nat, distance: nat, next: nat)
    | Malformed

  /** Everything a block yields: all of it, or the bytes that precede its first defect. */
  datatype Outcome = Whole(out: seq<byte>) | Broken(out: seq<byte>)

  /** FastLZ never encodes fewer than 16 bytes, so a shorter logical block is padded. */
  function Padded(logical: nat): nat
  {
    if logical < 16 then 16 else logical
  }

  function Level(first: byte): nat
  {
    first / 32 + 1
  }

  /** A level-2 length escape: bytes are summed up to and including the first below 255. */
  function Extension(block: seq<byte>, ip: nat): (r: Option<(nat, nat)>)
    ensures r.Some? ==> ip < r.value.1 <= |block|
    decreases |block| - ip
  {
    if ip >= |block| then None
    else if block[ip] < 255 then Some((block[ip], ip + 1))
    else match Extension(block, ip + 1)
      case None => None
      case Some((sum, next)) => Some((255 + sum, next))
  }

  /** The escape that follows a control byte whose length field is `field`. */
  function LengthEscape(block: seq<byte>, level: nat, field: nat, ip: nat): (r: Option<(nat, nat)>)
    requires ip <= |block|
    ensures r.Some? ==> ip <= r.value.1 <= |block|
  {
    if field != 6 then Some((0, ip))
    else if level == 2 then Extension(block, ip)
    else if ip < |block| then Some((block[ip], ip + 1))
    else None
  }

  function FarDistance(high: int, low: int): int
  {
    high * 256 + low + 8192
  }

  function ReadToken(block: seq<byte>, level: nat, ctrl: byte, ip: nat): (t: Token)
    requires ip <= |block|
    ensures t.Match? ==> ip < t.next <= |block| && 1 <= t.distance <= 73727 && t.count >= 3
    ensures t.Literal? ==> 1 <= t.count <= 32
  {
    if ctrl < 32 then Literal(ctrl + 1)
    else
      var field := ctrl / 32 - 1;
      match LengthEscape(block, level, field, ip)
      case None => Malformed
      case Some((extra, at)) =>
        var high := ctrl % 32 * 256;
        if at >= |block| then Malformed
        else if level == 2 && block[at] == 255 && ctrl % 32 == 31 then
          if at + 3 > |block| then Malformed
          else Match(field + extra + 3, FarDistance(block[at + 1], block[at + 2]), at + 3)
        else Match(field + extra + 3, high + block[at] + 1, at + 1)
  }

  /** LZ77 copy: each byte repeats the one `distance` back, so a match may read what it writes. */
  function Expand(out: seq<byte>, distance: nat, count: nat): (r: seq<byte>)
    requires 1 <= distance <= |out|
    ensures |r| == |out| + count && out <= r
    decreases count
  {
    if count == 0 then out
    else Expand(out + [out[|out| - distance]], distance, count - 1)
  }

  /** Level 1 stops with fewer than two bytes left; level 2 stops at the end of the block. */
  predicate Ended(level: nat, ip: nat, size: nat)
  {
    if level == 1 then ip + 2 > size else ip >= size
  }

  /** The decode from a token boundary at cursor `ip`, with `out` already produced. */
  function AtBoundary(block: seq<byte>, level: nat, padded: nat, ip: nat, out: seq<byte>): (r: Outcome)
    requires ip <= |block|
    ensures out <= r.out
    ensures r.Whole? ==> |r.out| == padded
    decreases |block| - ip, 2
  {
    if Ended(level, ip, |block|) then
      if ip == |block| && |out| == padded then Whole(out) else Broken(out)
    else AtControl(block, level, padded, block[ip], ip + 1, out)
  }

  /** The decode of the control byte `ctrl`, whose operands start at `ip`. */
  function AtControl(block: seq<byte>, level: nat, padded: nat, ctrl: byte, ip: nat, out: seq<byte>): (r: Outcome)
    requires ip <= |block|
    ensures out <= r.out
    ensures r.Whole? ==> |r.out| == padded
    decreases |block| - ip, 1
  {
    match ReadToken(block, level, ctrl, ip)
    case Malformed => Broken(out)
    case Literal(count) => if count + |out| > padded then Broken(out)
                           else InLiteral(block, level, padded, ip, count, out)
    case Match(count, distance, next) =>
      if distance > |out| || count + |out| > padded then Broken(out)
      else AtBoundary(block, level, padded, next, Expand(out, distance, count))
  }

  /** The decode of a literal run of `count` bytes whose first byte is at `ip`. */
  function InLiteral(block: seq<byte>, level: nat, padded: nat, ip: nat, count: nat, out: seq<byte>): (r: Outcome)
    requires ip <= |block|
    ensures out <= r.out
    ensures r.Whole? ==> |r.out| == padded
    decreases |block| - ip, if count == 0 then 3 else 0
  {
    if ip + count > |block| then Broken(out + block[ip..])
    else AtBoundary(block, level, padded, ip + count, out + block[ip..ip + count])
  }

  /** The whole-block decode that every stream read is measured against. */
  function Decode(block: seq<byte>, padded: nat): (r: Outcome)
    ensures r.Whole? ==> |r.out| == padded
  {
    if |block| < 2 || Level(block[0]) > 2 then Broken([])
    else AtControl(block, Level(block[0]), padded, block[0] % 32, 1, [])
  }

  // ---- single-byte steps of the decode

  lemma LiteralStep(block: seq<byte>, level: nat, padded: nat, ip: nat, count: nat, out: seq<byte>)
    requires ip < |block| && count > 0
    ensures InLiteral(block, level, padded, ip, count, out)
         == InLiteral(block, level, padded, ip + 1, count - 1, out + [block[ip]])
  {
    if ip + count > |block| {
      assert out + block[ip..] == out + [block[ip]] + block[ip + 1..];
    } else {
      assert out + block[ip..ip + count] == out + [block[ip]] + block[ip + 1..ip + count];
    }
  }

  lemma LiteralDone(block: seq<byte>, level: nat, padded: nat, ip: nat, out: seq<byte>)
    requires ip <= |block|
    ensures InLiteral(block, level, padded, ip, 0, out) == AtBoundary(block, level, padded, ip, out)
  {
    assert out + block[ip..ip] == out;
  }
}
