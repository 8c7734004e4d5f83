/**
 The walk that proves a FastLZ block is consumed to its last byte before the block is decoded.
 It is stricter than the decoder in one place: a far match may not be the block's last token.
 */
module FastLzChecker {
  import opened Bytes
  import opened FastLz

  /** The bytes a block's tokens produce, and whether its last token is a far match. */
  datatype Walked = Walked(total: nat, far: bool)

  /** Only a level-2 match with two extra operand bytes reaches further back than 8191. */
  predicate IsFar(level: nat, distance: nat)
  {
    level == 2 && distance > 8191
  }

  /** Walks the tokens from a boundary, without producing output or looking at distances. */
  function WalkBoundary(block: seq<byte>, level: nat, ip: nat, walked: Walked): (r: Option<Walked>)
    requires ip <= |block|
    ensures r.Some? ==> r.value.total >= walked.total
    decreases |block| - ip, 1
  {
    if Ended(level, ip, |block|) then if ip == |block| then Some(walked) else None
    else WalkControl(block, level, block[ip], ip + 1, walked.total)
  }

  function WalkControl(block: seq<byte>, level: nat, ctrl: byte, ip: nat, total: nat): (r: Option<Walked>)
    requires ip <= |block|
    ensures r.Some? ==> r.value.total >= total
    decreases |block| - ip, 0
  {
    match ReadToken(block, level, ctrl, ip)
    case Malformed => None
    case Literal(count) => if ip + count > |block| then None
                           else WalkBoundary(block, level, ip + count, Walked(total + count, false))
    case Match(count, distance, next) =>
      WalkBoundary(block, level, next, Walked(total + count, IsFar(level, distance)))
  }

  function Walk(block: seq<byte>): (r: Option<Walked>)
  {
    if |block| == 0 || Level(block[0]) > 2 then None
    else WalkControl(block, Level(block[0]), block[0] % 32, 1, 0)
  }

  /** A complete walk within the output bound that does not end in a far match. */
  predicate Passes(r: Option<Walked>, bound: nat)
  {
    r.Some? && r.value.total <= bound && !r.value.far
  }

  /** The length escape at `ip`: its sum and the cursor after it. */
  method CheckEscape(block: seq<byte>, level: nat, field: nat, at: nat, bound: nat) returns (r: Option<(nat, nat)>)
    requires at <= |block| && 1 <= level <= 2
    ensures var escape := LengthEscape(block, level, field, at);
            match r
            case None => escape.None? || escape.value.1 >= |block| || field + escape.value.0 > bound
            case Some((len, ip)) => len >= field && escape == Some((len - field, ip))
  {
    var len, ip := field, at;
    if len == 6 {
      if level == 2 {
        var code: nat := 255;
        while code == 255
          invariant at <= ip <= |block| && len >= field
          invariant code == 255 ==>
              var rest := Extension(block, ip);
              Extension(block, at) == if rest.None? then None else Some((rest.value.0 + len - field, rest.value.1))
          invariant code != 255 ==> Extension(block, at) == Some((len - field, ip))
          decreases |block| - ip, code
        {
          if ip > |block| - 2 { return None; }
          code := block[ip];
          ip := ip + 1;
          len := len + code;
          if len > bound { return None; }
        }
      } else {
        if ip > |block| - 2 { return None; }
        len := len + block[ip];
        ip := ip + 1;
        if len > bound { return None; }
      }
    }
    return Some((len, ip));
  }

  /** The operands of a match: its count and the cursor after it. */
  method CheckMatch(block: seq<byte>, level: nat, ctrl: byte, at: nat, bound: nat) returns (r: Option<(nat, nat)>)
    requires at <= |block| && 1 <= level <= 2 && ctrl >= 32
    ensures var token := ReadToken(block, level, ctrl, at);
            match r
            case None => token.Malformed? || (token.Match? &&
                         (token.count > bound || (IsFar(level, token.distance) && token.next == |block|)))
            case Some((count, next)) =>
              && token.Match? && token.count == count && token.next == next
              && !(IsFar(level, token.distance) && next == |block|)
  {
    hide Extension;
    var escape := CheckEscape(block, level, ctrl / 32 - 1, at, bound);
    if escape.None? { return None; }
    var (len, ip) := escape.value;
    if ip >= |block| { return None; }
    var code := block[ip];
    ip := ip + 1;
    if level == 2 && code == 255 && ctrl % 32 * 256 == 31 * 256 {
      if ip >= |block| - 2 { return None; }
      ip := ip + 2;
    }
    return Some((len + 3, ip));
  }

  /** The checker: it accepts exactly the blocks whose walk passes. */
  method RequireCompleteInput(block: seq<byte>, bound: nat) returns (ok: bool)
    requires |block| > 0
    ensures ok <==> Passes(Walk(block), bound)
  {
    var level := Level(block[0]);
    if level != 1 && level != 2 { return false; }
    var produced: nat, ip: nat, ctrl := 0, 1, block[0] % 32;
    while true
      invariant 1 <= ip <= |block| && produced <= bound
      invariant Walk(block) == WalkControl(block, level, ctrl, ip, produced)
      decreases |block| - ip
    {
      hide LengthEscape;
      if ctrl >= 32 {
        var m := CheckMatch(block, level, ctrl, ip, bound);
        if m.None? {
          FarTail(block, level, ctrl, ip, produced);
          return false;
        }
        ip, produced := m.value.1, produced + m.value.0;
      } else {
        var run := ctrl + 1;
        if ip + run > |block| { return false; }
        ip, produced := ip + run, produced + run;
      }
      if produced > bound { return false; }
      if if level == 1 then ip > |block| - 2 else ip >= |block| { break; }
      ctrl := block[ip];
      ip := ip + 1;
    }
    return ip == |block|;
  }

  /** A far match whose operands reach the end of the block ends the walk. */
  lemma FarTail(block: seq<byte>, level: nat, ctrl: byte, ip: nat, total: nat)
    requires ip <= |block|
    ensures var token := ReadToken(block, level, ctrl, ip);
            token.Match? && IsFar(level, token.distance) && token.next == |block| ==>
              WalkControl(block, level, ctrl, ip, total) == Some(Walked(total + token.count, true))
  {
  }

  /** Every match of the walk stays within the output that precedes it. */
  predicate InHistoryBoundary(block: seq<byte>, level: nat, ip: nat, total: nat)
    requires ip <= |block|
    decreases |block| - ip, 1
  {
    Ended(level, ip, |block|) || InHistoryControl(block, level, block[ip], ip + 1, total)
  }

  predicate InHistoryControl(block: seq<byte>, level: nat, ctrl: byte, ip: nat, total: nat)
    requires ip <= |block|
    decreases |block| - ip, 0
  {
    match ReadToken(block, level, ctrl, ip)
    case Malformed => true
    case Literal(count) => ip + count > |block| || InHistoryBoundary(block, level, ip + count, total + count)
    case Match(count, distance, next) =>
      distance <= total && InHistoryBoundary(block, level, next, total + count)
  }

  predicate InHistory(block: seq<byte>)
  {
    |block| == 0 || Level(block[0]) > 2 || InHistoryControl(block, Level(block[0]), block[0] % 32, 1, 0)
  }

  lemma {:induction false} BoundaryDecodes(block: seq<byte>, level: nat, padded: nat, ip: nat, out: seq<byte>, far: bool)
    requires ip <= |block|
    ensures var r := WalkBoundary(block, level, ip, Walked(|out|, far));
            AtBoundary(block, level, padded, ip, out).Whole?
            <==> r.Some? && r.value.total == padded && InHistoryBoundary(block, level, ip, |out|)
    decreases |block| - ip, 1
  {
    if !Ended(level, ip, |block|) {
      ControlDecodes(block, level, padded, block[ip], ip + 1, out);
    }
  }

  lemma {:induction false} ControlDecodes(block: seq<byte>, level: nat, padded: nat, ctrl: byte, ip: nat, out: seq<byte>)
    requires ip <= |block|
    ensures var r := WalkControl(block, level, ctrl, ip, |out|);
            AtControl(block, level, padded, ctrl, ip, out).Whole?
            <==> r.Some? && r.value.total == padded && InHistoryControl(block, level, ctrl, ip, |out|)
    decreases |block| - ip, 0
  {
    match ReadToken(block, level, ctrl, ip)
    case Malformed =>
    case Literal(count) =>
      if ip + count <= |block| {
        BoundaryDecodes(block, level, padded, ip + count, out + block[ip..ip + count], false);
      }
    case Match(count, distance, next) =>
      if distance <= |out| {
        BoundaryDecodes(block, level, padded, next, Expand(out, distance, count), IsFar(level, distance));
      }
  }

  /** A block decodes whole exactly when its walk is complete, exact in size and inside its history. */
  lemma {:induction false} DecodesWhole(block: seq<byte>, padded: nat)
    ensures Decode(block, padded).Whole?
            <==> Walk(block).Some? && Walk(block).value.total == padded && InHistory(block)
  {
    if |block| >= 2 && Level(block[0]) <= 2 {
      ControlDecodes(block, Level(block[0]), padded, block[0] % 32, 1, []);
    }
  }

  /**
   The checker and the stream. A block that passes the checker with the right size and distances
   streams whole; a block that streams whole passes the checker unless its last token is a far match.
   */
  lemma CheckedBlocksStream(block: seq<byte>, padded: nat)
    ensures Passes(Walk(block), padded) && Walk(block).value.total == padded && InHistory(block)
            ==> Decode(block, padded).Whole?
    ensures Decode(block, padded).Whole? ==>
              Walk(block).Some? && (Passes(Walk(block), padded) <==> !Walk(block).value.far)
  {
    DecodesWhole(block, padded);
  }

  lemma {:induction false} FullEscapeBytes(block: seq<byte>, ip: nat, count: nat)
    requires ip + count < |block| && block[ip + count] < 255
    requires forall i :: ip <= i < ip + count ==> block[i] == 255
    ensures Extension(block, ip) == Some((255 * count + block[ip + count], ip + count + 1))
    decreases count
  {
    if count > 0 { FullEscapeBytes(block, ip + 1, count - 1); }
  }

  /** A block that streams whole and that the checker rejects: a literal, a long run, a far match. */
  lemma SpareByteWitness() returns (block: seq<byte>)
    ensures Decode(block, 8203).Whole? && !Passes(Walk(block), 8203)
  {
    block := [0x20, 0x41, 0xE0] + seq(32, _ => 255) + [30, 0] + [0x3F, 255, 0, 0];
    FullEscapeBytes(block, 3, 32);
    assert LengthEscape(block, 2, 6, 3) == Some((8190, 36));
    assert ReadToken(block, 2, 0xE0, 3) == Match(8199, 1, 37);
    assert ReadToken(block, 2, 0x3F, 38) == Match(3, 8192, 41);
    assert WalkControl(block, 2, 0x3F, 38, 8200) == Some(Walked(8203, true));
    assert WalkBoundary(block, 2, 37, Walked(8200, false)) == Some(Walked(8203, true));
    assert WalkControl(block, 2, 0xE0, 3, 1) == Some(Walked(8203, true));
    assert WalkBoundary(block, 2, 2, Walked(1, false)) == Some(Walked(8203, true));
    assert WalkControl(block, 2, 0, 1, 0) == Some(Walked(8203, true));
    assert InHistoryBoundary(block, 2, 37, 8200);
    assert InHistoryBoundary(block, 2, 2, 1);
    assert InHistoryControl(block, 2, 0, 1, 0);
    DecodesWhole(block, 8203);
  }
}
