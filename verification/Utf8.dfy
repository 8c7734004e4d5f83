/** UTF-8 (RFC 3629, section 4): the validator of resource strings and the encoder of escape sequences. */
module Utf8 {
  import opened Bytes

  /** A Unicode scalar value: any code point but a surrogate. */
  predicate Scalar(cp: int)
  {
    0 <= cp <= 0x10FFFF && !(0xD800 <= cp <= 0xDFFF)
  }

  function Encode(cp: int): (r: seq<byte>)
    requires Scalar(cp)
    ensures 1 <= |r| <= 4
  {
    if cp < 0x80 then [cp]
    else if cp < 0x800 then [0xC0 + cp / 64, 0x80 + cp % 64]
    else if cp < 0x1_0000 then [0xE0 + cp / 4096, 0x80 + cp / 64 % 64, 0x80 + cp % 64]
    else [0xF0 + cp / 262144, 0x80 + cp / 4096 % 64, 0x80 + cp / 64 % 64, 0x80 + cp % 64]
  }

  predicate AllScalar(cps: seq<int>)
  {
    forall i :: 0 <= i < |cps| ==> Scalar(cps[i])
  }

  function EncodeAll(cps: seq<int>): seq<byte>
    requires AllScalar(cps)
  {
    if cps == [] then [] else Encode(cps[0]) + EncodeAll(cps[1..])
  }

  /** What a lead byte announces: the continuation bytes that follow, its own bits, and the least code point. */
  datatype Lead = Lead(count: nat, bits: int, minimum: int) | BadLead

  function ReadLead(lead: byte): (r: Lead)
    ensures r.Lead? ==> r.count <= 3
  {
    if lead < 0x80 then Lead(0, lead, 0)
    else if lead / 32 == 6 then Lead(1, lead % 32, 0x80)
    else if lead / 16 == 14 then Lead(2, lead % 16, 0x800)
    else if lead / 8 == 30 then Lead(3, lead % 8, 0x1_0000)
    else BadLead
  }

  predicate IsContinuation(b: byte)
  {
    b / 64 == 2
  }

  /** Appends the six bits of each of `count` continuation bytes, or fails at the first other byte. */
  function Gather(bytes: seq<byte>, at: nat, count: nat, cp: int): Option<int>
    requires at + count <= |bytes|
    decreases count
  {
    if count == 0 then Some(cp)
    else if !IsContinuation(bytes[at]) then None
    else Gather(bytes, at + 1, count - 1, cp * 64 + bytes[at] % 64)
  }

  /** The code point at `at` and the cursor after it, or None when the sequence there is malformed. */
  function DecodeOne(bytes: seq<byte>, at: nat): (r: Option<(int, nat)>)
    requires at < |bytes|
    ensures r.Some? ==> at < r.value.1 <= |bytes|
  {
    match ReadLead(bytes[at])
    case BadLead => None
    case Lead(count, bits, minimum) =>
      if |bytes| - at <= count then None
      else match Gather(bytes, at + 1, count, bits)
        case None => None
        case Some(cp) => if cp < minimum || !Scalar(cp) then None else Some((cp, at + count + 1))
  }

  function DecodeFrom(bytes: seq<byte>, at: nat): Option<seq<int>>
    requires at <= |bytes|
    decreases |bytes| - at
  {
    if at == |bytes| then Some([])
    else match DecodeOne(bytes, at)
      case None => None
      case Some((cp, next)) =>
        match DecodeFrom(bytes, next)
        case None => None
        case Some(rest) => Some([cp] + rest)
  }

  predicate WellFormed(bytes: seq<byte>)
  {
    DecodeFrom(bytes, 0).Some?
  }

  // ---- one code point

  /** The six-bit digits of a combined code point. */
  lemma Digits2(b: int, c: int)
    requires 0 <= b && 0 <= c < 64
    ensures var cp := b * 64 + c; cp / 64 == b && cp % 64 == c
  {
  }

  lemma Digits3(b: int, c: int, d: int)
    requires 0 <= b && 0 <= c < 64 && 0 <= d < 64
    ensures var cp := (b * 64 + c) * 64 + d; cp / 4096 == b && cp / 64 % 64 == c && cp % 64 == d
  {
    Digits2(b * 64 + c, d);
    Digits2(b, c);
  }

  lemma Digits4(b: int, c: int, d: int, e: int)
    requires 0 <= b && 0 <= c < 64 && 0 <= d < 64 && 0 <= e < 64
    ensures var cp := ((b * 64 + c) * 64 + d) * 64 + e;
            cp / 262144 == b && cp / 4096 % 64 == c && cp / 64 % 64 == d && cp % 64 == e
  {
    Digits3(b * 64 + c, d, e);
    Digits2(b, c);
  }

  function Low(b: byte): (r: int)
    ensures 0 <= r < 64
  {
    b % 64
  }

  lemma Gather1(bytes: seq<byte>, at: nat, cp: int)
    requires at + 1 <= |bytes|
    ensures Gather(bytes, at, 1, cp)
         == if IsContinuation(bytes[at]) then Some(cp * 64 + Low(bytes[at])) else None
  {
    assert Gather(bytes, at + 1, 0, cp * 64 + bytes[at] % 64).Some?;
  }

  lemma Gather2(bytes: seq<byte>, at: nat, cp: int)
    requires at + 2 <= |bytes|
    ensures Gather(bytes, at, 2, cp)
         == if IsContinuation(bytes[at]) && IsContinuation(bytes[at + 1])
            then Some((cp * 64 + Low(bytes[at])) * 64 + Low(bytes[at + 1])) else None
  {
    if IsContinuation(bytes[at]) { Gather1(bytes, at + 1, cp * 64 + Low(bytes[at])); }
  }

  lemma Gather3(bytes: seq<byte>, at: nat, cp: int)
    requires at + 3 <= |bytes|
    ensures Gather(bytes, at, 3, cp)
         == if IsContinuation(bytes[at]) && IsContinuation(bytes[at + 1]) && IsContinuation(bytes[at + 2])
            then Some(((cp * 64 + Low(bytes[at])) * 64 + Low(bytes[at + 1])) * 64 + Low(bytes[at + 2])) else None
  {
    if IsContinuation(bytes[at]) { Gather2(bytes, at + 1, cp * 64 + Low(bytes[at])); }
  }

  lemma Gather0(bytes: seq<byte>, at: nat, cp: int)
    requires at <= |bytes|
    ensures Gather(bytes, at, 0, cp) == Some(cp)
  {
  }

  lemma DecodedIsEncoded(bytes: seq<byte>, at: nat)
    requires at < |bytes| && DecodeOne(bytes, at).Some?
    ensures var (cp, next) := DecodeOne(bytes, at).value;
            Scalar(cp) && bytes[at..next] == Encode(cp)
  {
    hide Gather;
    var (cp, next) := DecodeOne(bytes, at).value;
    var bits := ReadLead(bytes[at]).bits;
    if next == at + 1 {
      Gather0(bytes, at + 1, bits);
    } else if next == at + 2 {
      Gather1(bytes, at + 1, bits);
      Digits2(bits, Low(bytes[at + 1]));
      assert Encode(cp) == [bytes[at], bytes[at + 1]];
    } else if next == at + 3 {
      Gather2(bytes, at + 1, bits);
      Digits3(bits, Low(bytes[at + 1]), Low(bytes[at + 2]));
      assert Encode(cp) == [bytes[at], bytes[at + 1], bytes[at + 2]];
    } else {
      Gather3(bytes, at + 1, bits);
      Digits4(bits, Low(bytes[at + 1]), Low(bytes[at + 2]), Low(bytes[at + 3]));
      assert Encode(cp) == [bytes[at], bytes[at + 1], bytes[at + 2], bytes[at + 3]];
    }
  }

  /** A continuation byte carries its six bits. */
  lemma ContinuationOf(d: int)
    requires 0 <= d < 64
    ensures IsContinuation(0x80 + d) && Low(0x80 + d) == d
  {
  }

  /** Each lead byte announces its own length and carries the top bits. */
  lemma LeadOf(cp: int)
    requires Scalar(cp)
    ensures ReadLead(Encode(cp)[0])
         == if cp < 0x80 then Lead(0, cp, 0)
            else if cp < 0x800 then Lead(1, cp / 64, 0x80)
            else if cp < 0x1_0000 then Lead(2, cp / 4096, 0x800)
            else Lead(3, cp / 262144, 0x1_0000)
  {
  }

  lemma Recombine(cp: nat)
    ensures cp / 64 * 64 + cp % 64 == cp
    ensures cp / 4096 * 64 + cp / 64 % 64 == cp / 64
    ensures cp / 262144 * 64 + cp / 4096 % 64 == cp / 4096
  {
  }

  lemma EncodedIsDecoded(bytes: seq<byte>, at: nat, cp: int)
    requires Scalar(cp) && at + |Encode(cp)| <= |bytes| && bytes[at..at + |Encode(cp)|] == Encode(cp)
    ensures DecodeOne(bytes, at) == Some((cp, at + |Encode(cp)|))
  {
    hide Gather, ReadLead, IsContinuation, Low;
    var e := Encode(cp);
    assert bytes[at] == e[0];
    LeadOf(cp);
    Recombine(cp);
    ContinuationOf(cp % 64);
    ContinuationOf(cp / 64 % 64);
    ContinuationOf(cp / 4096 % 64);
    if |e| == 1 {
      Gather0(bytes, at + 1, cp);
    } else if |e| == 2 {
      assert bytes[at + 1] == e[1];
      Gather1(bytes, at + 1, cp / 64);
    } else if |e| == 3 {
      assert bytes[at + 1] == e[1] && bytes[at + 2] == e[2];
      Gather2(bytes, at + 1, cp / 4096);
    } else {
      assert bytes[at + 1] == e[1] && bytes[at + 2] == e[2] && bytes[at + 3] == e[3];
      Gather3(bytes, at + 1, cp / 262144);
    }
  }

  // ---- whole strings

  lemma {:induction false} DecodedAll(bytes: seq<byte>, at: nat)
    requires at <= |bytes| && DecodeFrom(bytes, at).Some?
    ensures var cps := DecodeFrom(bytes, at).value;
            AllScalar(cps) && bytes[at..] == EncodeAll(cps)
    decreases |bytes| - at
  {
    hide Encode, DecodeOne, Scalar;
    if at < |bytes| {
      var (cp, next) := DecodeOne(bytes, at).value;
      DecodedIsEncoded(bytes, at);
      DecodedAll(bytes, next);
      assert bytes[at..] == bytes[at..next] + bytes[next..];
      var cps := DecodeFrom(bytes, at).value;
      assert cps[0] == cp && cps[1..] == DecodeFrom(bytes, next).value;
    }
  }

  lemma {:induction false} EncodedAll(bytes: seq<byte>, at: nat, cps: seq<int>)
    requires at <= |bytes| && AllScalar(cps) && bytes[at..] == EncodeAll(cps)
    ensures DecodeFrom(bytes, at) == Some(cps)
    decreases |cps|
  {
    hide Encode, DecodeOne, Scalar;
    if cps != [] {
      var e := Encode(cps[0]);
      assert bytes[at..][..|e|] == e && bytes[at..at + |e|] == e;
      EncodedIsDecoded(bytes, at, cps[0]);
      assert bytes[at + |e|..] == bytes[at..][|e|..] == EncodeAll(cps[1..]);
      EncodedAll(bytes, at + |e|, cps[1..]);
      assert [cps[0]] + cps[1..] == cps;
    }
  }

  /** Consumes `count` continuation bytes from `at`. */
  method Continuations(bytes: seq<byte>, at: nat, count: nat, bits: int) returns (cp: Option<int>)
    requires at + count <= |bytes|
    ensures cp == Gather(bytes, at, count, bits)
  {
    var value, offset := bits, 0;
    while offset < count
      invariant offset <= count
      invariant Gather(bytes, at, count, bits) == Gather(bytes, at + offset, count - offset, value)
    {
      var continuation := bytes[at + offset];
      if !IsContinuation(continuation) { return None; }
      value := value * 64 + continuation % 64;
      offset := offset + 1;
    }
    return Some(value);
  }

  /** The validator accepts exactly the concatenations of encoded scalar values. */
  method Validate(bytes: seq<byte>) returns (ok: bool)
    ensures ok <==> exists cps: seq<int> :: AllScalar(cps) && bytes == EncodeAll(cps)
  {
    WellFormedIff(bytes);
    hide Gather, EncodeAll;
    var index := 0;
    while index < |bytes|
      invariant index <= |bytes|
      invariant WellFormed(bytes) <==> DecodeFrom(bytes, index).Some?
    {
      var lead := bytes[index];
      if lead < 0x80 {
        Gather0(bytes, index + 1, lead);
        index := index + 1;
        continue;
      }
      var count: nat, bits: int, minimum := 0, 0, 0;
      if lead / 32 == 6 {
        count, bits, minimum := 1, lead % 32, 0x80;
      } else if lead / 16 == 14 {
        count, bits, minimum := 2, lead % 16, 0x800;
      } else if lead / 8 == 30 {
        count, bits, minimum := 3, lead % 8, 0x1_0000;
      } else {
        return false;
      }
      if |bytes| - index <= count { return false; }
      var cp := Continuations(bytes, index + 1, count, bits);
      if cp.None? { return false; }
      if cp.value < minimum || cp.value > 0x10FFFF || 0xD800 <= cp.value <= 0xDFFF { return false; }
      index := index + count + 1;
    }
    return true;
  }

  lemma WellFormedIff(bytes: seq<byte>)
    ensures WellFormed(bytes) <==> exists cps: seq<int> :: AllScalar(cps) && bytes == EncodeAll(cps)
  {
    assert bytes[0..] == bytes;
    if WellFormed(bytes) { DecodedAll(bytes, 0); }
    if exists cps: seq<int> :: AllScalar(cps) && bytes == EncodeAll(cps) {
      var cps: seq<int> :| AllScalar(cps) && bytes == EncodeAll(cps);
      EncodedAll(bytes, 0, cps);
    }
  }

  /** No two sequences of scalar values share an encoding. */
  lemma EncodingIsUnique(a: seq<int>, b: seq<int>)
    requires AllScalar(a) && AllScalar(b) && EncodeAll(a) == EncodeAll(b)
    ensures a == b
  {
    var bytes := EncodeAll(a);
    assert bytes[0..] == bytes;
    EncodedAll(bytes, 0, a);
    EncodedAll(bytes, 0, b);
  }
}
