/**
 Encrypted PCK members: a 40-byte envelope, then ciphertext padded to whole cipher blocks.
 `View` reads the plaintext at any position through one bounded buffer; whatever the order of
 reads and seeks, it serves the linear CFB128 decryption.
 */
module EncryptedPayload {
  import opened Bytes
  import opened Cfb

  const HEADER := 40
  const BUFFER := 65536
  const U64_MAX := 0xFFFF_FFFF_FFFF_FFFF

  datatype Range = Range(offset: nat, size: nat) {
    function End(): nat
    {
      offset + size
    }
  }

  datatype Payload = Payload(envelope: Range, ciphertext: Range, logical: nat, iv: Block, md5: Block)

  /** The plaintext length rounded up to whole cipher blocks. */
  function PaddedSize(logical: nat): (n: nat)
    ensures logical <= n < logical + 16 && n % 16 == 0
  {
    (logical + 15) / 16 * 16
  }

  /** Every cipher block holds at least one logical byte. */
  lemma PaddingIsShort(offset: nat, logical: nat)
    requires offset % 16 == 0 && offset < PaddedSize(logical)
    ensures offset < logical && offset + 16 <= PaddedSize(logical)
  {
  }

  /** MD5, length, IV, ciphertext: the envelope at the start of an enclosing window of the stream. */
  function ReadEnvelope(stream: seq<byte>, source: Range, maxPlaintext: nat): (r: Option<Payload>)
  {
    if source.End() > |stream| || source.size < HEADER then None
    else
      var at := source.offset;
      var logical := U64(stream, at + 16);
      if logical > maxPlaintext || logical > U64_MAX - 15 then None
      else if PaddedSize(logical) > source.size - HEADER then None
      else Some(Payload(Range(at, HEADER + PaddedSize(logical)), Range(at + HEADER, PaddedSize(logical)),
                        logical, stream[at + 24..at + 40], stream[at..at + 16]))
  }

  /** An envelope that was read describes a range of the stream, and rereading that range gives it back. */
  lemma EnvelopeIsExact(stream: seq<byte>, source: Range, maxPlaintext: nat)
    requires ReadEnvelope(stream, source, maxPlaintext).Some?
    ensures var p := ReadEnvelope(stream, source, maxPlaintext).value;
            && Described(stream, p) && p.logical <= maxPlaintext
            && source.offset == p.envelope.offset && p.envelope.End() <= source.End()
            && ReadEnvelope(stream, p.envelope, U64_MAX) == Some(p)
  {
  }

  /** The payload names a whole number of cipher blocks that the stream holds. */
  predicate Described(stream: seq<byte>, p: Payload)
  {
    && p.ciphertext.End() <= |stream|
    && p.ciphertext.size == PaddedSize(p.logical)
  }

  datatype Direction = Beginning | Current | End

  class View {
    const stream: seq<byte>
    const payload: Payload
    const md5: seq<byte> -> Block
    const cipher: Aes256Cfb128
    const buffer: array<byte>
    var cursor: nat
    var area: Option<(nat, nat)>  // the get area: the read position in it and its end
    var cipherNext: nat
    var cipherCursorValid: bool
    var verified: bool

    ghost function Ciphertext(): seq<byte>
      requires Described(stream, payload)
    {
      stream[payload.ciphertext.offset..payload.ciphertext.End()]
    }

    /** The linear decryption of the whole ciphertext. */
    ghost function Plain(): seq<byte>
      requires Described(stream, payload)
    {
      Decrypt(cipher.cipher, payload.iv, Ciphertext())
    }

    function Position(): nat
      reads this`cursor, this`area
    {
      cursor + (if area.None? then 0 else area.value.0)
    }

    ghost predicate Shape()
    {
      && Described(stream, payload)
      && buffer.Length == Min(payload.ciphertext.size, BUFFER)
    }

    /** The get area holds plaintext. */
    ghost predicate AreaOk()
      requires Shape()
      reads this`cursor, this`area, buffer
    {
      && Position() <= payload.logical
      && (area.Some? ==>
            && area.value.0 <= area.value.1 <= buffer.Length && cursor + area.value.1 <= payload.logical
            && buffer[..area.value.1] == Plain()[cursor..cursor + area.value.1])
    }

    /** When the cipher cursor is valid, the cipher stands at `cipherNext`. */
    ghost predicate CipherOk()
      requires Shape()
      reads this`cipherNext, this`cipherCursorValid, cipher
    {
      && cipher.Valid()
      && (cipherCursorValid ==> StandsAt(cipher.Current(), payload.iv, Ciphertext(), cipherNext))
    }

    ghost predicate Valid()
      reads this, buffer, cipher
    {
      && Shape() && AreaOk() && CipherOk()
      && (verified ==> md5(Plain()[..payload.logical]) == payload.md5)
    }

    constructor (stream: seq<byte>, payload: Payload, cipher: Cipher, md5: seq<byte> -> Block)
      requires Described(stream, payload)
      ensures Valid() && Position() == 0 && !verified
      ensures this.stream == stream && this.payload == payload && this.md5 == md5 && this.cipher.cipher == cipher
      ensures fresh(buffer) && fresh(this.cipher)
    {
      hide Decrypt, StandsAt, PaddedSize;
      this.stream, this.payload, this.md5 := stream, payload, md5;
      this.cipher := new Aes256Cfb128(cipher, payload.iv);
      buffer := new byte[Min(payload.ciphertext.size, BUFFER)](_ => 0);
      cursor, area := 0, None;
      cipherNext, cipherCursorValid, verified := 0, false, false;
    }

    method Rewind()
      modifies this`area, this`cursor, this`cipherCursorValid
      ensures area.None? && cursor == 0 && !cipherCursorValid
    {
      area, cursor, cipherCursorValid := None, 0, false;
    }

    /** Reads `count` ciphertext bytes at `at` into the buffer and decrypts them there. */
    method DecryptInto(at: nat, count: nat)
      requires Shape() && cipher.Valid() && at + count <= payload.ciphertext.size && count <= buffer.Length
      requires StandsAt(cipher.Current(), payload.iv, Ciphertext(), at)
      modifies buffer, cipher
      ensures cipher.Valid() && StandsAt(cipher.Current(), payload.iv, Ciphertext(), at + count)
      ensures buffer[..count] == Plain()[at..at + count]
    {
      hide Decrypt, StandsAt, Update;
      var from := payload.ciphertext.offset + at;
      var input := stream[from..from + count];
      SliceOfSlice(stream, payload.ciphertext.offset, payload.ciphertext.End(), at, at + count);
      ghost var op := cipher.Current();
      var output := cipher.Decrypt(input);
      UpdateAdvances(cipher.cipher, op, payload.iv, Ciphertext(), at, input);
      forall i | 0 <= i < count { buffer[i] := output[i]; }
    }

    /** Decrypts the next chunk of a linear pass and returns its logical bytes. */
    method VerifyChunk(offset: nat, size: nat) returns (logical: seq<byte>)
      requires Shape() && cipher.Valid() && offset < payload.logical
      requires size == Min(buffer.Length, payload.ciphertext.size - offset)
      requires StandsAt(cipher.Current(), payload.iv, Ciphertext(), offset)
      modifies buffer, cipher
      ensures cipher.Valid() && StandsAt(cipher.Current(), payload.iv, Ciphertext(), offset + size)
      ensures logical == Plain()[offset..Min(offset + size, payload.logical)]
    {
      hide Decrypt, StandsAt;
      DecryptInto(offset, size);
      var count := Min(size, payload.logical - offset);
      SliceOfTake(buffer[..], size, 0, count);
      SliceOfSlice(Plain(), offset, offset + size, 0, count);
      logical := buffer[..count];
    }

    lemma SliceGrows(s: seq<byte>, i: nat, j: nat)
      requires i <= j <= |s|
      ensures s[..i] + s[i..j] == s[..j]
    {
    }

    /** Decrypts the whole member from its start, chunk after chunk. */
    method DecryptAll() returns (digested: seq<byte>)
      requires Shape() && cipher.Valid()
      modifies buffer, cipher
      ensures cipher.Valid() && digested == Plain()[..payload.logical]
    {
      hide Decrypt, StandsAt, PaddedSize;
      cipher.Reset(payload.iv);
      StartStands();
      digested := [];
      var offset: nat := 0;
      while offset < payload.ciphertext.size
        invariant offset <= payload.ciphertext.size && cipher.Valid()
        invariant offset < payload.ciphertext.size ==> offset % 16 == 0
        invariant StandsAt(cipher.Current(), payload.iv, Ciphertext(), offset)
        invariant digested == Plain()[..Min(offset, payload.logical)]
      {
        PaddingIsShort(offset, payload.logical);
        var size := Min(buffer.Length, payload.ciphertext.size - offset);
        var logical := VerifyChunk(offset, size);
        SliceGrows(Plain(), Min(offset, payload.logical), Min(offset + size, payload.logical));
        digested := digested + logical;
        offset := offset + size;
      }
    }

    lemma StartStands()
      requires Shape() && cipher.Valid() && cipher.Current() == Operation(payload.iv, [])
      ensures StandsAt(cipher.Current(), payload.iv, Ciphertext(), 0)
    {
    }

    /** Decrypts the whole member and compares its digest; the view is verified exactly on a match. */
    method Verify() returns (ok: bool)
      requires Valid()
      modifies this, buffer, cipher
      ensures Valid() && Position() == 0 && verified == ok
      ensures ok <==> md5(Plain()[..payload.logical]) == payload.md5
    {
      hide Decrypt, StandsAt, Described;
      verified := false;
      Rewind();
      var digested := DecryptAll();
      if md5(digested) != payload.md5 { return false; }
      verified := true;
      Rewind();
      return true;
    }

    /** Restarts the cipher at the block boundary at or before `at`, from the preceding ciphertext block. */
    method RestartCipher(at: nat) returns (start: nat)
      requires Shape() && at < payload.logical
      modifies cipher
      ensures start <= at < start + 16 && start % 16 == 0
      ensures cipher.Valid() && StandsAt(cipher.Current(), payload.iv, Ciphertext(), start)
    {
      start := at / 16 * 16;
      var iv := payload.iv;
      if start != 0 {
        var from := payload.ciphertext.offset + start - 16;
        iv := stream[from..from + 16];
      }
      cipher.Reset(iv);
      assert start / 16 == at / 16;
    }

    /**
     Refills the buffer at the read position. When the cipher already stands there it simply
     continues, even mid-block; otherwise it restarts at the enclosing block boundary.
     */
    method Fill(wanted: nat)
      requires Valid() && 0 < wanted <= payload.logical - Position()
      modifies this, buffer, cipher
      ensures Valid() && Position() == old(Position()) && verified == old(verified)
      ensures area.Some? && area.value.0 < area.value.1
    {
      hide Decrypt, StandsAt;
      var at := Position();
      var start := at;
      if !(cipherCursorValid && at == cipherNext) {
        cipherCursorValid := false;
        start := RestartCipher(at);
      }
      var count := Min(buffer.Length, wanted + at - start);
      DecryptInto(start, count);
      cipherNext, cipherCursorValid := start + count, true;
      cursor := start;
      area := Some((at - start, count));
    }

    /** The byte at the read position, or None at the end; the position does not move. */
    method Underflow() returns (b: Option<byte>)
      requires Valid()
      modifies this, buffer, cipher
      ensures Valid() && Position() == old(Position()) && verified == old(verified)
      ensures b == if Position() == payload.logical then None else Some(Plain()[Position()])
      ensures b.Some? ==> area.Some? && area.value.0 < area.value.1
    {
      if Position() == payload.logical { return None; }
      hide Decrypt, StandsAt;
      Fill(1);
      ghost var (at, end) := area.value;
      assert buffer[..end][at] == Plain()[cursor..cursor + end][at];
      return Some(buffer[area.value.0]);
    }

    /** Reads one byte: the next of the get area without a refill while there is one, and otherwise behind one. */
    method Bump() returns (b: Option<byte>)
      requires Valid()
      modifies this, buffer, cipher
      ensures Valid() && verified == old(verified)
      ensures b == if old(Position()) == payload.logical then None else Some(Plain()[old(Position())])
      ensures Position() == old(Position()) + if b.Some? then 1 else 0
    {
      hide Decrypt, StandsAt, Aes256Cfb128.Valid;
      if area.None? || area.value.0 == area.value.1 {
        b := Underflow();
        if b.None? { return; }
      }
      var bytes := TakeArea(1);
      b := Some(bytes[0]);
    }

    /** Takes up to `limit` bytes from the get area. */
    method TakeArea(limit: nat) returns (bytes: seq<byte>)
      requires Valid() && area.Some? && area.value.0 < area.value.1 && 0 < limit
      modifies this`area
      ensures Valid() && 0 < |bytes| <= limit && Position() == old(Position()) + |bytes|
      ensures bytes == Plain()[old(Position())..Position()]
    {
      hide Decrypt, StandsAt;
      var (at, end) := area.value;
      var available := Min(end - at, limit);
      SliceOfTake(buffer[..], end, at, at + available);
      SliceOfSlice(Plain(), cursor, cursor + end, at, at + available);
      bytes := buffer[at..at + available];
      area := Some((at + available, end));
    }

    /** Reads up to `count` bytes: the plaintext from the read position, cut at the logical end. */
    method Xsgetn(count: int) returns (target: seq<byte>)
      requires Valid()
      modifies this, buffer, cipher
      ensures Valid() && verified == old(verified)
      ensures var at := old(Position());
              var amount := if count <= 0 then 0 else Min(count, payload.logical - at);
              target == Plain()[at..at + amount] && Position() == at + amount
    {
      hide Decrypt, StandsAt, Aes256Cfb128.Valid;
      target := [];
      if count <= 0 { return; }
      ghost var first := Position();
      var wanted: nat := Min(count, payload.logical - Position());
      while |target| < wanted
        invariant Valid() && verified == old(verified)
        invariant |target| <= wanted <= payload.logical - first
        invariant Position() == first + |target| && target == Plain()[first..first + |target|]
      {
        if area.None? || area.value.0 == area.value.1 { Fill(wanted - |target|); }
        var bytes := TakeArea(wanted - |target|);
        target := target + bytes;
      }
    }

    /** Seeks to a position in [0, logical]; anything else is refused and changes nothing. */
    method Seekoff(offset: int, direction: Direction, forInput: bool) returns (r: Option<nat>)
      requires Valid()
      modifies this`cursor, this`area
      ensures Valid()
      ensures var base := match direction
                          case Beginning => 0
                          case Current => old(Position())
                          case End => payload.logical;
              if forInput && 0 <= base + offset <= payload.logical
              then r == Some(base + offset) && Position() == base + offset
              else r == None && cursor == old(cursor) && area == old(area)
    {
      if !forInput { return None; }
      var base := match direction
        case Beginning => 0
        case Current => Position()
        case End => payload.logical;
      if offset < -base || offset > payload.logical - base { return None; }
      var target: nat := base + offset;
      if area.Some? && cursor <= target <= cursor + area.value.1 {
        area := Some((target - cursor, area.value.1));
        return Some(target);
      }
      cursor := target;
      area := None;
      return Some(target);
    }
  }
}
