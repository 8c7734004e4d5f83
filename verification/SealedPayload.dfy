/** Sealing a PCK member the way an exporter does, and what the reader makes of the result. */
module SealedPayload {
  import opened Bytes
  import opened Cfb
  import opened EncryptedPayload

  /** Each ciphertext segment is the plaintext segment XORed with the encryption of the ciphertext before it. */
  function Encrypt(cipher: Cipher, iv: Block, p: seq<byte>): (c: seq<byte>)
    ensures |c| == |p|
    decreases |p|
  {
    if |p| <= 16 then XorBytes(p, cipher(iv))
    else
      var head: Block := XorBytes(p[..16], cipher(iv));
      head + Encrypt(cipher, head, p[16..])
  }

  lemma XorBytesTwice(a: seq<byte>, k: seq<byte>)
    requires |a| <= |k|
    ensures XorBytes(XorBytes(a, k), k) == a
  {
    hide Xor;
    var b := XorBytes(a, k);
    forall i | 0 <= i < |a| ensures XorBytes(b, k)[i] == a[i] { XorTwice(a[i], k[i]); }
  }

  lemma {:induction false} DecryptEncrypted(cipher: Cipher, iv: Block, p: seq<byte>)
    ensures Decrypt(cipher, iv, Encrypt(cipher, iv, p)) == p
    decreases |p|
  {
    hide XorBytes;
    var c := Encrypt(cipher, iv, p);
    if |p| <= 16 {
      XorBytesTwice(p, cipher(iv));
    } else {
      var head: Block := XorBytes(p[..16], cipher(iv));
      XorBytesTwice(p[..16], cipher(iv));
      DecryptEncrypted(cipher, head, p[16..]);
      assert c[..16] == head && c[16..] == Encrypt(cipher, head, p[16..]);
      assert p[..16] + p[16..] == p;
    }
  }

  /** The digest of the plaintext, its length, the IV, and the encryption of the plaintext padded to whole cipher blocks. */
  function Seal(cipher: Cipher, iv: Block, md5: seq<byte> -> Block, plain: seq<byte>, pad: seq<byte>): (r: seq<byte>)
    ensures |r| == HEADER + |plain| + |pad|
  {
    md5(plain) + LittleEndian(|plain|, 8) + iv + Encrypt(cipher, iv, plain + pad)
  }

  lemma SealedFields(cipher: Cipher, iv: Block, md5: seq<byte> -> Block, plain: seq<byte>, pad: seq<byte>, stream: seq<byte>, at: nat)
    requires at + HEADER + |plain| + |pad| <= |stream| && |plain| < SPAN64
    requires stream[at..at + HEADER + |plain| + |pad|] == Seal(cipher, iv, md5, plain, pad)
    ensures stream[at..at + 16] == md5(plain) && U64(stream, at + 16) == |plain| && stream[at + 24..at + 40] == iv
    ensures stream[at + HEADER..at + HEADER + |plain| + |pad|] == Encrypt(cipher, iv, plain + pad)
  {
    hide LittleEndian, Encrypt, U64;
    var sealed := Seal(cipher, iv, md5, plain, pad);
    var end := at + |sealed|;
    SliceOfSlice(stream, at, end, 0, 16);
    SliceOfSlice(stream, at, end, 16, 24);
    SliceOfSlice(stream, at, end, 24, 40);
    SliceOfSlice(stream, at, end, 40, |sealed|);
    assert sealed[..16] == md5(plain) && sealed[16..24] == LittleEndian(|plain|, 8) && sealed[24..40] == iv;
    assert sealed[40..] == Encrypt(cipher, iv, plain + pad);
    U64OfBytes(stream, at + 16, |plain|);
  }

  /** A sealed member, anywhere in a stream, is recognised, and its linear decryption is the plaintext that was sealed. */
  lemma SealedReads(cipher: Cipher, iv: Block, md5: seq<byte> -> Block, plain: seq<byte>, pad: seq<byte>,
                    before: seq<byte>, after: seq<byte>, most: nat)
    requires |plain| <= most && |plain| <= U64_MAX - 15 && |plain| + |pad| == PaddedSize(|plain|)
    ensures var stream, size := before + Seal(cipher, iv, md5, plain, pad) + after, HEADER + |plain| + |pad|;
            var r := ReadEnvelope(stream, Range(|before|, size), most);
            && r.Some? && Described(stream, r.value) && r.value.logical == |plain| && r.value.md5 == md5(plain)
            && Decrypt(cipher, r.value.iv, stream[r.value.ciphertext.offset..r.value.ciphertext.End()])[..|plain|] == plain
  {
    hide Encrypt, Decrypt, PaddedSize, U64;
    var sealed := Seal(cipher, iv, md5, plain, pad);
    var stream := before + sealed + after;
    assert stream[|before|..|before| + |sealed|] == sealed;
    SealedFields(cipher, iv, md5, plain, pad, stream, |before|);
    DecryptEncrypted(cipher, iv, plain + pad);
  }

  lemma {:induction false} EncryptDecrypted(cipher: Cipher, iv: Block, c: seq<byte>)
    ensures Encrypt(cipher, iv, Decrypt(cipher, iv, c)) == c
    decreases |c|
  {
    hide XorBytes;
    var p := Decrypt(cipher, iv, c);
    if |c| <= 16 {
      XorBytesTwice(c, cipher(iv));
    } else {
      XorBytesTwice(c[..16], cipher(iv));
      EncryptDecrypted(cipher, c[..16], c[16..]);
      assert p[..16] == XorBytes(c[..16], cipher(iv)) && p[16..] == Decrypt(cipher, c[..16], c[16..]);
      assert c[..16] + c[16..] == c;
    }
  }

  /** An envelope whose plaintext has the digest it names is a sealed one: nothing else verifies. */
  lemma VerifiedIsSealed(stream: seq<byte>, source: Range, most: nat, cipher: Cipher, md5: seq<byte> -> Block)
    requires ReadEnvelope(stream, source, most).Some?
    requires var p := ReadEnvelope(stream, source, most).value;
             Described(stream, p) && md5(Decrypt(cipher, p.iv, stream[p.ciphertext.offset..p.ciphertext.End()])[..p.logical]) == p.md5
    ensures var p := ReadEnvelope(stream, source, most).value;
            var plain := Decrypt(cipher, p.iv, stream[p.ciphertext.offset..p.ciphertext.End()]);
            stream[p.envelope.offset..p.envelope.End()] == Seal(cipher, p.iv, md5, plain[..p.logical], plain[p.logical..])
  {
    hide Encrypt, Decrypt, PaddedSize, U64, LittleEndian;
    var p := ReadEnvelope(stream, source, most).value;
    var at, end := p.envelope.offset, p.envelope.End();
    var c := stream[p.ciphertext.offset..p.ciphertext.End()];
    var plain := Decrypt(cipher, p.iv, c);
    EncryptDecrypted(cipher, p.iv, c);
    assert plain[..p.logical] + plain[p.logical..] == plain;
    LengthBytes(stream, at + 16);
    assert stream[at..end] == stream[at..at + 16] + stream[at + 16..at + 24] + stream[at + 24..at + 40] + stream[at + 40..end];
  }

  lemma LengthBytes(s: seq<byte>, at: nat)
    requires at + 8 <= |s|
    ensures LittleEndian(U64(s, at), 8) == s[at..at + 8]
  {
    hide LittleEndian, U32;
    var v, low, high := U64(s, at), U32(s, at), U32(s, at + 4);
    LittleEndian8(v);
    LowBytes(v);
    BytesOfField(s, at);
    BytesOfField(s, at + 4);
    assert v % SPAN32 == low && v / SPAN32 == high;
    assert s[at..at + 8] == s[at..at + 4] + s[at + 4..at + 8];
  }
}
