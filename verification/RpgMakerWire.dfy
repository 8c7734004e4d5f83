/**
 The legacy archive written out position by position: which step of the key masks each byte, and
 what the key is at each step.
 */
module RpgMakerWire {
  import opened Bytes
  import opened RpgMaker

  // ---- the key at each step

  function Pow7(n: nat): (p: nat)
    ensures p > 0
  {
    if n == 0 then 1 else 7 * Pow7(n - 1)
  }

  lemma ModTimes(a: nat, d: nat)
    requires d > 0
    ensures (7 * (a % d)) % d == (7 * a) % d
  {
    var q, r := a / d, a % d;
    assert a == d * q + r;
    assert 7 * a == 7 * r + d * (7 * q);
    ModPlus(7 * r, 7 * q, d);
  }

  lemma ModPlus(r: nat, q: nat, d: nat)
    requires d > 0
    ensures (r + d * q) % d == r % d
  {
    AddMultiple(r, d, q);
    assert r + d * q == d * (r / d + q) + r % d;
  }

  lemma NextDoubled(key: u32)
    ensures 2 * Next(key) + 1 == 7 * (2 * key + 1) % (2 * SPAN)
  {
    var whole := key * 7 + 3;
    assert 7 * (2 * key + 1) == 2 * whole + 1;
    var q, r := whole / SPAN, whole % SPAN;
    assert 2 * whole + 1 == (2 * r + 1) + (2 * SPAN) * q;
    ModPlus(2 * r + 1, q, 2 * SPAN);
  }

  /** Each step multiplies twice the key plus one by seven, modulo 2^33. */
  lemma {:induction false} KeyIsPower(key: u32, n: nat)
    ensures 2 * KeyAfter(key, n) + 1 == Pow7(n) * (2 * key + 1) % (2 * SPAN)
    decreases n
  {
    hide Next;
    if n > 0 {
      var odd := 2 * key + 1;
      NextDoubled(key);
      KeyIsPower(Next(key), n - 1);
      PowerStep(Pow7(n - 1), odd);
    }
  }

  lemma PowerStep(p: nat, odd: nat)
    ensures p * (7 * odd % (2 * SPAN)) % (2 * SPAN) == 7 * p * odd % (2 * SPAN)
  {
    var d := 2 * SPAN;
    var q, r := 7 * odd / d, 7 * odd % d;
    assert 7 * odd == d * q + r;
    assert 7 * p * odd == p * (7 * odd) == p * r + d * (p * q);
    ModPlus(p * r, p * q, d);
  }

  /** The key after `t` steps from the initial one, which is 0xDEADCAFE. */
  function K(t: nat): (k: nat)
    ensures k < SPAN
  {
    Pow7(t) * (2 * 0xDEAD_CAFE + 1) % (2 * SPAN) / 2
  }

  lemma KeyIsK(t: nat)
    ensures K(t) == KeyAfter(INITIAL_KEY, t)
  {
    hide KeyAfter, Pow7;
    KeyIsPower(INITIAL_KEY, t);
  }

  // ---- the archive, byte by byte

  /** Byte `n` of a word, least significant first. */
  function ByteOf(word: nat, n: nat): (b: nat)
    requires n < 4
    ensures b < 256
  {
    word / (if n == 0 then 1 else if n == 1 then 0x100 else if n == 2 then 0x1_0000 else 0x100_0000) % 0x100
  }

  /** A 32-bit field masked by the key of step `t`. */
  function Field(value: nat, t: nat): seq<byte>
  {
    seq(4, i requires 0 <= i < 4 => Xor(ByteOf(value, i), ByteOf(K(t), i)))
  }

  /** Each byte of a name is masked by the low byte of the key of its own step. */
  function Name(name: seq<byte>, t: nat): seq<byte>
  {
    seq(|name|, i requires 0 <= i < |name| => Xor(name[i], ByteOf(K(t + i), 0)))
  }

  /** Each word of a body is masked by the key of its own step. */
  function Payload(payload: seq<byte>, t: nat): seq<byte>
  {
    seq(|payload|, i requires 0 <= i < |payload| => Xor(payload[i], ByteOf(K(t + i / 4), i % 4)))
  }

  /**
   Entries from step `t` on. The length field takes one step, each byte of the name one and the size
   field one; the body starts there, and so does the next entry, however long the body is.
   */
  function Wire(entries: seq<Entry>, t: nat): seq<byte>
  {
    if entries == [] then []
    else
      var (name, payload) := (entries[0].name, entries[0].payload);
      Field(|name|, t) + Name(name, t + 1) + Field(|payload|, t + 1 + |name|) + Payload(payload, t + 2 + |name|)
      + Wire(entries[1..], t + 2 + |name|)
  }

  lemma {:induction false} NameIsMasked(key: u32, name: seq<byte>, t: nat)
    requires key == KeyAfter(INITIAL_KEY, t)
    ensures XorName(key, name) == Name(name, t)
    decreases |name|
  {
    hide Xor, K, KeyAfter;
    if name != [] {
      NextIsNext(t);
      NameIsMasked(Next(key), name[1..], t + 1);
      KeyIsK(t);
      var whole, rest := Name(name, t), Name(name[1..], t + 1);
      assert forall i :: 0 <= i < |rest| ==> rest[i] == whole[i + 1];
      assert whole == [whole[0]] + rest;
    }
  }

  lemma NextIsNext(t: nat)
    ensures Next(KeyAfter(INITIAL_KEY, t)) == KeyAfter(INITIAL_KEY, t + 1)
  {
    hide Next;
    KeyAfterAdds(INITIAL_KEY, t, 1);
    var key := KeyAfter(INITIAL_KEY, t);
    KeyStep(key, 0);
    KeyStep(Next(key), 0);
  }

  lemma BytesOfWord(word: nat)
    ensures forall i :: 0 <= i < 4 ==> LittleEndian(word, 4)[i] == ByteOf(word, i)
  {
    hide LittleEndian;
    LittleEndian4(word);
  }

  lemma MaskedFour(bytes: seq<byte>, t: nat)
    requires |bytes| <= 4
    ensures var r := XorKey(bytes, KeyAfter(INITIAL_KEY, t)); forall i :: 0 <= i < |bytes| ==> r[i] == Xor(bytes[i], ByteOf(K(t), i))
  {
    hide Xor, K, KeyAfter, LittleEndian, ByteOf;
    KeyIsK(t);
    BytesOfWord(K(t));
  }

  lemma FieldIsMasked(value: u32, t: nat)
    ensures LittleEndian(XorWord(value, KeyAfter(INITIAL_KEY, t)), 4) == Field(value, t)
  {
    hide Xor, K, KeyAfter, LittleEndian, ByteOf, XorWord, XorKey;
    XorWordBytes(value, KeyAfter(INITIAL_KEY, t));
    BytesOfWord(value);
    MaskedFour(LittleEndian(value, 4), t);
  }

  lemma {:induction false} BodyIsMasked(payload: seq<byte>, t: nat)
    ensures Crypt(KeyAfter(INITIAL_KEY, t), payload) == Payload(payload, t)
    decreases |payload|
  {
    hide Xor, K, KeyAfter, XorKey, ByteOf, Crypt;
    var key := KeyAfter(INITIAL_KEY, t);
    if |payload| < 4 {
      CryptTail(key, payload);
      MaskedFour(payload, t);
      assert forall i :: 0 <= i < |payload| ==> t + i / 4 == t && i % 4 == i;
    } else {
      CryptWord(key, payload);
      MaskedFour(payload[..4], t);
      NextIsNext(t);
      BodyIsMasked(payload[4..], t + 1);
      var whole, rest := Payload(payload, t), Payload(payload[4..], t + 1);
      forall i | 0 <= i < |rest| ensures rest[i] == whole[i + 4] {
        assert (i + 4) / 4 == i / 4 + 1 && (i + 4) % 4 == i % 4;
        assert t + 1 + i / 4 == t + (i + 4) / 4;
      }
      assert whole[4..] == rest;
      assert whole == whole[..4] + whole[4..];
    }
  }

  lemma EntryIsWritten(e: Entry, t: nat)
    requires Encodable(e)
    ensures BodyKey(KeyAfter(INITIAL_KEY, t), |e.name|) == KeyAfter(INITIAL_KEY, t + 2 + |e.name|)
    ensures EntryBytes(KeyAfter(INITIAL_KEY, t), e)
         == Field(|e.name|, t) + Name(e.name, t + 1) + Field(|e.payload|, t + 1 + |e.name|) + Payload(e.payload, t + 2 + |e.name|)
  {
    hide KeyAfter, LittleEndian, XorWord, XorName, Crypt, Field, Name, Payload;
    var n := |e.name|;
    NextIsNext(t);
    KeyAfterAdds(INITIAL_KEY, t + 1, n);
    NextIsNext(t + 1 + n);
    FieldIsMasked(n, t);
    NameIsMasked(KeyAfter(INITIAL_KEY, t + 1), e.name, t + 1);
    FieldIsMasked(|e.payload|, t + 1 + n);
    BodyIsMasked(e.payload, t + 2 + n);
  }

  lemma {:induction false} EntriesAreWritten(entries: seq<Entry>, t: nat)
    requires AllEncodable(entries)
    ensures EntriesBytes(KeyAfter(INITIAL_KEY, t), entries) == Wire(entries, t)
    decreases |entries|
  {
    hide KeyAfter, EntryBytes, BodyKey, Field, Name, Payload;
    if entries != [] {
      EntryIsWritten(entries[0], t);
      EntriesAreWritten(entries[1..], t + 2 + |entries[0].name|);
    }
  }

  /** The signature, and the entries from step zero. */
  function WireArchive(entries: seq<Entry>): seq<byte>
  {
    [0x52, 0x47, 0x53, 0x53, 0x41, 0x44, 0, 1] + Wire(entries, 0)
  }

  /** Both directions on the bytes as laid out here: what the encoder writes, and what the reader lists. */
  lemma WireRoundTrip(entries: seq<Entry>)
    requires |entries| <= MAX_ENTRIES && AllListable(entries)
    ensures var s := WireArchive(entries);
            && s == Archive(entries)
            && List(s).Some? && Inside(s, List(s).value) && DecodedAll(s, List(s).value) == entries
  {
    hide EntriesBytes, Wire, List, DecodedAll, Inside;
    EntriesAreWritten(entries, 0);
    KeyStep(INITIAL_KEY, 0);
    ArchiveRoundTrip(entries);
  }
}
