/**
 Legacy RPG Maker archives: one 32-bit key rolls through the metadata of every entry, and each
 body restarts from the key that follows its size field. Both the reader and its inverse encoder.
 */
module RpgMaker {
  import opened Bytes

  const SPAN := 0x1_0000_0000
  const INITIAL_KEY: u32 := 0xDEAD_CAFE
  const MAX_ENTRIES := 100_000
  const MAX_NAME := 4092
  const BUFFER := 131072
  const SIGNATURE: seq<byte> := [0x52, 0x47, 0x53, 0x53, 0x41, 0x44, 0x00, 1]

  type u32 = x: int | 0 <= x < 0x1_0000_0000

  // ---- the key

  function Next(key: u32): u32
  {
    (key * 7 + 3) % SPAN
  }

  function KeyAfter(key: u32, steps: nat): u32
    decreases steps
  {
    if steps == 0 then key else KeyAfter(Next(key), steps - 1)
  }

  lemma {:induction false} KeyAfterAdds(key: u32, a: nat, b: nat)
    ensures KeyAfter(KeyAfter(key, a), b) == KeyAfter(key, a + b)
    decreases a
  {
    if a > 0 { KeyAfterAdds(Next(key), a - 1, b); }
  }

  // ---- exclusive or

  /** Byte-wise exclusive or with the four bytes of a key. */
  function XorKey(bytes: seq<byte>, key: u32): (r: seq<byte>)
    requires |bytes| <= 4
    ensures |r| == |bytes|
  {
    seq(|bytes|, i requires 0 <= i < |bytes| => Xor(bytes[i], LittleEndian(key, 4)[i]))
  }

  lemma XorKeyTwice(bytes: seq<byte>, key: u32)
    requires |bytes| <= 4
    ensures XorKey(XorKey(bytes, key), key) == bytes
  {
    forall i | 0 <= i < |bytes| ensures XorKey(XorKey(bytes, key), key)[i] == bytes[i] {
      XorTwice(bytes[i], LittleEndian(key, 4)[i]);
    }
  }

  /** Exclusive or of two words, byte by byte. */
  function XorWord(a: u32, key: u32): u32
  {
    U32(XorKey(LittleEndian(a, 4), key), 0)
  }

  lemma XorWordBytes(a: u32, key: u32)
    ensures LittleEndian(XorWord(a, key), 4) == XorKey(LittleEndian(a, 4), key)
  {
    hide XorKey;
    BytesOfU32(XorKey(LittleEndian(a, 4), key));
  }

  lemma XorWordTwice(a: u32, key: u32)
    ensures XorWord(XorWord(a, key), key) == a
  {
    hide XorKey, LittleEndian, U32;
    XorWordBytes(a, key);
    XorKeyTwice(LittleEndian(a, 4), key);
    assert LittleEndian(a, 4)[0..4] == LittleEndian(a, 4);
    U32OfBytes(LittleEndian(a, 4), 0, a);
  }

  // ---- bodies

  /** Whole words use successive keys; a tail of one to three bytes uses the low bytes of the next key. */
  function Crypt(key: u32, bytes: seq<byte>): (r: seq<byte>)
    ensures |r| == |bytes|
    decreases |bytes|
  {
    if |bytes| < 4 then XorKey(bytes, key) else XorKey(bytes[..4], key) + Crypt(Next(key), bytes[4..])
  }

  lemma {:induction false} CryptTwice(key: u32, bytes: seq<byte>)
    ensures Crypt(key, Crypt(key, bytes)) == bytes
    decreases |bytes|
  {
    hide XorKey;
    if |bytes| < 4 {
      XorKeyTwice(bytes, key);
    } else {
      var c := Crypt(key, bytes);
      assert c[..4] == XorKey(bytes[..4], key) && c[4..] == Crypt(Next(key), bytes[4..]);
      XorKeyTwice(bytes[..4], key);
      CryptTwice(Next(key), bytes[4..]);
      assert bytes[..4] + bytes[4..] == bytes;
    }
  }

  lemma CryptWord(key: u32, bytes: seq<byte>)
    requires |bytes| >= 4
    ensures Crypt(key, bytes) == XorKey(bytes[..4], key) + Crypt(Next(key), bytes[4..])
  {
  }

  lemma CryptTail(key: u32, bytes: seq<byte>)
    requires |bytes| < 4
    ensures Crypt(key, bytes) == XorKey(bytes, key)
  {
  }

  lemma CryptNothing(key: u32)
    ensures Crypt(key, []) == []
  {
  }

  /** Decrypting in chunks of whole words, with the key carried over, is decrypting in one go. */
  lemma {:induction false} CryptChunks(key: u32, a: seq<byte>, b: seq<byte>)
    requires |a| % 4 == 0
    ensures Crypt(key, a + b) == Crypt(key, a) + Crypt(KeyAfter(key, |a| / 4), b)
    decreases |a|
  {
    hide XorKey, Crypt, KeyAfter;
    if a == [] {
      CryptNothing(key);
      KeyStep(key, 0);
      assert a + b == b && [] + Crypt(key, b) == Crypt(key, b);
    } else {
      assert (a + b)[..4] == a[..4] && (a + b)[4..] == a[4..] + b;
      CryptWord(key, a + b);
      CryptWord(key, a);
      CryptChunks(Next(key), a[4..], b);
      KeyStep(key, |a| / 4 - 1);
    }
  }

  lemma KeyStep(key: u32, steps: nat)
    ensures KeyAfter(key, 0) == key && KeyAfter(Next(key), steps) == KeyAfter(key, steps + 1)
  {
  }

  /** Decrypts a buffer in place and returns the key for the next buffer. */
  method Decrypt(key: u32, data: array<byte>) returns (next: u32)
    modifies data
    ensures data[..] == Crypt(key, old(data[..])) && next == KeyAfter(key, data.Length / 4)
  {
    hide Crypt, XorKey, KeyAfter;
    var magic, i := key, 0;
    ghost var whole, done: seq<byte>, words := data[..], [], data.Length / 4;
    while i + 4 <= data.Length
      invariant i % 4 == 0 && i <= data.Length && data[i..] == whole[i..] && data[..i] == done
      invariant done + Crypt(magic, whole[i..]) == Crypt(key, whole)
      invariant KeyAfter(magic, words - i / 4) == KeyAfter(key, words)
    {
      CryptWordAt(magic, whole, i, done);
      KeyStep(magic, words - i / 4 - 1);
      SameSlice(data[..], whole, i, i + 4);
      XorAt(data, i, 4, magic);
      assert data[..i + 4] == data[..i] + data[i..i + 4];
      done := done + XorKey(whole[i..i + 4], magic);
      magic := Next(magic);
      i := i + 4;
    }
    next := magic;
    assert i / 4 == words;
    KeyStep(magic, 0);
    CryptTail(magic, whole[i..]);
    assert data[i..data.Length] == whole[i..];
    XorAt(data, i, data.Length - i, magic);
    assert data[..] == data[..i] + data[i..data.Length];
  }

  lemma CryptWordAt(key: u32, whole: seq<byte>, i: nat, done: seq<byte>)
    requires i + 4 <= |whole|
    ensures done + Crypt(key, whole[i..])
         == done + XorKey(whole[i..i + 4], key) + Crypt(Next(key), whole[i + 4..])
  {
    hide Crypt, XorKey;
    CryptWord(key, whole[i..]);
    assert whole[i..][..4] == whole[i..i + 4] && whole[i..][4..] == whole[i + 4..];
  }

  lemma SameSlice(s: seq<byte>, t: seq<byte>, i: nat, j: nat)
    requires i <= j <= |s| && j <= |t| && s[i..] == t[i..]
    ensures s[i..j] == t[i..j] && s[j..] == t[j..]
  {
    assert s[i..j] == s[i..][..j - i] && t[i..j] == t[i..][..j - i];
    assert s[j..] == s[i..][j - i..] && t[j..] == t[i..][j - i..];
  }

  /** Exclusive-ors up to four bytes of a buffer with the bytes of a key. */
  method XorAt(data: array<byte>, at: nat, count: nat, key: u32)
    requires count <= 4 && at + count <= data.Length
    modifies data
    ensures data[at..at + count] == XorKey(old(data[at..at + count]), key)
    ensures data[..at] == old(data[..at]) && data[at + count..] == old(data[at + count..])
  {
    hide Xor, LittleEndian;
    ghost var before := data[at..at + count];
    var j := 0;
    while j < count
      invariant j <= count
      invariant data[at..at + j] == XorKey(before, key)[..j] && data[at + j..at + count] == before[j..]
      invariant data[..at] == old(data[..at]) && data[at + count..] == old(data[at + count..])
    {
      assert data[at + j..at + count][0] == data[at + j];
      ghost var done := data[at..at + j];
      data[at + j] := Xor(data[at + j], LittleEndian(key, 4)[j]);
      assert data[at..at + j + 1] == done + [XorKey(before, key)[j]];
      j := j + 1;
    }
  }

  // ---- names

  /** Each byte of a name uses the low byte of the next key. */
  function XorName(key: u32, name: seq<byte>): (r: seq<byte>)
    ensures |r| == |name|
    decreases |name|
  {
    if name == [] then [] else [Xor(name[0], key % 256)] + XorName(Next(key), name[1..])
  }

  lemma {:induction false} XorNameTwice(key: u32, name: seq<byte>)
    ensures XorName(key, XorName(key, name)) == name
    decreases |name|
  {
    hide Xor;
    if name != [] {
      XorTwice(name[0], key % 256);
      XorNameTwice(Next(key), name[1..]);
      assert [name[0]] + name[1..] == name;
    }
  }

  /** Masks or unmasks a name in place and returns the key for the field that follows. */
  method MaskName(key: u32, name: array<byte>) returns (next: u32)
    modifies name
    ensures name[..] == XorName(key, old(name[..])) && next == KeyAfter(key, name.Length)
  {
    hide Xor;
    var magic, i := key, 0;
    ghost var whole, done: seq<byte> := name[..], [];
    assert whole[0..] == whole;
    while i < name.Length
      invariant i <= name.Length && name[..i] == done && name[i..] == whole[i..]
      invariant done + XorName(magic, whole[i..]) == XorName(key, whole)
      invariant KeyAfter(magic, name.Length - i) == KeyAfter(key, name.Length)
    {
      assert whole[i..][1..] == whole[i + 1..] && name[i] == name[i..][0] == whole[i];
      assert name[i + 1..] == name[i..][1..];
      KeyStep(magic, name.Length - i - 1);
      name[i] := Xor(name[i], magic % 256);
      done := done + [Xor(whole[i], magic % 256)];
      magic := Next(magic);
      i := i + 1;
    }
    next := magic;
  }

  // ---- the archive

  datatype Entry = Entry(name: seq<byte>, payload: seq<byte>)

  /** A listed file: its name, where its body lies, and the key its body starts from. */
  datatype FileInfo = FileInfo(name: seq<byte>, offset: nat, size: nat, magic: u32)

  /** The keys in force at the name, at the size field and at the body of an entry. */
  function NameKey(key: u32): u32
  {
    Next(key)
  }

  function SizeKey(key: u32, nameLength: nat): u32
  {
    KeyAfter(NameKey(key), nameLength)
  }

  function BodyKey(key: u32, nameLength: nat): u32
  {
    Next(SizeKey(key, nameLength))
  }

  /** Both lengths of an entry fit their 32-bit fields. */
  predicate Encodable(e: Entry)
  {
    |e.name| < SPAN && |e.payload| < SPAN
  }

  predicate AllEncodable(entries: seq<Entry>)
  {
    forall e :: e in entries ==> Encodable(e)
  }

  function EntryBytes(key: u32, e: Entry): seq<byte>
    requires Encodable(e)
  {
    LittleEndian(XorWord(|e.name|, key), 4) + XorName(NameKey(key), e.name)
    + LittleEndian(XorWord(|e.payload|, SizeKey(key, |e.name|)), 4) + Crypt(BodyKey(key, |e.name|), e.payload)
  }

  function EntriesBytes(key: u32, entries: seq<Entry>): seq<byte>
    requires AllEncodable(entries)
    decreases |entries|
  {
    if entries == [] then []
    else EntryBytes(key, entries[0]) + EntriesBytes(BodyKey(key, |entries[0].name|), entries[1..])
  }

  function Archive(entries: seq<Entry>): seq<byte>
    requires AllEncodable(entries)
  {
    SIGNATURE + EntriesBytes(INITIAL_KEY, entries)
  }

  /** The entry whose metadata starts at `at`. */
  function ParseEntry(s: seq<byte>, at: nat, key: u32): (r: Option<FileInfo>)
    ensures r.Some? ==> at + 8 < r.value.offset && r.value.offset + r.value.size <= |s|
  {
    if at + 4 > |s| then None
    else
      var length: nat := XorWord(U32(s, at), key);
      if length == 0 || length > MAX_NAME || length > |s| - at - 4 then None
      else
        var name := XorName(NameKey(key), s[at + 4..at + 4 + length]);
        var sizeAt := at + 4 + length;
        if 0 in name || sizeAt + 4 > |s| then None
        else
          var size: nat := XorWord(U32(s, sizeAt), SizeKey(key, length));
          if size > |s| - sizeAt - 4 then None
          else Some(FileInfo(name, sizeAt + 4, size, BodyKey(key, length)))
  }

  function ListFrom(s: seq<byte>, at: nat, key: u32, count: nat): Option<seq<FileInfo>>
    requires at <= |s|
    decreases |s| - at
  {
    if at == |s| then Some([])
    else if count == MAX_ENTRIES then None
    else match ParseEntry(s, at, key)
      case None => None
      case Some(f) =>
        match ListFrom(s, f.offset + f.size, f.magic, count + 1)
        case None => None
        case Some(rest) => Some([f] + rest)
  }

  function List(s: seq<byte>): Option<seq<FileInfo>>
  {
    if |s| < 8 || s[..8] != SIGNATURE then None else ListFrom(s, 8, INITIAL_KEY, 0)
  }

  /** The decrypted body of a listed file. */
  function Body(s: seq<byte>, f: FileInfo): seq<byte>
    requires f.offset + f.size <= |s|
  {
    Crypt(f.magic, s[f.offset..f.offset + f.size])
  }

  // ---- the reader

  /** Reads one entry's metadata, unmasking its name in a scratch buffer. */
  method ReadEntry(s: seq<byte>, at: nat, key: u32) returns (r: Option<FileInfo>)
    ensures r == ParseEntry(s, at, key)
  {
    hide XorWord, XorName, KeyAfter, U32;
    if at + 4 > |s| { return None; }
    var length: nat := XorWord(U32(s, at), key);
    if length == 0 || length > MAX_NAME || length > |s| - at - 4 { return None; }
    var stored := s[at + 4..at + 4 + length];
    var name := new byte[length](i requires 0 <= i < length => stored[i]);
    assert name[..] == stored;
    var magic := MaskName(Next(key), name);
    if 0 in name[..] { return None; }
    var sizeAt := at + 4 + length;
    if sizeAt + 4 > |s| { return None; }
    var size: nat := XorWord(U32(s, sizeAt), magic);
    if size > |s| - sizeAt - 4 { return None; }
    return Some(FileInfo(name[..], sizeAt + 4, size, Next(magic)));
  }

  method ListLegacyFiles(s: seq<byte>) returns (r: Option<seq<FileInfo>>)
    ensures r == List(s)
  {
    hide ParseEntry;
    if |s| < 8 || s[..8] != SIGNATURE { return None; }
    var files: seq<FileInfo>, at, key := [], 8, INITIAL_KEY;
    ghost var whole := ListFrom(s, 8, INITIAL_KEY, 0);
    assert whole.Some? ==> [] + whole.value == whole.value;
    while at < |s|
      invariant at <= |s| && |files| <= MAX_ENTRIES
      invariant var rest := ListFrom(s, at, key, |files|);
                whole == if rest.None? then None else Some(files + rest.value)
      decreases |s| - at
    {
      if |files| == MAX_ENTRIES { return None; }
      var f := ReadEntry(s, at, key);
      if f.None? { return None; }
      ghost var rest := ListFrom(s, f.value.offset + f.value.size, f.value.magic, |files| + 1);
      assert rest.Some? ==> files + ([f.value] + rest.value) == files + [f.value] + rest.value;
      files := files + [f.value];
      key := f.value.magic;
      at := f.value.offset + f.value.size;
    }
    assert files + [] == files;
    return Some(files);
  }

  /** Copies a body out through a bounded buffer, decrypting each chunk with the carried key. */
  method ExtractFile(s: seq<byte>, f: FileInfo) returns (output: seq<byte>)
    requires f.offset + f.size <= |s|
    ensures output == Body(s, f)
  {
    hide Crypt, KeyAfter;
    output := [];
    ghost var body := s[f.offset..f.offset + f.size];
    var magic, done: nat := f.magic, 0;
    assert body[0..] == body;
    while done < f.size
      invariant done <= f.size && (done < f.size ==> done % 4 == 0)
      invariant output + Crypt(magic, body[done..]) == Crypt(f.magic, body)
    {
      var chunk := Min(f.size - done, BUFFER);
      var from := f.offset + done;
      var bytes := s[from..from + chunk];
      var buffer := new byte[chunk](i requires 0 <= i < chunk => bytes[i]);
      SliceOfSlice(s, f.offset, f.offset + f.size, done, done + chunk);
      assert buffer[..] == bytes;
      ghost var before := magic;
      magic := Decrypt(magic, buffer);
      ChunkStep(before, magic, body[done..], chunk);
      assert body[done..][..chunk] == bytes && body[done..][chunk..] == body[done + chunk..];
      assert output + (buffer[..] + Crypt(magic, body[done + chunk..]))
          == output + buffer[..] + Crypt(magic, body[done + chunk..]);
      output := output + buffer[..];
      done := done + chunk;
    }
    assert body[done..] == [] by { assert done == |body|; }
    CryptNothing(magic);
  }

  /** The first chunk of a body decrypts apart from the rest, when it is whole words or all of it. */
  lemma ChunkStep(key: u32, next: u32, body: seq<byte>, chunk: nat)
    requires chunk <= |body| && next == KeyAfter(key, chunk / 4)
    requires chunk % 4 == 0 || chunk == |body|
    ensures Crypt(key, body) == Crypt(key, body[..chunk]) + Crypt(next, body[chunk..])
  {
    assert body[..chunk] + body[chunk..] == body;
    if chunk % 4 == 0 {
      CryptChunks(key, body[..chunk], body[chunk..]);
    } else {
      assert body[..chunk] == body && body[chunk..] == [];
      CryptNothing(next);
    }
  }

  // ---- the encoder

  /** Masks a name in a scratch buffer. */
  method MaskedName(key: u32, name: seq<byte>) returns (masked: seq<byte>, next: u32)
    ensures masked == XorName(key, name) && next == KeyAfter(key, |name|)
  {
    var buffer := new byte[|name|](i requires 0 <= i < |name| => name[i]);
    assert buffer[..] == name;
    next := MaskName(key, buffer);
    masked := buffer[..];
  }

  /** Encrypts a payload in a scratch buffer, from the key that follows the size field. */
  method EncryptedBody(key: u32, payload: seq<byte>) returns (body: seq<byte>)
    ensures body == Crypt(key, payload)
  {
    var buffer := new byte[|payload|](i requires 0 <= i < |payload| => payload[i]);
    assert buffer[..] == payload;
    var next := Decrypt(key, buffer);
    body := buffer[..];
  }

  /** Builds an archive; it fails exactly when a length does not fit its field. */
  method MakeLegacyArchive(entries: seq<Entry>) returns (r: Option<seq<byte>>)
    ensures r.Some? <==> AllEncodable(entries)
    ensures r.Some? ==> r.value == Archive(entries)
  {
    hide XorName, Crypt, XorWord, KeyAfter, LittleEndian;
    var archive, key, n := SIGNATURE, INITIAL_KEY, 0;
    assert entries[0..] == entries;
    while n < |entries|
      invariant n <= |entries| && forall i :: 0 <= i < n ==> Encodable(entries[i])
      invariant AllEncodable(entries) ==>
          AllEncodable(entries[n..]) &&
          archive + EntriesBytes(key, entries[n..]) == Archive(entries)
    {
      var e := entries[n];
      if |e.name| >= SPAN || |e.payload| >= SPAN {
        assert !Encodable(entries[n]);
        return None;
      }
      var name, sizeKey := MaskedName(Next(key), e.name);
      var bodyKey := Next(sizeKey);
      var body := EncryptedBody(bodyKey, e.payload);
      var bytes := LittleEndian(XorWord(|e.name|, key), 4) + name
                   + LittleEndian(XorWord(|e.payload|, sizeKey), 4) + body;
      assert bytes == EntryBytes(key, e) && entries[n..][1..] == entries[n + 1..];
      archive := archive + bytes;
      key := bodyKey;
      n := n + 1;
    }
    assert entries[n..] == [] && archive + [] == archive;
    return Some(archive);
  }

  // ---- the encoder and the reader are inverse

  /** The names the reader lists: non-empty, bounded and free of NUL. */
  predicate Listable(e: Entry)
  {
    Encodable(e) && 0 < |e.name| <= MAX_NAME && 0 !in e.name
  }

  predicate AllListable(entries: seq<Entry>): (r: bool)
    ensures r ==> AllEncodable(entries)
  {
    forall e :: e in entries ==> Listable(e)
  }

  /** The four parts of an encoded entry, where they lie in the archive. */
  lemma EntryParts(s: seq<byte>, at: nat, key: u32, e: Entry, next: nat)
    requires Encodable(e) && at <= next <= |s| && s[at..next] == EntryBytes(key, e)
    ensures var n := |e.name|;
            && next == at + 8 + n + |e.payload|
            && s[at..at + 4] == LittleEndian(XorWord(n, key), 4)
            && s[at + 4..at + 4 + n] == XorName(NameKey(key), e.name)
            && s[at + 4 + n..at + 8 + n] == LittleEndian(XorWord(|e.payload|, SizeKey(key, n)), 4)
            && s[at + 8 + n..next] == Crypt(BodyKey(key, n), e.payload)
  {
    hide LittleEndian, XorWord, XorName, Crypt, KeyAfter;
    var b, n := s[at..next], |e.name|;
    assert b[..4] == LittleEndian(XorWord(n, key), 4) && b[4..4 + n] == XorName(NameKey(key), e.name);
    assert b[4 + n..8 + n] == LittleEndian(XorWord(|e.payload|, SizeKey(key, n)), 4);
    assert b[8 + n..] == Crypt(BodyKey(key, n), e.payload);
    SliceOfSlice(s, at, next, 0, 4);
    SliceOfSlice(s, at, next, 4, 4 + n);
    SliceOfSlice(s, at, next, 4 + n, 8 + n);
    SliceOfSlice(s, at, next, 8 + n, |b|);
  }

  lemma EntryRoundTrip(s: seq<byte>, at: nat, key: u32, e: Entry, next: nat)
    requires Listable(e) && at <= next <= |s| && s[at..next] == EntryBytes(key, e)
    ensures var f := FileInfo(e.name, at + 8 + |e.name|, |e.payload|, BodyKey(key, |e.name|));
            ParseEntry(s, at, key) == Some(f) && f.offset + f.size == next && Body(s, f) == e.payload
  {
    hide LittleEndian, XorWord, XorName, Crypt, KeyAfter, U32, EntryBytes;
    EntryParts(s, at, key, e, next);
    var n := |e.name|;
    U32OfBytes(s, at, XorWord(n, key));
    U32OfBytes(s, at + 4 + n, XorWord(|e.payload|, SizeKey(key, n)));
    XorWordTwice(n, key);
    XorWordTwice(|e.payload|, SizeKey(key, n));
    XorNameTwice(NameKey(key), e.name);
    CryptTwice(BodyKey(key, n), e.payload);
  }

  /** What one listed entry stands for. */
  function Decoded(s: seq<byte>, f: FileInfo): Entry
    requires f.offset + f.size <= |s|
  {
    Entry(f.name, Body(s, f))
  }

  lemma ParsedIsEncoded(s: seq<byte>, at: nat, key: u32)
    requires ParseEntry(s, at, key).Some?
    ensures var f := ParseEntry(s, at, key).value;
            var e := Decoded(s, f);
            && Listable(e) && f.magic == BodyKey(key, |e.name|)
            && s[at..f.offset + f.size] == EntryBytes(key, e)
  {
    hide LittleEndian, XorWord, XorName, Crypt, KeyAfter, U32;
    var f := ParseEntry(s, at, key).value;
    var n, stored := |f.name|, s[at + 4..at + 4 + |f.name|];
    XorNameTwice(NameKey(key), stored);
    CryptTwice(f.magic, s[f.offset..f.offset + f.size]);
    XorWordTwice(U32(s, at), key);
    XorWordTwice(U32(s, at + 4 + n), SizeKey(key, n));
    BytesOfField(s, at);
    BytesOfField(s, at + 4 + n);
    FourParts(s, at, at + 4, at + 4 + n, f.offset, f.offset + f.size);
  }

  lemma FourParts(s: seq<byte>, a: nat, b: nat, c: nat, d: nat, e: nat)
    requires a <= b <= c <= d <= e <= |s|
    ensures s[a..e] == s[a..b] + s[b..c] + s[c..d] + s[d..e]
  {
    assert s[a..c] == s[a..b] + s[b..c] && s[a..d] == s[a..c] + s[c..d] && s[a..e] == s[a..d] + s[d..e];
  }

  /** Every listed body lies inside the archive. */
  predicate Inside(s: seq<byte>, files: seq<FileInfo>)
  {
    forall f :: f in files ==> f.offset + f.size <= |s|
  }

  function DecodedAll(s: seq<byte>, files: seq<FileInfo>): seq<Entry>
    requires Inside(s, files)
  {
    if files == [] then [] else [Decoded(s, files[0])] + DecodedAll(s, files[1..])
  }

  lemma {:induction false} EntriesRoundTrip(s: seq<byte>, at: nat, key: u32, entries: seq<Entry>, count: nat)
    requires at <= |s| && count + |entries| <= MAX_ENTRIES && AllListable(entries)
    requires s[at..] == EntriesBytes(key, entries)
    ensures var files := ListFrom(s, at, key, count);
            && files.Some? && Inside(s, files.value)
            && DecodedAll(s, files.value) == entries
    decreases |entries|
  {
    hide EntryBytes, ParseEntry, KeyAfter, Listable, Encodable, Body, Next;
    if entries == [] {
      assert at == |s|;
    } else {
      var next := SplitEntry(s, at, key, entries);
      var e := entries[0];
      EntryRoundTrip(s, at, key, e, next);
      var f := ParseEntry(s, at, key).value;
      EntriesRoundTrip(s, next, f.magic, entries[1..], count + 1);
      PrependFile(s, at, key, count, f, ListFrom(s, next, f.magic, count + 1).value, entries);
    }
  }

  /** Where the second entry of an encoding starts. */
  lemma SplitEntry(s: seq<byte>, at: nat, key: u32, entries: seq<Entry>) returns (next: nat)
    requires at <= |s| && entries != [] && AllListable(entries) && s[at..] == EntriesBytes(key, entries)
    ensures AllListable(entries[1..]) && Listable(entries[0]) && Encodable(entries[0])
    ensures at < next <= |s| && s[at..next] == EntryBytes(key, entries[0])
    ensures s[next..] == EntriesBytes(BodyKey(key, |entries[0].name|), entries[1..])
  {
    hide EntryBytes, KeyAfter;
    EntryNotEmpty(key, entries[0]);
    var bytes := EntryBytes(key, entries[0]);
    next := at + |bytes|;
    assert s[at..][..|bytes|] == bytes && s[at..next] == s[at..][..|bytes|];
    assert s[next..] == s[at..][|bytes|..];
  }

  lemma PrependFile(s: seq<byte>, at: nat, key: u32, count: nat, f: FileInfo, rest: seq<FileInfo>, entries: seq<Entry>)
    requires at < |s| && count < MAX_ENTRIES && entries != [] && ParseEntry(s, at, key) == Some(f)
    requires f.offset + f.size <= |s| && Decoded(s, f) == entries[0]
    requires ListFrom(s, f.offset + f.size, f.magic, count + 1) == Some(rest)
    requires Inside(s, rest) && DecodedAll(s, rest) == entries[1..]
    ensures ListFrom(s, at, key, count) == Some([f] + rest)
    ensures Inside(s, [f] + rest) && DecodedAll(s, [f] + rest) == entries
  {
    hide ParseEntry, Body;
    assert ([f] + rest)[1..] == rest && [entries[0]] + entries[1..] == entries;
  }

  lemma EntryNotEmpty(key: u32, e: Entry)
    requires Encodable(e)
    ensures |EntryBytes(key, e)| == 8 + |e.name| + |e.payload|
  {
  }

  /** Listing an encoded archive gives back every name and payload, in order. */
  lemma ArchiveRoundTrip(entries: seq<Entry>)
    requires |entries| <= MAX_ENTRIES && AllListable(entries)
    ensures var s := Archive(entries);
            && List(s).Some? && Inside(s, List(s).value)
            && DecodedAll(s, List(s).value) == entries
  {
    hide EntriesBytes;
    var s := Archive(entries);
    assert s[..8] == SIGNATURE && s[8..] == EntriesBytes(INITIAL_KEY, entries);
    EntriesRoundTrip(s, 8, INITIAL_KEY, entries, 0);
  }

  lemma {:induction false} ListedIsEncoded(s: seq<byte>, at: nat, key: u32, count: nat)
    requires at <= |s| && ListFrom(s, at, key, count).Some?
    ensures var files := ListFrom(s, at, key, count).value;
            && Inside(s, files)
            && AllListable(DecodedAll(s, files))
            && s[at..] == EntriesBytes(key, DecodedAll(s, files))
    decreases |s| - at
  {
    hide EntryBytes, ParseEntry, KeyAfter, Listable, Encodable, Body;
    if at < |s| {
      var f := ParseEntry(s, at, key).value;
      ParsedIsEncoded(s, at, key);
      var next := f.offset + f.size;
      ListedIsEncoded(s, next, f.magic, count + 1);
      var rest := ListFrom(s, next, f.magic, count + 1).value;
      var entries := DecodedAll(s, rest);
      var e := Decoded(s, f);
      assert ([f] + rest)[1..] == rest && ([e] + entries)[1..] == entries;
      assert s[at..] == s[at..next] + s[next..];
    }
  }

  /** Every archive the reader accepts is the encoding of what it lists: no two archives list alike. */
  lemma ListedArchiveIsCanonical(s: seq<byte>)
    requires List(s).Some?
    ensures var files := List(s).value;
            && Inside(s, files)
            && AllListable(DecodedAll(s, files))
            && s == Archive(DecodedAll(s, files))
  {
    hide EntriesBytes, ListFrom, DecodedAll, AllListable, Inside;
    ListedIsEncoded(s, 8, INITIAL_KEY, 0);
    assert s == s[..8] + s[8..];
  }
}
