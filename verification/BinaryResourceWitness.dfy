/** A resource that the full mode reads and the metadata mode refuses, whatever string bound below 64 it runs under. */
module BinaryResourceWitness {
  import opened Bytes
  import Utf8
  import opened BinaryResource
  import opened BinaryResourceModes

  /** A version 2 resource with one record, whose one property `a` is a raw array of 64 bytes. */
  function Specimen(): (data: seq<byte>)
    ensures |data| == 202
    ensures forall p :: 0 <= p < 202 ==> data[p] == SpecimenByte(p)
  {
    seq(202, p requires 0 <= p < 202 => SpecimenByte(p))
  }

  function SpecimenByte(p: nat): byte
  {
    match p
    case 8 => 2      // the major version
    case 88 => 1     // the number of strings
    case 92 => 2     // the length of the string, with its terminator
    case 96 => 0x61
    case 102 => 1    // the number of internal rows
    case 110 => 118  // where the row's record lies
    case 122 => 1    // the number of properties
    case 130 => 31   // the tag of raw arrays
    case 134 => 64   // the number of payload bytes
    case _ => 0
  }

  /** The budgets that the full parse of the specimen uses up. */
  function Enough(sizes: Sizes, text: nat): Limits
  {
    Limits(202, sizes.text + sizes.internal + sizes.record + sizes.property + 69, 1, text, 1)
  }

  predicate Reads(env: Env)
  {
    env.data == Specimen() && !env.bigEndian && env.limits.input == 202 && env.limits.nodes == 1 && env.limits.depth == 1
    && env.limits.text >= 2 && env.limits.allocation == Enough(env.sizes, 0).allocation
  }

  predicate Zeros(from: nat, to: nat)
  {
    forall p :: from <= p < to ==> SpecimenByte(p) == 0
  }

  lemma {:induction false} ZerosAreNothing(bytes: seq<byte>)
    requires forall i :: 0 <= i < |bytes| ==> bytes[i] == 0
    ensures Unsigned(bytes) == 0
    decreases |bytes|
  {
    if bytes != [] { ZerosAreNothing(bytes[1..]); }
  }

  /** A field of the specimen is worth its first byte when the others are zero. */
  lemma Field(env: Env, c: Cursor, width: nat)
    requires Reads(env) && 0 < width && c.pos + width <= 202 && Zeros(c.pos + 1, c.pos + width)
    ensures Word(env, c, width) == Ok(Read(SpecimenByte(c.pos), c.(pos := c.pos + width)))
  {
    var bytes := env.data[c.pos..c.pos + width];
    ZerosAreNothing(bytes[1..]);
  }

  lemma {:induction false} WordsFit(env: Env, c: Cursor, width: nat, count: nat)
    requires c.pos + width * count <= |env.data|
    ensures var r := Words(env, c, width, count); r.Ok? && r.value.at == c.(pos := c.pos + width * count)
    decreases count
  {
    hide Number;
    if count > 0 {
      assert width * count == width + width * (count - 1);
      WordsFit(env, c.(pos := c.pos + width), width, count - 1);
    }
  }

  lemma One<T>(x: T)
    ensures [x] + [] == [x]
  {
  }

  lemma SpecimenWords(env: Env, c: Cursor)
    requires Reads(env) && c.pos == 4
    ensures Words(env, c, 4, 4) == Ok(Read([0, 2, 0, 0], c.(pos := 20)))
  {
    hide Word;
    Field(env, c, 4);
    Field(env, c.(pos := 8), 4);
    Field(env, c.(pos := 12), 4);
    Field(env, c.(pos := 16), 4);
    var last := c.(pos := 20);
    assert Words(env, last, 4, 0) == Ok(Read([], last));
    One<nat>(0);
    assert [0 as nat] + [0] == [0, 0] && [2 as nat] + [0, 0] == [2, 0, 0] && [0 as nat] + [2, 0, 0] == [0, 2, 0, 0];
    assert Words(env, c.(pos := 16), 4, 1) == Ok(Read([0], last));
    assert Words(env, c.(pos := 12), 4, 2) == Ok(Read([0, 0], last));
    assert Words(env, c.(pos := 8), 4, 3) == Ok(Read([2, 0, 0], last));
  }

  /** The settings that the specimen's header leaves. */
  function Begin(sizes: Sizes, text: nat): Env
  {
    Fresh(Specimen(), Enough(sizes, text), sizes).(v2 := true)
  }

  lemma EmptyString(env: Env, c: Cursor)
    requires Reads(env) && c.pos + 4 <= 202 && Zeros(c.pos, c.pos + 4)
    ensures UnicodeString(env, c) == Ok(Read([], c.(pos := c.pos + 4)))
  {
    hide Word;
    Field(env, c, 4);
  }

  lemma SpecimenHeader(sizes: Sizes, text: nat)
    requires text >= 2
    ensures var r := ReadHeader(Fresh(Specimen(), Enough(sizes, text), sizes), Start(false), false);
            r.Ok? && r.value.value.env == Begin(sizes, text) && r.value.at == Start(false).(pos := 88)
  {
    hide Word, Words, UnicodeString;
    var env, c := Fresh(Specimen(), Enough(sizes, text), sizes), Start(false);
    Field(env, c, 4);
    SpecimenWords(env, c.(pos := 4));
    var begun := Begin(sizes, text);
    EmptyString(begun, c.(pos := 20));
    Field(begun, c.(pos := 24), 8);
    WordsFit(begun, c.(pos := 32), 4, 14);
  }

  // ---- the tables

  /** The settings that the specimen's tables leave. */
  function Known(sizes: Sizes, text: nat): Env
  {
    Begin(sizes, text).(strings := [[0x61]], internals := [Internal([], 118)])
  }

  lemma LetterIsWellFormed()
    ensures Utf8.WellFormed([0x61])
  {
  }

  lemma SpecimenString(env: Env, c: Cursor)
    requires Reads(env) && c.pos == 92 && c.alloc + 2 <= env.limits.allocation && !c.metadata
    ensures UnicodeString(env, c) == Ok(Read([0x61], c.(pos := 98, alloc := c.alloc + 2)))
  {
    hide Word, Utf8.WellFormed;
    Field(env, c, 4);
    var bytes := env.data[96..98];
    assert bytes[..1] == [0x61] && bytes[1] == 0;
    LetterIsWellFormed();
  }

  lemma SpecimenStrings(env: Env, c: Cursor)
    requires Reads(env) && c.pos == 88 && c.alloc == 0 && !c.metadata
    ensures StringTable(env, c) == Ok(Read([[0x61]], c.(pos := 98, alloc := env.sizes.text + 2)))
  {
    hide Word, UnicodeString;
    Field(env, c, 4);
    var paid := c.(pos := 92, alloc := env.sizes.text);
    SpecimenString(env, paid);
    var read := paid.(pos := 98, alloc := env.sizes.text + 2);
    One<seq<byte>>([0x61]);
    assert UnicodeStrings(env, read, 0) == Ok(Read([], read));
  }

  lemma SpecimenExternals(env: Env, c: Cursor)
    requires Reads(env) && c.pos == 98 && c.alloc <= env.limits.allocation
    ensures ExternalTable(env, c) == Ok(Read([], c.(pos := 102)))
  {
    hide Word;
    Field(env, c, 4);
  }

  lemma SpecimenInternals(env: Env, c: Cursor)
    requires Reads(env) && c.pos == 102 && c.alloc == env.sizes.text + 2
    ensures InternalTable(env, c) == Ok(Read([Internal([], 118)], c.(pos := 118, alloc := c.alloc + env.sizes.internal)))
  {
    hide Word, UnicodeString;
    Field(env, c, 4);
    var paid := c.(pos := 106, alloc := c.alloc + env.sizes.internal);
    EmptyString(env, paid);
    Field(env, paid.(pos := 110), 8);
    var read := paid.(pos := 118);
    One(Internal([], 118));
    assert ReadInternals(env, read, 0) == Ok(Read([], read));
  }

  lemma SpecimenTables(sizes: Sizes, text: nat)
    requires text >= 2
    ensures ReadTables(Begin(sizes, text), Start(false).(pos := 88))
            == Ok(Read(Known(sizes, text), Start(false).(pos := 118, alloc := sizes.text + sizes.internal + 2)))
  {
    hide StringTable, ExternalTable, InternalTable;
    var env, c := Begin(sizes, text), Start(false).(pos := 88);
    SpecimenStrings(env, c);
    SpecimenExternals(env, c.(pos := 98, alloc := sizes.text + 2));
    SpecimenInternals(env, c.(pos := 102, alloc := sizes.text + 2));
  }

  // ---- the record

  predicate Resolves(env: Env)
  {
    Reads(env) && env.strings == [[0x61]] && env.v2 && !env.modern
  }

  /** The value passes its 64 payload bytes. */
  lemma SpecimenPayload(env: Env, c: Cursor)
    requires Reads(env) && c.pos == 134 && c.alloc + 64 <= env.limits.allocation && !c.metadata
    ensures var r := Payload(env, c); r.Ok? && r.value.at.widest >= KEPT
  {
    hide Word;
    Field(env, c, 4);
  }

  lemma SpecimenValue(env: Env, c: Cursor)
    requires Resolves(env) && c.pos == 130 && c.alloc + 64 <= env.limits.allocation && c.nodes == 0 && !c.metadata
    ensures var r := ReadValue(env, c, 1); r.Ok? && r.value.at.widest >= KEPT
  {
    hide Word, Payload;
    var entered := c.(nodes := 1);
    Field(env, entered, 4);
    SpecimenPayload(env, entered.(pos := 134));
  }

  lemma SpecimenProperty(env: Env, c: Cursor)
    requires Resolves(env) && c.pos == 126 && c.alloc + 66 <= env.limits.allocation && c.nodes == 0 && !c.metadata
    ensures var r := ReadProperty(env, c); r.Ok? && r.value.at.widest >= KEPT
  {
    hide Word, ReadValue;
    Field(env, c, 4);
    SpecimenValue(env, c.(pos := 130, alloc := c.alloc + 2));
  }

  lemma SpecimenProperties(env: Env, c: Cursor)
    requires Resolves(env) && c.pos == 126 && c.alloc + 66 <= env.limits.allocation && c.nodes == 0 && !c.metadata
    ensures var r := ReadProperties(env, c, 1); r.Ok? && r.value.at.widest >= KEPT
  {
    hide ReadProperty;
    SpecimenProperty(env, c);
    var read := ReadProperty(env, c).value.at;
    assert ReadProperties(env, read, 0) == Ok(Read([], read));
  }

  lemma SpecimenRecord(env: Env, c: Cursor)
    requires Resolves(env) && c.alloc + env.sizes.property + 67 <= env.limits.allocation && c.nodes == 0 && !c.metadata
    ensures var r := ReadRecord(env, c, Internal([], 118)); r.Ok? && r.value.at.widest >= KEPT
  {
    hide Word, UnicodeString, ReadProperties;
    var paid := c.(pos := 118, alloc := c.alloc + 1);
    EmptyString(env, paid);
    Field(env, paid.(pos := 122), 4);
    SpecimenProperties(env, paid.(pos := 126, alloc := paid.alloc + env.sizes.property));
  }

  lemma SpecimenRecords(sizes: Sizes, text: nat)
    requires text >= 2
    ensures var r := AllRecords(Known(sizes, text), Start(false).(pos := 118, alloc := sizes.text + sizes.internal + 2));
            r.Ok? && r.value.at.widest >= KEPT
  {
    hide ReadRecord;
    var env, c := Known(sizes, text), Start(false).(pos := 118, alloc := sizes.text + sizes.internal + 2);
    var paid := c.(alloc := c.alloc + sizes.record);
    SpecimenRecord(env, paid);
    var read := ReadRecord(env, paid, env.internals[0]).value.at;
    assert ReadRecords(env, read, env.internals[1..]) == Ok(Read([], read));
  }

  /** The string bound matters up to the last byte: under each one from 2 to 63 the full mode reads the specimen and the metadata mode does not. */
  lemma ShortBoundWitness(sizes: Sizes, text: nat)
    requires 2 <= text < KEPT
    ensures Parse(Specimen(), false, Enough(sizes, text), sizes, false).Ok?
    ensures Parse(Specimen(), false, Enough(sizes, text), sizes, true) == Err(FetchTooLong)
  {
    hide ReadHeader, ReadTables, AllRecords;
    SpecimenHeader(sizes, text);
    SpecimenTables(sizes, text);
    SpecimenRecords(sizes, text);
    MetadataIsFullParse(Specimen(), false, Enough(sizes, text), sizes);
  }
}
