/** Parsing a written file gives the resource it stands for. */
module BinaryResourceParsed {
  import opened Bytes
  import Decimal
  import opened BinaryResource
  import opened BinaryResourceWire
  import opened BinaryResourcePrinted
  import opened BinaryResourceFile
  import Utf8

  lemma SameInput(a: Env, b: Env, pos: nat, bytes: seq<byte>)
    requires a.data == b.data && At(a, pos, bytes)
    ensures At(b, pos, bytes)
  {
  }

  // ---- the header

  /** The settings a header leaves. */
  function HeadEnv(env: Env, f: WFile): Env
  {
    env.(bigEndian := Big(f), realIsDouble := if f.major == 4 then f.double else f.doubles != 0, modern := f.major == 4,
         v2 := f.major == 2, version := f.version, uids := WithUids(f), namedIds := ByPlace(f))
  }

  lemma LowBits(low: nat, spare: nat)
    ensures (low + 16 * spare) % 2 == low % 2 && (low + 16 * spare) / 2 == low / 2 + 8 * spare
  {
  }

  lemma LowQuarter(low: nat, spare: nat)
    ensures (low + 16 * spare) / 4 == low / 4 + 4 * spare && (low + 16 * spare) / 8 == low / 8 + 2 * spare
  {
  }

  lemma FourBits(a: nat, b: nat, c: nat, d: nat)
    requires a < 2 && b < 2 && c < 2 && d < 2
    ensures var low := a + 2 * b + 4 * c + 8 * d; low < 16 && low % 2 == a && low / 2 % 2 == b && low / 4 % 2 == c && low / 8 % 2 == d
  {
  }

  lemma FlagBits(f: WFile)
    ensures Flags(f) % 2 == 1 <==> f.named
    ensures Flags(f) / 2 % 2 == 1 <==> f.uids
    ensures Flags(f) / 4 % 2 == 1 <==> f.double
    ensures Flags(f) / 8 % 2 == 1 <==> f.script.Some?
    ensures f.spare < 0x1000_0000 ==> Flags(f) < SPAN32
  {
    var a, b, c, d := if f.named then 1 else 0, if f.uids then 1 else 0, if f.double then 1 else 0, if f.script.Some? then 1 else 0;
    var low := a + 2 * b + 4 * c + 8 * d;
    FlagsAre(f, a, b, c, d);
    hide Flags;
    FourBits(a, b, c, d);
    LowBits(low, f.spare);
    LowQuarter(low, f.spare);
    EvenMore(low / 2, 4 * f.spare);
    EvenMore(low / 4, 2 * f.spare);
    EvenMore(low / 8, f.spare);
  }

  lemma FlagsAre(f: WFile, a: nat, b: nat, c: nat, d: nat)
    requires a == (if f.named then 1 else 0) && b == (if f.uids then 1 else 0) && c == (if f.double then 1 else 0)
    requires d == if f.script.Some? then 1 else 0
    ensures Flags(f) == a + 2 * b + 4 * c + 8 * d + 16 * f.spare
  {
  }

  lemma EvenMore(x: nat, y: nat)
    ensures (x + 2 * y) % 2 == x % 2
  {
  }

  function ScriptCost(f: WFile): nat
  {
    if f.script.Some? then |f.script.value| + 1 else 0
  }

  function PrintScript(f: WFile): seq<byte>
  {
    if f.script.Some? then PrintText(Big(f), f.script.value) else []
  }

  lemma ModernReads(env: Env, c: Cursor, f: WFile)
    requires HeadOk(f, env.limits.text) && f.major == 4 && env.bigEndian == Big(f)
    requires At(env, c.pos, PrintTail(f)) && Room(env, c, ScriptCost(f), 0)
    ensures ModernHeader(env, c)
         == Ok(Read(env.(realIsDouble := f.double, uids := f.uids, namedIds := f.named), Moved(c, |PrintTail(f)|, ScriptCost(f), 0)))
  {
    hide Word, Words, Num, Nums, UnicodeString, PrintText, At, TextOk, Flags;
    var big, reserved, script := Big(f), Nums(Big(f), f.reserved, 4), PrintScript(f);
    AtBoth(env, c.pos, Num(big, Flags(f), 4), Num(big, f.uid, 8) + (script + reserved));
    AtBoth(env, c.pos + 4, Num(big, f.uid, 8), script + reserved);
    AtBoth(env, c.pos + 12, script, reserved);
    FlagBits(f);
    WordReads(env, c, Flags(f));
    Spans();
    NumReads(env, Moved(c, 4, 0, 0), f.uid, 8);
    if f.script.Some? { TextReads(env, Moved(c, 12, 0, 0), f.script.value); }
    NumsRead(env, Moved(c, 12 + |script|, ScriptCost(f), 0), f.reserved, 4);
  }

  lemma LegacyReads(env: Env, c: Cursor, f: WFile)
    requires HeadOk(f, env.limits.text) && f.major != 4 && env.bigEndian == Big(f) && At(env, c.pos, PrintTail(f))
    ensures LegacyHeader(env, c) == Ok(Read(env, Moved(c, |PrintTail(f)|, 0, 0)))
  {
    hide Words, Nums, At;
    NumsRead(env, c, f.reserved, 4);
  }

  /** The settings the version words leave. */
  function VersionEnv(env: Env, f: WFile): Env
  {
    env.(modern := f.major == 4, v2 := f.major == 2, version := f.version, realIsDouble := f.doubles != 0)
  }

  function Behind(f: WFile): seq<byte>
  {
    PrintText(Big(f), f.kind) + (Num(Big(f), f.imported, 8) + PrintTail(f))
  }

  lemma TailReads(env: Env, c: Cursor, f: WFile, words: seq<nat>)
    requires HeadOk(f, env.limits.text) && env.bigEndian == Big(f) && words == [f.doubles, f.major, f.minor, f.version]
    requires env == VersionEnv(env, f) && !env.uids && !env.namedIds && f.imported <= |env.data|
    requires At(env, c.pos, Behind(f)) && Room(env, c, HeadCost(f), 0)
    ensures HeaderTail(env, c, words)
         == Ok(Read(Begun(HeadEnv(env, f), Header(f.major, f.minor, f.version, f.kind)), Moved(c, |Behind(f)|, HeadCost(f), 0)))
  {
    hide Word, Num, UnicodeString, PrintText, At, TextOk, ModernHeader, LegacyHeader, PrintTail;
    AtBoth(env, c.pos, PrintText(Big(f), f.kind), Num(Big(f), f.imported, 8) + PrintTail(f));
    var after := Moved(c, |PrintText(Big(f), f.kind)|, |f.kind| + 1, 0);
    AtBoth(env, after.pos, Num(Big(f), f.imported, 8), PrintTail(f));
    TextReads(env, c, f.kind);
    Spans();
    NumReads(env, after, f.imported, 8);
    if f.major == 4 { ModernReads(env, Moved(after, 8, 0, 0), f); } else { LegacyReads(env, Moved(after, 8, 0, 0), f); }
  }

  lemma VersionsRead(env: Env, c: Cursor, f: WFile)
    requires HeadOk(f, env.limits.text) && env.bigEndian == Big(f) && At(env, c.pos, PrintVersions(f))
    ensures Words(env, c, 4, 4) == Ok(Read([f.doubles, f.major, f.minor, f.version], Moved(c, 16, 0, 0)))
    ensures Versioned(env, [f.doubles, f.major, f.minor, f.version]) == Ok(VersionEnv(env, f))
    ensures At(env, c.pos + 16, Behind(f)) && |PrintVersions(f)| == 16 + |Behind(f)|
  {
    hide Words, Nums, At, PrintTail, PrintText, Num, TextOk;
    var words := [f.doubles, f.major, f.minor, f.version];
    AtBoth(env, c.pos, Nums(Big(f), words, 4), Behind(f));
    NumsRead(env, c, words, 4);
  }

  lemma MagicReads(env: Env, magic: bool, rest: seq<byte>)
    requires At(env, 0, (if magic then [0x52, 0x53, 0x52, 0x43] else []) + rest)
    ensures Magic(env, Start(false), magic) == Ok(Moved(Start(false), if magic then 4 else 0, 0, 0))
    ensures At(env, if magic then 4 else 0, rest)
  {
    AtBoth(env, 0, if magic then [0x52, 0x53, 0x52, 0x43] else [], rest);
    if magic { assert env.data[..4] == env.data[0..4] == RSRC; }
  }

  lemma HeadReads(env: Env, f: WFile, magic: bool)
    requires env == Fresh(env.data, env.limits, env.sizes) && HeadOk(f, env.limits.text) && f.imported <= |env.data|
    requires At(env, 0, PrintHead(f, magic)) && HeadCost(f) <= env.limits.allocation
    ensures ReadHeader(env, Start(false), magic)
         == Ok(Read(Begun(HeadEnv(env, f), Header(f.major, f.minor, f.version, f.kind)), Moved(Start(false), |PrintHead(f, magic)|, HeadCost(f), 0)))
  {
    hide Word, Words, Magic, HeaderTail, Versioned, PrintVersions, At, LittleEndian, HeadCost, HeadOk;
    OrderIsWord(f, env.limits.text);
    MagicReads(env, magic, LittleEndian(f.order, 4) + PrintVersions(f));
    var start := Moved(Start(false), if magic then 4 else 0, 0, 0);
    AtBoth(env, start.pos, LittleEndian(f.order, 4), PrintVersions(f));
    assert Num(false, f.order, 4) == LittleEndian(f.order, 4);
    WordReads(env, start, f.order);
    var ordered := env.(bigEndian := f.order != 0);
    SameInput(env, ordered, start.pos + 4, PrintVersions(f));
    BodyOfHead(ordered, Moved(start, 4, 0, 0), f);
    assert HeadEnv(ordered, f) == HeadEnv(env, f);
  }

  lemma OrderIsWord(f: WFile, most: nat)
    requires HeadOk(f, most)
    ensures f.order < SPAN32
  {
  }

  /** The version words and all behind them. */
  lemma BodyOfHead(env: Env, c: Cursor, f: WFile)
    requires HeadOk(f, env.limits.text) && env.bigEndian == Big(f) && !env.uids && !env.namedIds && f.imported <= |env.data|
    requires At(env, c.pos, PrintVersions(f)) && Room(env, c, HeadCost(f), 0)
    ensures Words(env, c, 4, 4).Ok? && |Words(env, c, 4, 4).value.value| == 4
    ensures var words := Words(env, c, 4, 4).value;
            && Versioned(env, words.value).Ok?
            && HeaderTail(Versioned(env, words.value).value, words.at, words.value)
               == Ok(Read(Begun(HeadEnv(env, f), Header(f.major, f.minor, f.version, f.kind)), Moved(c, |PrintVersions(f)|, HeadCost(f), 0)))
  {
    hide Words, HeaderTail, Versioned, PrintVersions, At, HeadCost, HeadOk, Behind;
    VersionsRead(env, c, f);
    var known := VersionEnv(env, f);
    SameInput(env, known, c.pos + 16, Behind(f));
    TailReads(known, Moved(c, 16, 0, 0), f, [f.doubles, f.major, f.minor, f.version]);
    assert HeadEnv(known, f) == HeadEnv(env, f);
  }

  // ---- the tables

  lemma {:induction false} TextsRead(env: Env, c: Cursor, texts: seq<seq<byte>>)
    requires (forall s :: s in texts ==> TextOk(env.limits.text, s)) && At(env, c.pos, PrintTexts(env.bigEndian, texts))
    requires Room(env, c, TextsCost(texts), 0)
    ensures UnicodeStrings(env, c, |texts|) == Ok(Read(texts, Moved(c, |PrintTexts(env.bigEndian, texts)|, TextsCost(texts), 0)))
    decreases |texts|
  {
    hide UnicodeString, PrintText, TextOk, At;
    if texts != [] {
      AtBoth(env, c.pos, PrintText(env.bigEndian, texts[0]), PrintTexts(env.bigEndian, texts[1..]));
      TextReads(env, c, texts[0]);
      TextsRead(env, Moved(c, |PrintText(env.bigEndian, texts[0])|, |texts[0]| + 1, 0), texts[1..]);
      assert [texts[0]] + texts[1..] == texts;
    }
  }

  lemma ExternalReads(env: Env, c: Cursor, r: WRow)
    requires TextOk(env.limits.text, r.kind) && TextOk(env.limits.text, r.path) && r.uid < SPAN64
    requires At(env, c.pos, PrintExternal(env.bigEndian, env.modern && env.uids, r)) && Room(env, c, |r.kind| + 1 + (|r.path| + 1), 0)
    ensures ReadExternal(env, c)
         == Ok(Read(External(r.kind, r.path), Moved(c, |PrintExternal(env.bigEndian, env.modern && env.uids, r)|, |r.kind| + 1 + (|r.path| + 1), 0)))
  {
    hide UnicodeString, PrintText, TextOk, Num;
    var big := env.bigEndian;
    var uid := if env.modern && env.uids then Num(big, r.uid, 8) else [];
    AtBoth(env, c.pos, PrintText(big, r.kind), PrintText(big, r.path) + uid);
    AtBoth(env, c.pos + |PrintText(big, r.kind)|, PrintText(big, r.path), uid);
    TextReads(env, c, r.kind);
    TextReads(env, Moved(c, |PrintText(big, r.kind)|, |r.kind| + 1, 0), r.path);
  }

  lemma {:induction false} ExternalsRead(env: Env, c: Cursor, rs: seq<WRow>)
    requires forall r :: r in rs ==> TextOk(env.limits.text, r.kind) && TextOk(env.limits.text, r.path) && r.uid < SPAN64
    requires At(env, c.pos, PrintExternals(env.bigEndian, env.modern && env.uids, rs)) && Room(env, c, ExternalsCost(rs), 0)
    ensures ReadExternals(env, c, |rs|)
         == Ok(Read(Externals(rs), Moved(c, |PrintExternals(env.bigEndian, env.modern && env.uids, rs)|, ExternalsCost(rs), 0)))
    decreases |rs|
  {
    hide ReadExternal, PrintExternal, TextOk, At;
    if rs != [] {
      var uids := env.modern && env.uids;
      AtBoth(env, c.pos, PrintExternal(env.bigEndian, uids, rs[0]), PrintExternals(env.bigEndian, uids, rs[1..]));
      ExternalReads(env, c, rs[0]);
      ExternalsRead(env, Moved(c, |PrintExternal(env.bigEndian, uids, rs[0])|, |rs[0].kind| + 1 + (|rs[0].path| + 1), 0), rs[1..]);
      assert Externals(rs) == [External(rs[0].kind, rs[0].path)] + Externals(rs[1..]);
    }
  }

  function RowsCost(rows: seq<Internal>): nat
  {
    if rows == [] then 0 else |rows[0].path| + 1 + RowsCost(rows[1..])
  }

  predicate RowOk(most: nat, row: Internal)
  {
    TextOk(most, row.path) && row.offset < SPAN64
  }

  lemma InternalReads(env: Env, c: Cursor, row: Internal)
    requires RowOk(env.limits.text, row)
    requires At(env, c.pos, PrintInternal(env.bigEndian, row)) && Room(env, c, |row.path| + 1, 0)
    ensures ReadInternal(env, c) == Ok(Read(row, Moved(c, |PrintInternal(env.bigEndian, row)|, |row.path| + 1, 0)))
  {
    hide UnicodeString, PrintText, TextOk, Num, Word, At;
    AtBoth(env, c.pos, PrintText(env.bigEndian, row.path), Num(env.bigEndian, row.offset, 8));
    TextReads(env, c, row.path);
    Spans();
    NumReads(env, Moved(c, |PrintText(env.bigEndian, row.path)|, |row.path| + 1, 0), row.offset, 8);
  }

  lemma {:induction false} InternalsRead(env: Env, c: Cursor, rows: seq<Internal>)
    requires forall r :: r in rows ==> RowOk(env.limits.text, r)
    requires At(env, c.pos, PrintInternals(env.bigEndian, rows)) && Room(env, c, RowsCost(rows), 0)
    ensures ReadInternals(env, c, |rows|) == Ok(Read(rows, Moved(c, |PrintInternals(env.bigEndian, rows)|, RowsCost(rows), 0)))
    decreases |rows|
  {
    hide ReadInternal, PrintInternal, RowOk, At;
    if rows != [] {
      AtBoth(env, c.pos, PrintInternal(env.bigEndian, rows[0]), PrintInternals(env.bigEndian, rows[1..]));
      InternalReads(env, c, rows[0]);
      InternalsRead(env, Moved(c, |PrintInternal(env.bigEndian, rows[0])|, |rows[0].path| + 1, 0), rows[1..]);
      assert [rows[0]] + rows[1..] == rows;
    }
  }

  lemma StringTableReads(env: Env, c: Cursor, f: WFile)
    requires TablesOk(f, env.limits.text) && env.bigEndian == Big(f)
    requires At(env, c.pos, PrintStringTable(f)) && Room(env, c, StringsCharge(f, env.sizes), 0)
    ensures StringTable(env, c) == Ok(Read(f.strings, Moved(c, |PrintStringTable(f)|, StringsCharge(f, env.sizes), 0)))
  {
    hide Count, UnicodeStrings, PrintTexts, TextOk, Num, At, TextsCost;
    CountReads(env, c, |f.strings|, 4, PrintTexts(Big(f), f.strings));
    TextsRead(env, Moved(c, 4, |f.strings| * env.sizes.text, 0), f.strings);
  }

  lemma ExternalTableReads(env: Env, c: Cursor, f: WFile)
    requires TablesOk(f, env.limits.text) && env.bigEndian == Big(f) && (env.modern && env.uids) == WithUids(f)
    requires At(env, c.pos, PrintExternalTable(f)) && Room(env, c, ExternalsCharge(f, env.sizes), 0)
    ensures ExternalTable(env, c) == Ok(Read(Externals(f.externals), Moved(c, |PrintExternalTable(f)|, ExternalsCharge(f, env.sizes), 0)))
  {
    hide Count, ReadExternals, PrintExternals, TextOk, Num, At, ExternalsCost, Externals;
    CountReads(env, c, |f.externals|, if WithUids(f) then 16 else 8, PrintExternals(Big(f), WithUids(f), f.externals));
    ExternalsRead(env, Moved(c, 4, |f.externals| * env.sizes.external, 0), f.externals);
  }

  function RowsCharge(env: Env, rows: seq<Internal>): nat
  {
    |rows| * env.sizes.internal + RowsCost(rows)
  }

  lemma DirectoryReads(env: Env, c: Cursor, rows: seq<Internal>)
    requires |rows| < SPAN32 && forall r :: r in rows ==> RowOk(env.limits.text, r)
    requires At(env, c.pos, PrintDirectory(env.bigEndian, rows)) && Room(env, c, RowsCharge(env, rows), 0)
    ensures InternalTable(env, c)
         == Ok(Read(rows, Moved(c, |PrintDirectory(env.bigEndian, rows)|, RowsCharge(env, rows), 0)))
  {
    hide Count, ReadInternals, PrintInternals, RowOk, Num, At, RowsCost;
    CountReads(env, c, |rows|, 12, PrintInternals(env.bigEndian, rows));
    InternalsRead(env, Moved(c, 4, |rows| * env.sizes.internal, 0), rows);
  }

  // ---- the ids

  lemma {:induction false} MagnitudeReads(m: nat, bound: nat)
    requires m <= bound
    ensures Magnitude(Decimal.Digits(m), bound) == Some(m)
    decreases m
  {
    var d := Decimal.Digits(m);
    if m < 10 {
      assert d[..0] == [] && Magnitude([], bound) == Some(0);
    } else {
      MagnitudeReads(m / 10, bound);
      assert d[..|d| - 1] == Decimal.Digits(m / 10);
    }
  }

  lemma LocalReads(p: WPath)
    requires p.Local? && PathOk(p)
    ensures LOCAL <= PathText(p) && LocalId(PathText(p)) == Some(Id(p))
  {
    hide Magnitude, Decimal.Digits;
    var digits := Decimal.Digits(p.magnitude);
    var suffix := (if p.negative then [0x2D] else []) + digits;
    var path := PathText(p);
    assert path[..8] == LOCAL && path[8..] == suffix;
    assert Decimal.IsDigit(digits[0]);
    if p.negative { assert suffix[1..] == digits; } else { assert suffix == digits; }
    MagnitudeReads(p.magnitude, if p.negative then 0x8000_0000 else 0xFFFF_FFFF);
  }

  lemma {:induction false} IdsAre(internals: seq<Internal>, records: seq<WRecord>, n: nat)
    requires n <= |records| == |internals| && IdsOk(records, n)
    requires forall k :: 0 <= k < |records| ==> internals[k].path == PathText(records[k].path)
    ensures LegacyIds(internals, n) == Ok(Ids(records, n))
    ensures forall id :: id in Ids(records, n) ==> exists k :: 0 <= k < n && records[k].path.Local? && Id(records[k].path) == id
    decreases n
  {
    hide LocalId, PathText, PathOk, Id;
    if n > 0 {
      IdsAre(internals, records, n - 1);
      var p := records[n - 1].path;
      assert internals[n - 1].path == PathText(p);
      if p.Local? {
        LocalReads(p);
      } else {
        PlainIsNotLocal(p);
      }
    }
  }

  lemma PlainIsNotLocal(p: WPath)
    requires p.Plain? && PathOk(p)
    ensures !(LOCAL <= PathText(p))
  {
  }

  // ---- the records

  lemma PropertyReads(env: Env, c: Cursor, p: WProperty)
    requires PropertyOk(TermsOf(env), p) && At(env, c.pos, PrintProperty(TermsOf(env), p))
    requires Room(env, c, PropertyCost(TermsOf(env), p), Nodes(p.value))
    ensures Gives(ReadProperty(env, c), PropertyOf(TermsOf(env), p, c.pos), c, |PrintProperty(TermsOf(env), p)|,
                  PropertyCost(TermsOf(env), p), Nodes(p.value))
  {
    hide Name, ReadValue, NameOk, Writable, Shallow, At, PrintName, Print, NameCost, Cost, Nodes, Meaning;
    var t := TermsOf(env);
    AtBoth(env, c.pos, PrintName(env.bigEndian, p.name), Print(t, p.value));
    NameReads(env, c, p.name);
    ValueReads(env, Moved(c, |PrintName(env.bigEndian, p.name)|, NameCost(t, p.name), 0), 1, p.value);
  }

  lemma {:induction false} PropertiesRead(env: Env, c: Cursor, ps: seq<WProperty>)
    requires (forall p :: p in ps ==> PropertyOk(TermsOf(env), p)) && At(env, c.pos, PrintProperties(TermsOf(env), ps))
    requires Room(env, c, PropertiesCost(TermsOf(env), ps), PropertiesNodes(ps))
    ensures Gives(ReadProperties(env, c, |ps|), PropertiesOf(TermsOf(env), ps, c.pos), c, |PrintProperties(TermsOf(env), ps)|,
                  PropertiesCost(TermsOf(env), ps), PropertiesNodes(ps))
    decreases |ps|
  {
    hide ReadProperty, PropertyOk, At, PrintProperty, PropertyCost, PropertyOf, Nodes;
    if ps != [] {
      AtBoth(env, c.pos, PrintProperty(TermsOf(env), ps[0]), PrintProperties(TermsOf(env), ps[1..]));
      PropertyReads(env, c, ps[0]);
      PropertiesRead(env, ReadProperty(env, c).value.at, ps[1..]);
    }
  }

  lemma PropertyIsShallow(t: Terms, ps: seq<WProperty>)
    requires forall p :: p in ps ==> PropertyOk(t, p)
    ensures ps != [] ==> 1 <= t.depth
  {
    if ps != [] {
      assert PropertyOk(t, ps[0]);
      ShallowItems(t, ps[0].value, 1);
    }
  }

  lemma BodyOfRecord(env: Env, c: Cursor, r: WRecord, path: seq<byte>)
    requires RecordOk(TermsOf(env), r) && At(env, c.pos, PrintRecord(TermsOf(env), r)) && path == PathText(r.path)
    requires Room(env, c, |r.kind| + 1 + PropertiesCharge(TermsOf(env), r.properties), PropertiesNodes(r.properties))
    ensures Gives(RecordBody(env, c, path), RecordOf(TermsOf(env), r, c.pos), c, |PrintRecord(TermsOf(env), r)|,
                  |r.kind| + 1 + PropertiesCharge(TermsOf(env), r.properties), PropertiesNodes(r.properties))
  {
    hide UnicodeString, Count, ReadProperties, PropertyOk, TextOk, At, PrintText, Num, PrintProperties, PropertiesCost, PropertiesOf,
      PropertiesNodes, PathText;
    var t, n := TermsOf(env), |r.properties|;
    AtBoth(env, c.pos, PrintText(env.bigEndian, r.kind), Num(env.bigEndian, n, 4) + PrintProperties(t, r.properties));
    TextReads(env, c, r.kind);
    var after := Moved(c, |r.kind| + 5, |r.kind| + 1, 0);
    CountReads(env, after, n, 8, PrintProperties(t, r.properties));
    PropertyIsShallow(t, r.properties);
    PropertiesRead(env, Moved(after, 4, n * env.sizes.property, 0), r.properties);
  }

  lemma RecordReads(env: Env, c: Cursor, r: WRecord, at: nat)
    requires RecordOk(TermsOf(env), r) && At(env, at, PrintRecord(TermsOf(env), r))
    requires Room(env, c, RecordCost(TermsOf(env), r), PropertiesNodes(r.properties))
    ensures Gives(ReadRecord(env, c, Internal(PathText(r.path), at)), RecordOf(TermsOf(env), r, at), c.(pos := at),
                  |PrintRecord(TermsOf(env), r)|, RecordCost(TermsOf(env), r), PropertiesNodes(r.properties))
  {
    hide RecordBody, RecordOk, PrintRecord, PropertiesCharge, RecordOf, PropertiesNodes, PathText;
    BodyOfRecord(env, Moved(c.(pos := at), 0, |PathText(r.path)| + 1, 0), r, PathText(r.path));
  }

  lemma {:induction false} RecordsRead(env: Env, c: Cursor, records: seq<WRecord>, at: nat)
    requires RecordsOk(TermsOf(env), records) && At(env, at, PrintRecords(TermsOf(env), records))
    requires Room(env, c, RecordsCost(TermsOf(env), records), RecordsNodes(records))
    ensures var r := ReadRecords(env, c, Directory(TermsOf(env), records, at)); r.Ok? && r.value.value == RecordsOf(TermsOf(env), records, at)
    decreases |records|
  {
    hide ReadRecord, RecordOk, At, PrintRecord, RecordCost, RecordOf, PropertiesNodes, PathText;
    if records != [] {
      var t := TermsOf(env);
      AtBoth(env, at, PrintRecord(t, records[0]), PrintRecords(t, records[1..]));
      RecordReads(env, c, records[0], at);
      var next := at + |PrintRecord(t, records[0])|;
      RecordsRead(env, ReadRecord(env, c, Internal(PathText(records[0].path), at)).value.at, records[1..], next);
      assert Directory(t, records, at)[1..] == Directory(t, records[1..], next);
    }
  }

  // ---- the whole file

  function TablesEnv(env: Env, f: WFile, rows: seq<Internal>): Env
  {
    env.(strings := f.strings, externals := Externals(f.externals), internals := rows)
  }

  lemma TablesRead(env: Env, c: Cursor, f: WFile, rows: seq<Internal>, rest: seq<byte>)
    requires TablesOk(f, env.limits.text) && env.bigEndian == Big(f) && (env.modern && env.uids) == WithUids(f)
    requires |rows| == |f.records| && (forall r :: r in rows ==> RowOk(env.limits.text, r)) && RowsCost(rows) == PathsCost(f.records)
    requires At(env, c.pos, PrintStringTable(f) + (PrintExternalTable(f) + (PrintDirectory(Big(f), rows) + rest)))
    requires Room(env, c, StringsCharge(f, env.sizes) + ExternalsCharge(f, env.sizes) + DirectoryCharge(f, env.sizes), 0)
    ensures ReadTables(env, c)
         == Ok(Read(TablesEnv(env, f, rows),
                    Moved(c, |PrintStringTable(f)| + |PrintExternalTable(f)| + |PrintDirectory(Big(f), rows)|,
                          StringsCharge(f, env.sizes) + ExternalsCharge(f, env.sizes) + DirectoryCharge(f, env.sizes), 0)))
    ensures At(env, c.pos + |PrintStringTable(f)| + |PrintExternalTable(f)| + |PrintDirectory(Big(f), rows)|, rest)
  {
    hide StringTable, ExternalTable, InternalTable, PrintStringTable, PrintExternalTable, PrintDirectory, At, StringsCharge, ExternalsCharge,
      RowsCost, PathsCost, RowOk, Externals;
    TableCounts(f, env.limits.text);
    var (a, b, d) := (PrintStringTable(f), PrintExternalTable(f), PrintDirectory(Big(f), rows));
    AtBoth(env, c.pos, a, b + (d + rest));
    AtBoth(env, c.pos + |a|, b, d + rest);
    AtBoth(env, c.pos + |a| + |b|, d, rest);
    StringTableReads(env, c, f);
    var second := Moved(c, |a|, StringsCharge(f, env.sizes), 0);
    ExternalTableReads(env, second, f);
    DirectoryReads(env, Moved(second, |b|, ExternalsCharge(f, env.sizes), 0), rows);
  }

  lemma TableCounts(f: WFile, most: nat)
    requires TablesOk(f, most)
    ensures |f.records| < SPAN32
  {
  }

  /** Paths and offsets of the directory. */
  lemma {:induction false} DirectoryRows(t: Terms, records: seq<WRecord>, at: nat)
    requires RecordsOk(t, records)
    ensures forall k :: 0 <= k < |records| ==> Directory(t, records, at)[k].path == PathText(records[k].path)
    ensures forall k :: 0 <= k < |records| ==> Directory(t, records, at)[k].offset <= at + |PrintRecords(t, records)|
    ensures RowsCost(Directory(t, records, at)) == PathsCost(records)
    ensures |PrintInternals(t.bigEndian, Directory(t, records, at))| == DirectorySize(records)
    decreases |records|
  {
    hide PathText, RecordOk, PrintRecord, PrintInternal;
    if records != [] {
      var next := at + |PrintRecord(t, records[0])|;
      DirectoryRows(t, records[1..], next);
      var rows := Directory(t, records, at);
      assert rows[1..] == Directory(t, records[1..], next);
      InternalSize(t.bigEndian, rows[0]);
    }
  }

  lemma InternalSize(big: bool, row: Internal)
    ensures |PrintInternal(big, row)| == |row.path| + 13
  {
  }

  lemma RowsAreOk(f: WFile, limits: Limits, t: Terms, rows: seq<Internal>, at: nat, size: nat)
    requires TablesOk(f, limits.text) && RecordsOk(t, f.records) && rows == Directory(t, f.records, at)
    requires at + |PrintRecords(t, f.records)| <= size < SPAN64
    ensures forall r :: r in rows ==> RowOk(limits.text, r)
  {
    hide PathText, RecordOk, PrintRecords, Directory, TextOk, RecordsOk;
    DirectoryRows(t, f.records, at);
    forall r | r in rows ensures RowOk(limits.text, r) {
      var k :| 0 <= k < |rows| && rows[k] == r;
      assert f.records[k] in f.records;
    }
  }

  /** The ids of a file that refers to its subresources by them. */
  function IdsOf(f: WFile): map<nat, nat>
    requires ByPlace(f) || IdsOk(f.records, Subresources(f))
  {
    if ByPlace(f) then map[] else Ids(f.records, Subresources(f))
  }

  lemma IdsKnown(f: WFile, most: nat)
    requires TablesOk(f, most)
    ensures ByPlace(f) || IdsOk(f.records, Subresources(f))
  {
  }

  /** The settings the ids leave are those the file is written under. */
  lemma IdsRead(env: Env, c: Cursor, f: WFile)
    requires TablesOk(f, env.limits.text) && env.modern == (f.major == 4) && env.namedIds == ByPlace(f) && env.ids == map[]
    requires |env.internals| == |f.records|
    requires forall k :: 0 <= k < |f.records| ==> env.internals[k].path == PathText(f.records[k].path)
    requires Room(env, c, IdsCharge(f, env.sizes), 0)
    ensures ByPlace(f) || IdsOk(f.records, Subresources(f))
    ensures KnownIds(env, c)
         == Ok(Read(env.(ids := IdsOf(f)), Moved(c, 0, IdsCharge(f, env.sizes), 0)))
  {
    hide PathText, TextOk, LegacyIds, IdsOk;
    if !ByPlace(f) { IdsAre(env.internals, f.records, Subresources(f)); }
  }

  lemma AllRecordsRead(env: Env, known: Env, c: Cursor, at: Cursor, records: seq<WRecord>, start: nat)
    requires KnownIds(env, c) == Ok(Read(known, at)) && known == env.(ids := known.ids)
    requires RecordsOk(TermsOf(known), records) && env.internals == Directory(TermsOf(known), records, start)
    requires At(known, start, PrintRecords(TermsOf(known), records))
    requires Room(env, at, RecordsCharge(TermsOf(known), records), RecordsNodes(records))
    ensures var r := AllRecords(env, c); r.Ok? && r.value.value == RecordsOf(TermsOf(known), records, start)
  {
    hide KnownIds, ReadRecords, RecordsOk, PrintRecords, RecordsCost, RecordsNodes, RecordsOf, Directory, At;
    RecordsRead(known, Moved(at, 0, |records| * env.sizes.record, 0), records, start);
  }

  /** The parts of a file, in place. */
  lemma FileParts(f: WFile, magic: bool, limits: Limits, sizes: Sizes, env: Env)
    requires FileOk(f, limits, sizes) && env.data == PrintFile(f, magic, limits, sizes)
    ensures var t, at := Settled(f, limits, sizes), RecordsStart(f, magic);
            var rows := Directory(t, f.records, at);
            var rest := PrintStringTable(f) + (PrintExternalTable(f) + (PrintDirectory(Big(f), rows) + PrintRecords(t, f.records)));
            && At(env, 0, PrintHead(f, magic)) && At(env, |PrintHead(f, magic)|, rest)
            && |PrintDirectory(Big(f), rows)| == 4 + DirectorySize(f.records)
            && |env.data| == at + |PrintRecords(t, f.records)|
  {
    hide PrintHead, PrintStringTable, PrintExternalTable, PrintInternals, PrintRecords, Directory, TablesOk, HeadOk, RecordsOk, Num;
    var t, at := Settled(f, limits, sizes), RecordsStart(f, magic);
    var rows := Directory(t, f.records, at);
    DirectoryRows(t, f.records, at);
    var rest := PrintStringTable(f) + (PrintExternalTable(f) + (PrintDirectory(Big(f), rows) + PrintRecords(t, f.records)));
    assert env.data[0..|env.data|] == env.data;
    AtBoth(env, 0, PrintHead(f, magic), rest);
  }

  // ---- one stage after the other

  function HeadAt(f: WFile, magic: bool): Cursor
  {
    Moved(Start(false), |PrintHead(f, magic)|, HeadCost(f), 0)
  }

  function TablesAt(f: WFile, magic: bool, sizes: Sizes): Cursor
  {
    Moved(HeadAt(f, magic), |PrintStringTable(f)| + |PrintExternalTable(f)| + 4 + DirectorySize(f.records), TablesCharge(f, sizes), 0)
  }

  function FileEnv(f: WFile, magic: bool, limits: Limits, sizes: Sizes): Env
    requires FileOk(f, limits, sizes)
  {
    TablesEnv(HeadOf(f, magic, limits, sizes), f, FileRows(f, magic, limits, sizes))
  }

  /** What the stages need of a good file within its budgets. */
  lemma StagesFit(f: WFile, magic: bool, limits: Limits, sizes: Sizes)
    requires FileOk(f, limits, sizes) && BinaryResourceFile.Within(f, magic, limits, sizes)
    ensures HeadOk(f, limits.text) && TablesOk(f, limits.text) && RecordsOk(Settled(f, limits, sizes), f.records)
    ensures f.imported <= |PrintFile(f, magic, limits, sizes)| < SPAN64 && |PrintFile(f, magic, limits, sizes)| <= limits.input
    ensures HeadCost(f) + TablesCharge(f, sizes) + IdsCharge(f, sizes) + RecordsCharge(Settled(f, limits, sizes), f.records) <= limits.allocation
    ensures RecordsNodes(f.records) <= limits.nodes
  {
    hide PrintFile, HeadOk, TablesOk, RecordsOk, HeadCost, TablesCharge, IdsCharge, RecordsCharge, RecordsNodes, Settled;
  }

  lemma HeadStage(f: WFile, magic: bool, limits: Limits, sizes: Sizes)
    requires FileOk(f, limits, sizes) && BinaryResourceFile.Within(f, magic, limits, sizes)
    ensures var env := Fresh(PrintFile(f, magic, limits, sizes), limits, sizes);
            ReadHeader(env, Start(false), magic)
            == Ok(Read(Begun(HeadEnv(env, f), Header(f.major, f.minor, f.version, f.kind)), HeadAt(f, magic)))
  {
    hide ReadHeader, PrintHead, PrintFile, TablesOk, HeadOk, RecordsOk, HeadCost, At, HeadEnv, RecordsCharge, TablesCharge, IdsCharge,
      RecordsNodes, Settled, FileOk, BinaryResourceFile.Within, PrintStringTable, PrintExternalTable, PrintDirectory, PrintRecords, Directory;
    var env := Fresh(PrintFile(f, magic, limits, sizes), limits, sizes);
    StagesFit(f, magic, limits, sizes);
    FileParts(f, magic, limits, sizes, env);
    HeadReads(env, f, magic);
  }

  function FileRows(f: WFile, magic: bool, limits: Limits, sizes: Sizes): seq<Internal>
    requires FileOk(f, limits, sizes)
  {
    Directory(Settled(f, limits, sizes), f.records, RecordsStart(f, magic))
  }

  function FileRecords(f: WFile, limits: Limits, sizes: Sizes): seq<byte>
    requires FileOk(f, limits, sizes)
  {
    PrintRecords(Settled(f, limits, sizes), f.records)
  }

  function HeadOf(f: WFile, magic: bool, limits: Limits, sizes: Sizes): Env
    requires FileOk(f, limits, sizes)
  {
    HeadEnv(Fresh(PrintFile(f, magic, limits, sizes), limits, sizes), f)
  }

  /** The tables lie behind the header, and their rows are good. */
  lemma TablesLie(f: WFile, magic: bool, limits: Limits, sizes: Sizes)
    requires FileOk(f, limits, sizes) && BinaryResourceFile.Within(f, magic, limits, sizes)
    ensures var rows := FileRows(f, magic, limits, sizes);
            && At(HeadOf(f, magic, limits, sizes), |PrintHead(f, magic)|,
                  PrintStringTable(f) + (PrintExternalTable(f) + (PrintDirectory(Big(f), rows) + FileRecords(f, limits, sizes))))
            && |rows| == |f.records| && (forall r :: r in rows ==> RowOk(limits.text, r)) && RowsCost(rows) == PathsCost(f.records)
            && |PrintDirectory(Big(f), rows)| == 4 + DirectorySize(f.records)
  {
    hide PrintHead, PrintStringTable, PrintExternalTable, PrintDirectory, PrintRecords, Directory, TablesOk, HeadOk, RecordsOk, RecordsCharge,
      At, PrintFile, RowsCost, PathsCost, RowOk, Settled, FileOk, BinaryResourceFile.Within, DirectorySize, RecordsStart;
    StagesFit(f, magic, limits, sizes);
    var t, at := Settled(f, limits, sizes), RecordsStart(f, magic);
    var rows, env := Directory(t, f.records, at), Fresh(PrintFile(f, magic, limits, sizes), limits, sizes);
    FileParts(f, magic, limits, sizes, env);
    DirectoryRows(t, f.records, at);
    RowsAreOk(f, limits, t, rows, at, |env.data|);
    SameInput(env, HeadEnv(env, f), |PrintHead(f, magic)|,
              PrintStringTable(f) + (PrintExternalTable(f) + (PrintDirectory(Big(f), rows) + PrintRecords(t, f.records))));
  }

  lemma TablesStage(f: WFile, magic: bool, limits: Limits, sizes: Sizes)
    requires FileOk(f, limits, sizes) && BinaryResourceFile.Within(f, magic, limits, sizes)
    ensures ReadTables(HeadOf(f, magic, limits, sizes), HeadAt(f, magic)) == Ok(Read(FileEnv(f, magic, limits, sizes), TablesAt(f, magic, sizes)))
    ensures At(FileEnv(f, magic, limits, sizes), RecordsStart(f, magic), FileRecords(f, limits, sizes))
  {
    hide ReadTables, PrintHead, PrintStringTable, PrintExternalTable, PrintDirectory, FileRows, FileRecords, TablesOk, HeadOk, RecordsOk,
      HeadCost, TablesCharge, IdsCharge, RecordsCharge, RecordsNodes, Externals, At, PrintFile, RowsCost, PathsCost, RowOk, Settled, FileOk,
      BinaryResourceFile.Within, DirectorySize;
    StagesFit(f, magic, limits, sizes);
    TablesLie(f, magic, limits, sizes);
    var head, rows, rest := HeadOf(f, magic, limits, sizes), FileRows(f, magic, limits, sizes), FileRecords(f, limits, sizes);
    ChargeOfTables(f, sizes);
    TablesRead(head, HeadAt(f, magic), f, rows, rest);
    SameInput(head, TablesEnv(head, f, rows), RecordsStart(f, magic), rest);
  }

  lemma ChargeOfTables(f: WFile, sizes: Sizes)
    ensures TablesCharge(f, sizes) == StringsCharge(f, sizes) + ExternalsCharge(f, sizes) + DirectoryCharge(f, sizes)
  {
  }

  lemma SettledIsTerms(f: WFile, magic: bool, limits: Limits, sizes: Sizes)
    requires FileOk(f, limits, sizes)
    ensures ByPlace(f) || IdsOk(f.records, Subresources(f))
    ensures TermsOf(FileEnv(f, magic, limits, sizes).(ids := IdsOf(f))) == Settled(f, limits, sizes)
  {
    hide PrintFile, Ids, Directory, HeadOk, RecordsOk, RecordsStart;
  }

  lemma RecordsStage(f: WFile, magic: bool, limits: Limits, sizes: Sizes)
    requires FileOk(f, limits, sizes) && BinaryResourceFile.Within(f, magic, limits, sizes)
    ensures var r := AllRecords(FileEnv(f, magic, limits, sizes), TablesAt(f, magic, sizes));
            r.Ok? && r.value.value == RecordsOf(Settled(f, limits, sizes), f.records, RecordsStart(f, magic))
  {
    hide AllRecords, KnownIds, PrintHead, PrintStringTable, PrintExternalTable, PrintRecords, Directory, HeadOk, RecordsOk, HeadCost,
      TablesCharge, IdsCharge, RecordsCharge, RecordsNodes, At, PrintFile, RecordsOf, TablesOk, RecordsStart, FileOk,
      BinaryResourceFile.Within, Settled, Ids, DirectorySize;
    StagesFit(f, magic, limits, sizes);
    IdsKnown(f, limits.text);
    var env, t, c := FileEnv(f, magic, limits, sizes), Settled(f, limits, sizes), TablesAt(f, magic, sizes);
    var ids := IdsOf(f);
    TablesStage(f, magic, limits, sizes);
    SettledIsTerms(f, magic, limits, sizes);
    DirectoryRows(t, f.records, RecordsStart(f, magic));
    IdsRead(env, c, f);
    SameInput(env, env.(ids := ids), RecordsStart(f, magic), PrintRecords(t, f.records));
    AllRecordsRead(env, env.(ids := ids), c, Moved(c, 0, IdsCharge(f, sizes), 0), f.records, RecordsStart(f, magic));
  }

  /** A written file parses, in the full mode, to the resource it stands for. */
  lemma WrittenFileParses(f: WFile, magic: bool, limits: Limits, sizes: Sizes)
    requires FileOk(f, limits, sizes) && BinaryResourceFile.Within(f, magic, limits, sizes)
    ensures Parse(PrintFile(f, magic, limits, sizes), magic, limits, sizes, false) == Ok(ResourceOf(f, magic, limits, sizes))
  {
    hide ReadHeader, ReadTables, AllRecords, PrintFile, Directory, HeadOk, TablesOk, RecordsOk, RecordsOf, HeadAt, TablesAt, Externals,
      RecordsStart, HeadCost, TablesCharge, IdsCharge, RecordsCharge, RecordsNodes, FileOk, BinaryResourceFile.Within, Settled, HeadEnv;
    StagesFit(f, magic, limits, sizes);
    HeadStage(f, magic, limits, sizes);
    TablesStage(f, magic, limits, sizes);
    RecordsStage(f, magic, limits, sizes);
  }

  lemma ExternalsCount(rs: seq<WRow>)
    ensures |Externals(rs)| == |rs|
  {
  }
}
