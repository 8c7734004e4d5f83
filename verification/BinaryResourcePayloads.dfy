/** Offsets and lengths locate every payload in the input, so a metadata tree and the input give the full tree. */
module BinaryResourcePayloads {
  import opened Bytes
  import opened BinaryResource
  import opened BinaryResourceModes

  /** All of the payload is kept, and it is the input's bytes at its offset; its prefix has at most `most` bytes. */
  predicate WholeBlob(data: seq<byte>, most: nat, b: Blob)
  {
    Prefix(b.length) <= most && b.offset + b.length <= |data| && b.kept == data[b.offset..b.offset + b.length]
  }

  predicate Whole(data: seq<byte>, most: nat, v: Value)
    decreases v
  {
    match v
    case Raw(blob) => WholeBlob(data, most, blob)
    case Image(_, _, _, _, _, blob) => WholeBlob(data, most, blob)
    case Items(items) => forall x :: x in items ==> Whole(data, most, x)
    case Dictionary(entries) => forall e :: e in entries ==> Whole(data, most, e.value)
    case _ => true
  }

  predicate AllWhole(data: seq<byte>, most: nat, vs: seq<Value>)
  {
    forall v :: v in vs ==> Whole(data, most, v)
  }

  predicate PairsWhole(data: seq<byte>, most: nat, pairs: seq<Pair>)
  {
    forall p :: p in pairs ==> Whole(data, most, p.entry)
  }

  predicate EntriesWhole(data: seq<byte>, most: nat, entries: seq<Property>)
  {
    forall e :: e in entries ==> Whole(data, most, e.value)
  }

  predicate RecordsWhole(data: seq<byte>, most: nat, records: seq<Record>)
  {
    forall r :: r in records ==> EntriesWhole(data, most, r.properties)
  }

  // ---- restoring a cut tree

  function Fill(data: seq<byte>, b: Blob): Blob
  {
    if b.offset + b.length <= |data| then b.(kept := data[b.offset..b.offset + b.length]) else b
  }

  /** The tree with every payload taken from the input again. */
  function Restore(data: seq<byte>, v: Value): Value
  {
    match v
    case Raw(blob) => Raw(Fill(data, blob))
    case Image(_, _, _, _, _, blob) => v.(blob := Fill(data, blob))
    case Items(items) => Items(RestoreAll(data, items))
    case Dictionary(entries) => Dictionary(RestoreEntries(data, entries))
    case _ => v
  }

  function RestoreAll(data: seq<byte>, vs: seq<Value>): seq<Value>
  {
    if vs == [] then [] else [Restore(data, vs[0])] + RestoreAll(data, vs[1..])
  }

  function RestoreEntries(data: seq<byte>, entries: seq<Property>): seq<Property>
  {
    if entries == [] then []
    else [Property(entries[0].name, Restore(data, entries[0].value))] + RestoreEntries(data, entries[1..])
  }

  function RestoreRecords(data: seq<byte>, records: seq<Record>): seq<Record>
  {
    if records == [] then []
    else [records[0].(properties := RestoreEntries(data, records[0].properties))] + RestoreRecords(data, records[1..])
  }

  lemma {:induction false} RestoreCut(data: seq<byte>, most: nat, v: Value)
    requires Whole(data, most, v)
    ensures Restore(data, Cut(v)) == v
    decreases v
  {
    match v
    case Items(items) => RestoreCutAll(data, most, items);
    case Dictionary(entries) => RestoreCutEntries(data, most, entries);
    case _ =>
  }

  lemma {:induction false} RestoreCutAll(data: seq<byte>, most: nat, vs: seq<Value>)
    requires AllWhole(data, most, vs)
    ensures RestoreAll(data, CutAll(vs)) == vs
    decreases vs
  {
    hide Restore, Cut;
    if vs != [] {
      RestoreCut(data, most, vs[0]);
      RestoreCutAll(data, most, vs[1..]);
      assert CutAll(vs)[1..] == CutAll(vs[1..]);
    }
  }

  lemma {:induction false} RestoreCutEntries(data: seq<byte>, most: nat, entries: seq<Property>)
    requires EntriesWhole(data, most, entries)
    ensures RestoreEntries(data, CutEntries(entries)) == entries
    decreases entries
  {
    hide Restore, Cut;
    if entries != [] {
      RestoreCut(data, most, entries[0].value);
      RestoreCutEntries(data, most, entries[1..]);
      assert CutEntries(entries)[1..] == CutEntries(entries[1..]);
    }
  }

  lemma {:induction false} RestoreCutRecords(data: seq<byte>, most: nat, records: seq<Record>)
    requires RecordsWhole(data, most, records)
    ensures RestoreRecords(data, CutRecords(records)) == records
    decreases records
  {
    hide RestoreEntries, CutEntries;
    if records != [] {
      RestoreCutEntries(data, most, records[0].properties);
      RestoreCutRecords(data, most, records[1..]);
      assert CutRecords(records)[1..] == CutRecords(records[1..]);
    }
  }

  // ---- the full mode keeps whole payloads

  lemma PayloadIsWhole(env: Env, c: Cursor, most: nat)
    requires !c.metadata
    ensures var r := Payload(env, c); r.Ok? && r.value.at.widest <= most ==> WholeBlob(env.data, most, r.value.value)
  {
    hide Count, Body;
    var count := Count(env, c, 1);
    if count.Ok? { BodyIsWhole(env, count.value.at, most, count.value.value); }
  }

  lemma BodyIsWhole(env: Env, c: Cursor, most: nat, count: nat)
    requires !c.metadata
    ensures var r := Body(env, c, count); r.Ok? && r.value.at.widest <= most ==> WholeBlob(env.data, most, r.value.value)
  {
  }

  lemma ImageIsWhole(env: Env, c: Cursor, most: nat)
    requires !c.metadata
    ensures var r := DecodeImage(env, c); r.Ok? && r.value.at.widest <= most ==> Whole(env.data, most, r.value.value)
  {
    hide Word, ImageDetails, Payload, WholeBlob;
    var encoding := Word(env, c, 4);
    if encoding.Ok? && encoding.value.value != 0 {
      var details := ImageDetails(env, encoding.value.at, encoding.value.value);
      if details.Ok? { PayloadIsWhole(env, details.value.at, most); }
    }
  }

  lemma LeafIsWhole(env: Env, c: Cursor, most: nat, tag: Decoder)
    requires !c.metadata && !tag.ItemsTag? && !tag.DictionaryTag? && !tag.StringsTag?
    ensures var r := DecodeLeaf(env, c, tag); r.Ok? && r.value.at.widest <= most ==> Whole(env.data, most, r.value.value)
  {
    hide Word, UnicodeString, DecodeImage, Payload, WholeBlob, SkipNames, Words, Count;
    if tag.ImageTag? { ImageIsWhole(env, c, most); }
    if tag.RawTag? { PayloadIsWhole(env, c, most); }
  }

  lemma {:induction false} TextNodesAreWhole(env: Env, c: Cursor, most: nat, count: nat)
    ensures var r := TextNodes(env, c, count); r.Ok? && r.value.at.widest <= most ==> AllWhole(env.data, most, r.value.value)
    decreases count
  {
    hide UnicodeString, EnterNode, Next;
    if count > 0 {
      var first := TextNode(env, c);
      if first.Ok? { TextNodesAreWhole(env, first.value.at, most, count - 1); }
    }
  }

  lemma StringsAreWhole(env: Env, c: Cursor, most: nat, depth: nat)
    ensures var r := DecodeStrings(env, c, depth); r.Ok? && r.value.at.widest <= most ==> Whole(env.data, most, r.value.value)
  {
    hide Count, Preflight, Charge, TextNodes;
    var count := Count(env, c, 4);
    if count.Ok? {
      var fits := Preflight(env, count.value.at, count.value.value, depth + 1);
      if fits.Ok? {
        var paid := Charge(env, fits.value, count.value.value * env.sizes.value);
        if paid.Ok? { TextNodesAreWhole(env, paid.value, most, count.value.value); }
      }
    }
  }

  lemma {:induction false} ValueIsWhole(env: Env, c: Cursor, most: nat, depth: nat)
    requires !c.metadata
    ensures var r := ReadValue(env, c, depth); r.Ok? && r.value.at.widest <= most ==> Whole(env.data, most, r.value.value)
    decreases Levels(env, depth), 1, 0
  {
    hide Decode, FindTag, Word, EnterNode, Whole;
    if depth <= env.limits.depth && EnterNode(env, c).Ok? {
      var raw := Word(env, EnterNode(env, c).value, 4);
      if raw.Ok? && FindTag(env, raw.value.value).Some? {
        DecodedIsWhole(env, raw.value.at, most, depth, FindTag(env, raw.value.value).value);
      }
    }
  }

  lemma {:induction false} DecodedIsWhole(env: Env, c: Cursor, most: nat, depth: nat, tag: Decoder)
    requires !c.metadata && depth <= env.limits.depth
    ensures var r := Decode(env, c, depth, tag); r.Ok? && r.value.at.widest <= most ==> Whole(env.data, most, r.value.value)
    decreases Levels(env, depth), 0, 1
  {
    hide DecodeItems, DecodeDictionary, DecodeStrings, DecodeLeaf, Whole;
    if tag.ItemsTag? {
      ItemsAreWhole(env, c, most, depth);
    } else if tag.DictionaryTag? {
      DictionaryIsWhole(env, c, most, depth);
    } else if tag.StringsTag? {
      StringsAreWhole(env, c, most, depth);
    } else {
      LeafIsWhole(env, c, most, tag);
    }
  }

  lemma {:induction false} ItemsAreWhole(env: Env, c: Cursor, most: nat, depth: nat)
    requires !c.metadata && depth <= env.limits.depth
    ensures var r := DecodeItems(env, c, depth); r.Ok? && r.value.at.widest <= most ==> Whole(env.data, most, r.value.value)
    decreases Levels(env, depth), 0, 0
  {
    hide ContainerCount, Charge, Values;
    var count := ContainerCount(env, c, 4, 1, depth);
    if count.Ok? {
      var paid := Charge(env, count.value.at, count.value.value * env.sizes.value);
      if paid.Ok? { ValuesAreWhole(env, paid.value, most, depth + 1, count.value.value); }
    }
  }

  lemma {:induction false} DictionaryIsWhole(env: Env, c: Cursor, most: nat, depth: nat)
    requires !c.metadata && depth <= env.limits.depth
    ensures var r := DecodeDictionary(env, c, depth); r.Ok? && r.value.at.widest <= most ==> Whole(env.data, most, r.value.value)
    decreases Levels(env, depth), 0, 0
  {
    hide ContainerCount, Charge, Pairs, Represent, Whole;
    var count := ContainerCount(env, c, 8, 2, depth);
    if count.Ok? {
      var n := count.value.value;
      var paid := Charge(env, count.value.at, n * env.sizes.property);
      if paid.Ok? {
        var both := Charge(env, paid.value, n * env.sizes.value);
        if both.Ok? {
          PairsAreWhole(env, both.value, most, depth + 1, n);
          var pairs := Pairs(env, both.value, depth + 1, n);
          if pairs.Ok? && pairs.value.at.widest <= most { RepresentedIsWhole(env, pairs.value.at, most, pairs.value.value); }
        }
      }
    }
  }

  lemma RepresentedIsWhole(env: Env, c: Cursor, most: nat, pairs: seq<Pair>)
    requires PairsWhole(env.data, most, pairs)
    ensures var r := Represent(env, c, pairs); r.Ok? && r.value.at.widest <= most ==> Whole(env.data, most, r.value.value)
  {
    if TextKeys(pairs) {
      var entries := Named(pairs);
      forall e | e in entries ensures Whole(env.data, most, e.value) {
        var i :| 0 <= i < |entries| && entries[i] == e;
        assert pairs[i] in pairs;
      }
    }
  }

  lemma {:induction false} ValuesAreWhole(env: Env, c: Cursor, most: nat, depth: nat, count: nat)
    requires !c.metadata
    ensures var r := Values(env, c, depth, count); r.Ok? && r.value.at.widest <= most ==> AllWhole(env.data, most, r.value.value)
    decreases Levels(env, depth), 2, count
  {
    hide ReadValue, Whole;
    if count > 0 {
      ValueIsWhole(env, c, most, depth);
      var first := ReadValue(env, c, depth);
      if first.Ok? { ValuesAreWhole(env, first.value.at, most, depth, count - 1); }
    }
  }

  lemma {:induction false} PairsAreWhole(env: Env, c: Cursor, most: nat, depth: nat, count: nat)
    requires !c.metadata
    ensures var r := Pairs(env, c, depth, count); r.Ok? && r.value.at.widest <= most ==> PairsWhole(env.data, most, r.value.value)
    decreases Levels(env, depth), 2, count
  {
    hide ReadValue, Whole;
    if count > 0 {
      var key := ReadValue(env, c, depth);
      if key.Ok? {
        ValueIsWhole(env, key.value.at, most, depth);
        var entry := ReadValue(env, key.value.at, depth);
        if entry.Ok? { PairsAreWhole(env, entry.value.at, most, depth, count - 1); }
      }
    }
  }

  lemma {:induction false} PropertiesAreWhole(env: Env, c: Cursor, most: nat, count: nat)
    requires !c.metadata
    ensures var r := ReadProperties(env, c, count); r.Ok? && r.value.at.widest <= most ==> EntriesWhole(env.data, most, r.value.value)
    decreases count
  {
    hide Name, ReadValue, Whole;
    if count > 0 {
      var name := Name(env, c);
      if name.Ok? { ValueIsWhole(env, name.value.at, most, 1); }
      var first := ReadProperty(env, c);
      if first.Ok? { PropertiesAreWhole(env, first.value.at, most, count - 1); }
    }
  }

  lemma RecordIsWhole(env: Env, c: Cursor, most: nat, row: Internal)
    requires !c.metadata
    ensures var r := ReadRecord(env, c, row); r.Ok? && r.value.at.widest <= most ==> EntriesWhole(env.data, most, r.value.value.properties)
  {
    hide Seek, Charge, RecordBody, EntriesWhole;
    var start := Seek(env, c, row.offset);
    if start.Ok? {
      var paid := Charge(env, start.value, |row.path| + 1);
      if paid.Ok? { RecordBodyIsWhole(env, paid.value, most, row.path); }
    }
  }

  lemma RecordBodyIsWhole(env: Env, c: Cursor, most: nat, path: seq<byte>)
    requires !c.metadata
    ensures var r := RecordBody(env, c, path); r.Ok? && r.value.at.widest <= most ==> EntriesWhole(env.data, most, r.value.value.properties)
  {
    hide UnicodeString, Count, Preflight, Charge, ReadProperties, EntriesWhole;
    var kind := UnicodeString(env, c);
    if kind.Ok? {
      var count := Count(env, kind.value.at, 8);
      if count.Ok? {
        var fits := Preflight(env, count.value.at, count.value.value, 1);
        if fits.Ok? {
          var paid := Charge(env, fits.value, count.value.value * env.sizes.property);
          if paid.Ok? { PropertiesAreWhole(env, paid.value, most, count.value.value); }
        }
      }
    }
  }

  lemma {:induction false} RecordsAreWhole(env: Env, c: Cursor, most: nat, rows: seq<Internal>)
    requires !c.metadata
    ensures var r := ReadRecords(env, c, rows); r.Ok? && r.value.at.widest <= most ==> RecordsWhole(env.data, most, r.value.value)
    decreases |rows|
  {
    hide ReadRecord, EntriesWhole;
    if rows != [] {
      RecordIsWhole(env, c, most, rows[0]);
      var first := ReadRecord(env, c, rows[0]);
      if first.Ok? { RecordsAreWhole(env, first.value.at, most, rows[1..]); }
    }
  }

  lemma AllRecordsAreWhole(env: Env, c: Cursor, most: nat)
    requires !c.metadata
    ensures var r := AllRecords(env, c); r.Ok? && r.value.at.widest <= most ==> RecordsWhole(env.data, most, r.value.value)
  {
    hide LegacyIds, Charge, ReadRecords, RecordsWhole;
    var known := KnownIds(env, c);
    if known.Ok? {
      var paid := Charge(known.value.value, known.value.at, |env.internals| * env.sizes.record);
      if paid.Ok? { RecordsAreWhole(known.value.value, paid.value, most, env.internals); }
    }
  }

  /** The full tree holds every payload whole, and no prefix in it is wider than the widest one. */
  lemma FullParseIsWhole(data: seq<byte>, hasMagic: bool, limits: Limits, sizes: Sizes)
    ensures var r := Parse(data, hasMagic, limits, sizes, false);
            r.Ok? ==> RecordsWhole(data, Widest(data, hasMagic, limits, sizes), r.value.records)
  {
    hide ReadHeader, ReadTables, AllRecords, RecordsWhole;
    var env, c := Fresh(data, limits, sizes), Start(false);
    var begun := ReadHeader(env, c, hasMagic);
    if begun.Ok? {
      HeaderKeepsLimits(env, c, hasMagic);
      var tables := ReadTables(begun.value.value.env, begun.value.at);
      if tables.Ok? {
        TablesKeepLimits(begun.value.value.env, begun.value.at);
        var records := AllRecords(tables.value.value, tables.value.at);
        if records.Ok? { AllRecordsAreWhole(tables.value.value, tables.value.at, records.value.at.widest); }
      }
    }
  }

  /** A metadata tree and the input are worth the full tree: nothing but payload bytes was left out. */
  lemma MetadataLosesNothing(data: seq<byte>, hasMagic: bool, limits: Limits, sizes: Sizes)
    ensures var full := Parse(data, hasMagic, limits, sizes, false);
            var meta := Parse(data, hasMagic, limits, sizes, true);
            full.Ok? && meta.Ok? ==> full.value == meta.value.(records := RestoreRecords(data, meta.value.records))
  {
    hide Parse, ParseTo, Widest, RecordsWhole, CutRecords, RestoreRecords;
    MetadataIsFullParse(data, hasMagic, limits, sizes);
    FullParseIsWhole(data, hasMagic, limits, sizes);
    var full := Parse(data, hasMagic, limits, sizes, false);
    if full.Ok? { RestoreCutRecords(data, Widest(data, hasMagic, limits, sizes), full.value.records); }
  }
}
