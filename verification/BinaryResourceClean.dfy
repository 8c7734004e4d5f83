/** What holds of every resource that is accepted, in either mode. */
module BinaryResourceClean {
  import opened Bytes
  import opened BinaryResource
  import Utf8

  /** A text is within the bound, terminator included, well-formed and free of NUL. */
  predicate CleanText(env: Env, s: seq<byte>)
  {
    s == [] || (|s| + 1 <= env.limits.text && Utf8.WellFormed(s) && 0 !in s)
  }

  /** A reference points at a row that exists, and the one its id names. */
  predicate CleanReference(env: Env, r: Reference)
  {
    match r
    case EmptyReference => true
    case InternalReference(index) => env.modern && env.namedIds && index < |env.internals|
    case LegacyReference(index, id) => !(env.modern && env.namedIds) && id in env.ids && env.ids[id] == index
    case InlineReference(kind, path) => CleanText(env, kind) && CleanText(env, path)
    case ExternalReference(index) => index < |env.externals|
  }

  predicate InWidth(number: int, width: nat)
  {
    if width == 4 then -0x8000_0000 <= number < 0x8000_0000 else -MAX64 <= number < MAX64
  }

  /** Each id names one row before the last, whose path spells it; the last row is the resource itself. */
  predicate IdsName(env: Env)
  {
    forall id :: id in env.ids ==>
      env.ids[id] + 1 < |env.internals| && LOCAL <= env.internals[env.ids[id]].path && LocalId(env.internals[env.ids[id]].path) == Some(id)
  }

  /** The value is within the depth limit, and so is everything in it; dictionaries have distinct clean names. */
  predicate Clean(env: Env, v: Value, depth: nat)
    decreases v
  {
    depth <= env.limits.depth
    && match v
       case Integer(number) => InWidth(number, 8)
       case Real(bits, width) => (width == 4 || width == 8) && bits < Pow256(width)
       case Text(text) => CleanText(env, text)
       case Integers(numbers) => forall n :: n in numbers ==> InWidth(n, 8)
       case Reals(numerals, width) => (width == 4 || width == 8) && forall n :: n in numerals ==> n < Pow256(width)
       case Items(items) => forall x :: x in items ==> Clean(env, x, depth + 1)
       case Dictionary(entries) => Distinct(entries) && forall e :: e in entries ==> CleanText(env, e.name) && Clean(env, e.value, depth + 1)
       case Object(reference) => CleanReference(env, reference)
       case Image(encoding, width, height, mipmaps, format, _) =>
         && encoding > 0 && (encoding != 1 ==> width == height == mipmaps == format == 0)
         && (!env.modern && !env.v2 ==> format < 0x100_0000)
       case _ => true
  }

  predicate AllClean(env: Env, vs: seq<Value>, depth: nat)
  {
    forall v :: v in vs ==> Clean(env, v, depth)
  }

  predicate PairsClean(env: Env, pairs: seq<Pair>, depth: nat)
  {
    forall p :: p in pairs ==> Clean(env, p.key, depth) && Clean(env, p.entry, depth)
  }

  // ---- numbers and texts

  lemma {:induction false} UnsignedBound(bytes: seq<byte>)
    ensures Unsigned(bytes) < Pow256(|bytes|)
  {
    if bytes != [] { UnsignedBound(bytes[1..]); }
  }

  lemma WordBound(env: Env, c: Cursor, width: nat)
    ensures var r := Word(env, c, width); r.Ok? ==> r.value.value < Pow256(width)
  {
    hide Unsigned, Reversed;
    if c.pos + width <= |env.data| {
      var bytes := env.data[c.pos..c.pos + width];
      UnsignedBound(bytes);
      UnsignedBound(Reversed(bytes));
    }
  }

  lemma {:induction false} WordsBound(env: Env, c: Cursor, width: nat, count: nat)
    ensures var r := Words(env, c, width, count); r.Ok? ==> forall n :: n in r.value.value ==> n < Pow256(width)
    decreases count
  {
    hide Word;
    if count > 0 {
      WordBound(env, c, width);
      var first := Word(env, c, width);
      if first.Ok? { WordsBound(env, first.value.at, width, count - 1); }
    }
  }

  lemma Spans()
    ensures Pow256(4) == SPAN32 && Pow256(8) == SPAN64
  {
    assert Pow256(2) == 0x1_0000;
    assert Pow256(4) == SPAN32;
    assert Pow256(6) == 0x1_0000_0000_0000;
  }

  lemma SignedBound(bits: nat, width: nat)
    requires (width == 4 || width == 8) && bits < Pow256(width)
    ensures InWidth(Signed(bits, width), 8)
  {
    Spans();
  }

  lemma TextIsClean(env: Env, c: Cursor, length: nat)
    ensures var r := StringBody(env, c, length); r.Ok? ==> CleanText(env, r.value.value)
    ensures var r := UnicodeString(env, c); r.Ok? ==> CleanText(env, r.value.value)
  {
    hide Word, Utf8.WellFormed;
    var n := Word(env, c, 4);
    if n.Ok? { BodyIsClean(env, n.value.at, n.value.value); }
    BodyIsClean(env, c, length);
  }

  lemma BodyIsClean(env: Env, c: Cursor, length: nat)
    ensures var r := StringBody(env, c, length); r.Ok? ==> CleanText(env, r.value.value)
  {
    hide Utf8.WellFormed;
  }

  // ---- values without children

  lemma ObjectIsClean(env: Env, c: Cursor, depth: nat)
    requires depth <= env.limits.depth
    ensures var r := DecodeObject(env, c); r.Ok? ==> Clean(env, r.value.value, depth)
  {
    hide Word, UnicodeString, CleanText;
    var form := Word(env, c, 4);
    if form.Ok? {
      TextIsClean(env, form.value.at, 0);
      var kind := UnicodeString(env, form.value.at);
      if kind.Ok? { TextIsClean(env, kind.value.at, 0); }
    }
  }

  lemma ImageIsClean(env: Env, c: Cursor, depth: nat)
    requires depth <= env.limits.depth
    ensures var r := DecodeImage(env, c); r.Ok? ==> Clean(env, r.value.value, depth)
  {
    hide Word, Words, Payload;
  }

  lemma NumbersAreClean(env: Env, c: Cursor, width: nat, isReal: bool, depth: nat)
    requires depth <= env.limits.depth && (width == 4 || width == 8)
    ensures var r := DecodeNumbers(env, c, width, isReal); r.Ok? ==> Clean(env, r.value.value, depth)
  {
    hide Count, Charge, Words, Pow256, Signed;
    var count := Count(env, c, width);
    if count.Ok? {
      var paid := Charge(env, count.value.at, count.value.value * 8);
      if paid.Ok? {
        WordsBound(env, paid.value, width, count.value.value);
        var words := Words(env, paid.value, width, count.value.value);
        if words.Ok? {
          assert forall n :: n in words.value.value ==> n < Pow256(width);
          SignedAllBound(words.value.value, width);
        }
      }
    }
  }

  lemma SignedAllBound(words: seq<nat>, width: nat)
    requires (width == 4 || width == 8) && forall n :: n in words ==> n < Pow256(width)
    ensures forall n :: n in SignedAll(words, width) ==> InWidth(n, 8)
  {
    hide Signed, Pow256;
    forall n | n in SignedAll(words, width) ensures InWidth(n, 8) {
      var i :| 0 <= i < |words| && Signed(words[i], width) == n;
      assert words[i] in words;
      SignedBound(words[i], width);
    }
  }

  lemma ScalarIsClean(env: Env, c: Cursor, width: nat, isReal: bool, depth: nat)
    requires depth <= env.limits.depth && (width == 4 || width == 8)
    ensures var r := DecodeScalar(env, c, width, isReal); r.Ok? ==> Clean(env, r.value.value, depth)
  {
    hide Word, Pow256, Signed;
    WordBound(env, c, width);
    var word := Word(env, c, width);
    if word.Ok? { SignedBound(word.value.value, width); }
  }

  /** The widths the tag table gives numbers. */
  lemma TagWidths(env: Env, raw: nat)
    ensures var d := FindTag(env, raw);
            d.Some? && (d.value.IntegerTag? || d.value.IntegersTag? || d.value.RealsTag?) ==> d.value.width == 4 || d.value.width == 8
  {
  }

  lemma LeafIsClean(env: Env, c: Cursor, tag: Decoder, depth: nat)
    requires depth <= env.limits.depth && !tag.ItemsTag? && !tag.DictionaryTag? && !tag.StringsTag?
    requires tag.IntegerTag? || tag.IntegersTag? || tag.RealsTag? ==> tag.width == 4 || tag.width == 8
    ensures var r := DecodeLeaf(env, c, tag); r.Ok? ==> Clean(env, r.value.value, depth)
  {
    hide Word, UnicodeString, DecodeScalar, DecodeNumbers, DecodeObject, DecodeImage, Payload, SkipNames, Count, CleanText;
    match tag
    case IntegerTag(width) => ScalarIsClean(env, c, width, false, depth);
    case RealTag => ScalarIsClean(env, c, RealWidth(env), true, depth);
    case DoubleTag => ScalarIsClean(env, c, 8, true, depth);
    case TextTag => TextIsClean(env, c, 0);
    case IntegersTag(width) => NumbersAreClean(env, c, width, false, depth);
    case RealsTag(width) => NumbersAreClean(env, c, width, true, depth);
    case ObjectTag => ObjectIsClean(env, c, depth);
    case ImageTag => ImageIsClean(env, c, depth);
    case _ =>
  }

  // ---- values with children

  lemma {:induction false} TextNodesAreClean(env: Env, c: Cursor, count: nat, depth: nat)
    requires depth <= env.limits.depth
    ensures var r := TextNodes(env, c, count); r.Ok? ==> AllClean(env, r.value.value, depth)
    decreases count
  {
    hide UnicodeString, EnterNode, CleanText;
    if count > 0 {
      var entered := EnterNode(env, c);
      if entered.Ok? { TextIsClean(env, entered.value, 0); }
      var first := TextNode(env, c);
      if first.Ok? { TextNodesAreClean(env, first.value.at, count - 1, depth); }
    }
  }

  lemma StringsAreClean(env: Env, c: Cursor, depth: nat)
    requires depth <= env.limits.depth
    ensures var r := DecodeStrings(env, c, depth); r.Ok? ==> Clean(env, r.value.value, depth)
  {
    hide Count, Charge, TextNodes;
    var count := Count(env, c, 4);
    if count.Ok? {
      var n := count.value.value;
      var fits := Preflight(env, count.value.at, n, depth + 1);
      if fits.Ok? {
        var paid := Charge(env, fits.value, n * env.sizes.value);
        if paid.Ok? {
          if n > 0 { TextNodesAreClean(env, paid.value, n, depth + 1); } else { NoTextNodes(env, paid.value); }
        }
      }
    }
  }

  lemma NoTextNodes(env: Env, c: Cursor)
    ensures TextNodes(env, c, 0) == Ok(Read([], c))
  {
  }

  lemma {:induction false} ValueIsClean(env: Env, c: Cursor, depth: nat)
    ensures var r := ReadValue(env, c, depth); r.Ok? ==> Clean(env, r.value.value, depth)
    decreases Levels(env, depth), 1, 0
  {
    hide Decode, FindTag, Word, EnterNode, Clean;
    if depth <= env.limits.depth && EnterNode(env, c).Ok? {
      var raw := Word(env, EnterNode(env, c).value, 4);
      if raw.Ok? && FindTag(env, raw.value.value).Some? {
        TagWidths(env, raw.value.value);
        DecodedIsClean(env, raw.value.at, depth, FindTag(env, raw.value.value).value);
      }
    }
  }

  lemma {:induction false} DecodedIsClean(env: Env, c: Cursor, depth: nat, tag: Decoder)
    requires depth <= env.limits.depth
    requires tag.IntegerTag? || tag.IntegersTag? || tag.RealsTag? ==> tag.width == 4 || tag.width == 8
    ensures var r := Decode(env, c, depth, tag); r.Ok? ==> Clean(env, r.value.value, depth)
    decreases Levels(env, depth), 0, 1
  {
    hide DecodeItems, DecodeDictionary, DecodeStrings, DecodeLeaf, Clean;
    if tag.ItemsTag? {
      ItemsAreClean(env, c, depth);
    } else if tag.DictionaryTag? {
      DictionaryIsClean(env, c, depth);
    } else if tag.StringsTag? {
      StringsAreClean(env, c, depth);
    } else {
      LeafIsClean(env, c, tag, depth);
    }
  }

  lemma {:induction false} ItemsAreClean(env: Env, c: Cursor, depth: nat)
    requires depth <= env.limits.depth
    ensures var r := DecodeItems(env, c, depth); r.Ok? ==> Clean(env, r.value.value, depth)
    decreases Levels(env, depth), 0, 0
  {
    hide ContainerCount, Charge, Values;
    var count := ContainerCount(env, c, 4, 1, depth);
    if count.Ok? {
      var paid := Charge(env, count.value.at, count.value.value * env.sizes.value);
      if paid.Ok? { ValuesAreClean(env, paid.value, depth + 1, count.value.value); }
    }
  }

  lemma {:induction false} DictionaryIsClean(env: Env, c: Cursor, depth: nat)
    requires depth <= env.limits.depth
    ensures var r := DecodeDictionary(env, c, depth); r.Ok? ==> Clean(env, r.value.value, depth)
    decreases Levels(env, depth), 0, 0
  {
    hide ContainerCount, Charge, Pairs, Represent, Clean;
    var count := ContainerCount(env, c, 8, 2, depth);
    if count.Ok? {
      var n := count.value.value;
      var paid := Charge(env, count.value.at, n * env.sizes.property);
      if paid.Ok? {
        var both := Charge(env, paid.value, n * env.sizes.value);
        if both.Ok? {
          PairsAreClean(env, both.value, depth + 1, n);
          var pairs := Pairs(env, both.value, depth + 1, n);
          if pairs.Ok? { RepresentedIsClean(env, pairs.value.at, pairs.value.value, depth); }
        }
      }
    }
  }

  lemma RepresentedIsClean(env: Env, c: Cursor, pairs: seq<Pair>, depth: nat)
    requires PairsClean(env, pairs, depth + 1) && depth <= env.limits.depth
    ensures var r := Represent(env, c, pairs); r.Ok? ==> Clean(env, r.value.value, depth)
  {
    hide CleanText, Distinct;
    if TextKeys(pairs) {
      var entries := Named(pairs);
      forall e | e in entries ensures CleanText(env, e.name) && Clean(env, e.value, depth + 1) {
        var i :| 0 <= i < |entries| && entries[i] == e;
        assert pairs[i] in pairs;
        assert Clean(env, pairs[i].key, depth + 1);
      }
    }
  }

  lemma {:induction false} ValuesAreClean(env: Env, c: Cursor, depth: nat, count: nat)
    ensures var r := Values(env, c, depth, count); r.Ok? ==> AllClean(env, r.value.value, depth)
    decreases Levels(env, depth), 2, count
  {
    hide ReadValue, Clean;
    if count > 0 {
      ValueIsClean(env, c, depth);
      var first := ReadValue(env, c, depth);
      if first.Ok? { ValuesAreClean(env, first.value.at, depth, count - 1); }
    }
  }

  lemma {:induction false} PairsAreClean(env: Env, c: Cursor, depth: nat, count: nat)
    ensures var r := Pairs(env, c, depth, count); r.Ok? ==> PairsClean(env, r.value.value, depth)
    decreases Levels(env, depth), 2, count
  {
    hide ReadValue, Clean;
    if count > 0 {
      ValueIsClean(env, c, depth);
      var key := ReadValue(env, c, depth);
      if key.Ok? {
        ValueIsClean(env, key.value.at, depth);
        var entry := ReadValue(env, key.value.at, depth);
        if entry.Ok? { PairsAreClean(env, entry.value.at, depth, count - 1); }
      }
    }
  }

  // ---- records

  predicate CleanTexts(env: Env, texts: seq<seq<byte>>)
  {
    forall t :: t in texts ==> CleanText(env, t)
  }

  /** Property names are clean and not empty, and property values lie at the first level. */
  predicate CleanProperties(env: Env, ps: seq<Property>)
  {
    forall p :: p in ps ==> p.name != [] && CleanText(env, p.name) && Clean(env, p.value, 1)
  }

  predicate CleanRecord(env: Env, r: Record)
  {
    CleanText(env, r.kind) && CleanProperties(env, r.properties)
  }

  lemma NameIsClean(env: Env, c: Cursor)
    requires CleanTexts(env, env.strings)
    ensures var r := Name(env, c); r.Ok? ==> CleanText(env, r.value.value)
  {
    hide Word, StringBody, CleanText;
    var field := Word(env, c, 4);
    if field.Ok? && field.value.value >= 0x8000_0000 { TextIsClean(env, field.value.at, field.value.value - 0x8000_0000); }
  }

  lemma {:induction false} PropertiesAreClean(env: Env, c: Cursor, count: nat)
    requires CleanTexts(env, env.strings)
    ensures var r := ReadProperties(env, c, count); r.Ok? ==> CleanProperties(env, r.value.value)
    decreases count
  {
    hide Name, ReadValue, Clean, CleanText;
    if count > 0 {
      NameIsClean(env, c);
      var name := Name(env, c);
      if name.Ok? { ValueIsClean(env, name.value.at, 1); }
      var first := ReadProperty(env, c);
      if first.Ok? { PropertiesAreClean(env, first.value.at, count - 1); }
    }
  }

  lemma RecordIsClean(env: Env, c: Cursor, row: Internal)
    requires CleanTexts(env, env.strings)
    ensures var r := ReadRecord(env, c, row); r.Ok? ==> r.value.value.path == row.path && CleanRecord(env, r.value.value)
  {
    hide Seek, Charge, RecordBody, CleanRecord;
    var start := Seek(env, c, row.offset);
    if start.Ok? {
      var paid := Charge(env, start.value, |row.path| + 1);
      if paid.Ok? { RecordBodyIsClean(env, paid.value, row.path); }
    }
  }

  lemma RecordBodyIsClean(env: Env, c: Cursor, path: seq<byte>)
    requires CleanTexts(env, env.strings)
    ensures var r := RecordBody(env, c, path); r.Ok? ==> r.value.value.path == path && CleanRecord(env, r.value.value)
  {
    hide UnicodeString, Count, Preflight, Charge, ReadProperties, CleanText, CleanProperties, CleanTexts;
    TextIsClean(env, c, 0);
    var kind := UnicodeString(env, c);
    if kind.Ok? {
      var count := Count(env, kind.value.at, 8);
      if count.Ok? {
        var fits := Preflight(env, count.value.at, count.value.value, 1);
        if fits.Ok? {
          var paid := Charge(env, fits.value, count.value.value * env.sizes.property);
          if paid.Ok? { PropertiesAreClean(env, paid.value, count.value.value); }
        }
      }
    }
  }

  /** One clean record for each row, under the row's path. */
  predicate CleanRecords(env: Env, rows: seq<Internal>, records: seq<Record>)
  {
    |records| == |rows| && forall k :: 0 <= k < |rows| ==> records[k].path == rows[k].path && CleanRecord(env, records[k])
  }

  lemma {:induction false} RecordsAreClean(env: Env, c: Cursor, rows: seq<Internal>)
    requires CleanTexts(env, env.strings)
    ensures var r := ReadRecords(env, c, rows); r.Ok? ==> CleanRecords(env, rows, r.value.value)
    decreases |rows|
  {
    hide ReadRecord, CleanRecord, CleanTexts;
    if rows != [] {
      RecordIsClean(env, c, rows[0]);
      var first := ReadRecord(env, c, rows[0]);
      if first.Ok? { RecordsAreClean(env, first.value.at, rows[1..]); }
    }
  }

  // ---- tables

  lemma {:induction false} TextsAreClean(env: Env, c: Cursor, count: nat)
    ensures var r := UnicodeStrings(env, c, count); r.Ok? ==> CleanTexts(env, r.value.value)
    decreases count
  {
    hide UnicodeString, CleanText;
    if count > 0 {
      TextIsClean(env, c, 0);
      var first := UnicodeString(env, c);
      if first.Ok? { TextsAreClean(env, first.value.at, count - 1); }
    }
  }

  lemma {:induction false} ExternalsAreClean(env: Env, c: Cursor, count: nat)
    ensures var r := ReadExternals(env, c, count); r.Ok? ==> forall x :: x in r.value.value ==> CleanText(env, x.kind) && CleanText(env, x.path)
    decreases count
  {
    hide UnicodeString, CleanText;
    if count > 0 {
      TextIsClean(env, c, 0);
      var kind := UnicodeString(env, c);
      if kind.Ok? { TextIsClean(env, kind.value.at, 0); }
      var first := ReadExternal(env, c);
      if first.Ok? { ExternalsAreClean(env, first.value.at, count - 1); }
    }
  }

  lemma {:induction false} InternalsAreClean(env: Env, c: Cursor, count: nat)
    ensures var r := ReadInternals(env, c, count); r.Ok? ==> forall x :: x in r.value.value ==> CleanText(env, x.path)
    decreases count
  {
    hide UnicodeString, CleanText, Word;
    if count > 0 {
      TextIsClean(env, c, 0);
      var first := ReadInternal(env, c);
      if first.Ok? { InternalsAreClean(env, first.value.at, count - 1); }
    }
  }

  predicate CleanTables(env: Env)
  {
    && CleanTexts(env, env.strings) && (forall x :: x in env.externals ==> CleanText(env, x.kind) && CleanText(env, x.path))
    && forall x :: x in env.internals ==> CleanText(env, x.path)
  }

  lemma TablesAreClean(env: Env, c: Cursor)
    ensures var r := ReadTables(env, c); r.Ok? ==> CleanTables(r.value.value) && r.value.value.limits == env.limits
  {
    hide ChargedCount, UnicodeStrings, ReadExternals, ReadInternals, CleanText;
    var a := ChargedCount(env, c, 4, env.sizes.text);
    if a.Ok? { TextsAreClean(env, a.value.at, a.value.value); }
    var strings := StringTable(env, c);
    if strings.Ok? {
      var b := ChargedCount(env, strings.value.at, if env.modern && env.uids then 16 else 8, env.sizes.external);
      if b.Ok? { ExternalsAreClean(env, b.value.at, b.value.value); }
      var externals := ExternalTable(env, strings.value.at);
      if externals.Ok? {
        var d := ChargedCount(env, externals.value.at, 12, env.sizes.internal);
        if d.Ok? { InternalsAreClean(env, d.value.at, d.value.value); }
        var internals := InternalTable(env, externals.value.at);
        if internals.Ok? {
          SameTexts(env, env.(strings := strings.value.value, externals := externals.value.value, internals := internals.value.value));
        }
      }
    }
  }

  lemma SameTexts(a: Env, b: Env)
    requires a.limits == b.limits
    ensures forall s :: CleanText(a, s) <==> CleanText(b, s)
  {
    hide Utf8.WellFormed;
  }

  // ---- the resource

  /** The header names a known engine and format, and its kind is a clean text. */
  predicate CleanHeader(env: Env, h: Header)
  {
    && 2 <= h.major <= 4 && h.version <= (if h.major == 2 then 1 else if h.major == 3 then 3 else 6) && CleanText(env, h.kind)
    && env.modern == (h.major == 4) && env.v2 == (h.major == 2)
  }

  lemma HeaderIsClean(env: Env, c: Cursor, hasMagic: bool)
    ensures var r := ReadHeader(env, c, hasMagic);
            r.Ok? ==> CleanHeader(r.value.value.env, r.value.value.header) && r.value.value.env.limits == env.limits
  {
    hide Word, Words, HeaderTail, Magic, CleanHeader;
    var start := Magic(env, c, hasMagic);
    if start.Ok? {
      var order := Word(env, start.value, 4);
      if order.Ok? {
        var ordered := env.(bigEndian := order.value.value != 0);
        WordsCount(ordered, order.value.at, 4, 4);
        var words := Words(ordered, order.value.at, 4, 4);
        if words.Ok? && Versioned(ordered, words.value.value).Ok? {
          TailIsClean(Versioned(ordered, words.value.value).value, words.value.at, words.value.value);
        }
      }
    }
  }

  lemma TailIsClean(env: Env, c: Cursor, words: seq<nat>)
    requires |words| == 4 && 2 <= words[1] <= 4 && words[3] <= MaxVersion(words[1])
    requires env.modern == (words[1] == 4) && env.v2 == (words[1] == 2)
    ensures var r := HeaderTail(env, c, words);
            r.Ok? ==> CleanHeader(r.value.value.env, r.value.value.header) && r.value.value.env.limits == env.limits
  {
    hide Word, Words, UnicodeString, CleanText;
    TextIsClean(env, c, 0);
    var r := HeaderTail(env, c, words);
    if r.Ok? { SameTexts(env, r.value.value.env); }
  }

  /** The settings under which an accepted resource is clean. */
  predicate CleanResource(env: Env, r: Resource)
  {
    && CleanHeader(env, r.header) && CleanTables(env) && env.externals == r.externals && env.internals == r.internals
    && (LegacyIdMode(env) ==> IdsName(env))
    && CleanRecords(env, r.internals, r.records)
  }

  lemma {:induction false} RowsOfIds(env: Env, n: nat)
    requires n <= |env.internals|
    ensures var r := LegacyIds(env.internals, n);
            r.Ok? ==> forall id :: id in r.value ==>
              r.value[id] < n && LOCAL <= env.internals[r.value[id]].path && LocalId(env.internals[r.value[id]].path) == Some(id)
    decreases n
  {
    hide LocalId;
    if n > 0 { RowsOfIds(env, n - 1); }
  }

  lemma IdsAreNamed(env: Env)
    ensures var r := LegacyIds(env.internals, if env.internals == [] then 0 else |env.internals| - 1);
            r.Ok? ==> IdsName(env.(ids := r.value))
  {
    hide LocalId, LegacyIds;
    RowsOfIds(env, if env.internals == [] then 0 else |env.internals| - 1);
  }

  lemma AllRecordsAreClean(env: Env, c: Cursor)
    requires CleanTables(env)
    ensures var r := AllRecords(env, c);
            r.Ok? ==> exists ids: map<nat, nat> :: CleanRecords(env.(ids := ids), env.internals, r.value.value)
                                                && (LegacyIdMode(env) ==> IdsName(env.(ids := ids)))
  {
    hide LegacyIds, Charge, ReadRecords, CleanText, CleanRecords, LocalId;
    IdsAreNamed(env);
    var known := KnownIds(env, c);
    if known.Ok? {
      var e := known.value.value;
      SameTexts(env, e);
      assert e == env.(ids := e.ids);
      var paid := Charge(e, known.value.at, |env.internals| * env.sizes.record);
      if paid.Ok? { RecordsAreClean(e, paid.value, env.internals); }
    }
  }

  /**
   Every accepted resource is clean: its engine and format are known, its texts are bounded, well-formed and
   free of NUL, its references point into its tables, its dictionaries have distinct names, and nothing in
   it lies deeper than the limit.
   */
  lemma AcceptedIsClean(data: seq<byte>, hasMagic: bool, limits: Limits, sizes: Sizes, metadata: bool)
    ensures var r := Parse(data, hasMagic, limits, sizes, metadata);
            r.Ok? ==> |data| <= limits.input && exists env: Env :: env.limits == limits && CleanResource(env, r.value)
  {
    hide ReadHeader, ReadTables, AllRecords, CleanHeader, CleanTables, CleanRecords, IdsName;
    var env, c := Fresh(data, limits, sizes), Start(metadata);
    HeaderIsClean(env, c, hasMagic);
    var begun := ReadHeader(env, c, hasMagic);
    if begun.Ok? {
      var head := begun.value.value.env;
      TablesAreClean(head, begun.value.at);
      var tables := ReadTables(head, begun.value.at);
      if tables.Ok? {
        AllRecordsAreClean(tables.value.value, tables.value.at);
        var records := AllRecords(tables.value.value, tables.value.at);
        if records.Ok? {
          var ids :| CleanRecords(tables.value.value.(ids := ids), tables.value.value.internals, records.value.value)
                  && (LegacyIdMode(tables.value.value) ==> IdsName(tables.value.value.(ids := ids)));
          var final := tables.value.value.(ids := ids);
          IdsDoNotMatter(head, tables.value.value, final, begun.value.value.header);
          TablesKeep(head, begun.value.at);
          assert CleanResource(final, Resource(begun.value.value.header, final.externals, final.internals, records.value.value));
        }
      }
    }
  }

  lemma TablesKeep(env: Env, c: Cursor)
    ensures var r := ReadTables(env, c); r.Ok? ==> r.value.value.modern == env.modern && r.value.value.v2 == env.v2
  {
    hide StringTable, ExternalTable, InternalTable;
  }

  lemma IdsDoNotMatter(head: Env, tables: Env, final: Env, h: Header)
    requires CleanHeader(head, h) && CleanTables(tables) && head.limits == tables.limits && final == tables.(ids := final.ids)
    ensures CleanTables(final)
    ensures tables.modern == head.modern && tables.v2 == head.v2 ==> CleanHeader(final, h)
  {
    hide CleanText;
    SameTexts(head, final);
    SameTexts(tables, final);
  }
}
