/** The metadata parse of a binary resource is the full parse with every payload cut to its first 64 bytes. */
module BinaryResourceModes {
  import opened Bytes
  import opened BinaryResource

  // ---- cutting a tree

  function CutBlob(b: Blob): Blob
  {
    if |b.kept| > KEPT then b.(kept := b.kept[..KEPT]) else b
  }

  function Cut(v: Value): (r: Value)
    ensures r.Text? <==> v.Text?
    ensures v.Text? ==> r == v
  {
    match v
    case Raw(blob) => Raw(CutBlob(blob))
    case Image(_, _, _, _, _, blob) => v.(blob := CutBlob(blob))
    case Items(items) => Items(CutAll(items))
    case Dictionary(entries) => Dictionary(CutEntries(entries))
    case _ => v
  }

  function CutAll(vs: seq<Value>): (r: seq<Value>)
    ensures |r| == |vs|
  {
    if vs == [] then [] else [Cut(vs[0])] + CutAll(vs[1..])
  }

  function CutEntries(entries: seq<Property>): (r: seq<Property>)
    ensures |r| == |entries|
    ensures forall i :: 0 <= i < |entries| ==> r[i] == Property(entries[i].name, Cut(entries[i].value))
  {
    if entries == [] then []
    else [Property(entries[0].name, Cut(entries[0].value))] + CutEntries(entries[1..])
  }

  function CutPairs(pairs: seq<Pair>): (r: seq<Pair>)
    ensures |r| == |pairs|
    ensures forall i :: 0 <= i < |pairs| ==> r[i] == Pair(Cut(pairs[i].key), Cut(pairs[i].entry))
  {
    if pairs == [] then []
    else [Pair(Cut(pairs[0].key), Cut(pairs[0].entry))] + CutPairs(pairs[1..])
  }

  function CutRecords(records: seq<Record>): (r: seq<Record>)
  {
    if records == [] then []
    else [records[0].(properties := CutEntries(records[0].properties))] + CutRecords(records[1..])
  }

  function CutResource(r: Resource): Resource
  {
    r.(records := CutRecords(r.records))
  }

  // ---- the two modes side by side

  /** The metadata cursor stands where the full one does and has charged no more; every prefix passed was within the string bound. */
  predicate Below(env: Env, m: Cursor, f: Cursor)
  {
    && m.metadata && !f.metadata && m.pos == f.pos && m.nodes == f.nodes && m.alloc <= f.alloc
    && m.widest == f.widest <= env.limits.text
  }

  /**
   Where the full parse reads something, the metadata parse reads it too if every prefix on the way is
   within the string bound, and otherwise refuses to fetch one. Where the full parse fails for any reason
   but the budget, so does the other.
   */
  predicate Agrees<T(==)>(env: Env, full: Result<Read<T>>, meta: Result<Read<T>>)
  {
    match full
    case Ok(r) =>
      if r.at.widest <= env.limits.text
      then meta.Ok? && meta.value.value == r.value && Below(env, meta.value.at, r.at)
      else meta == Err(FetchTooLong)
    case Err(why) => why == OverBudget || meta.Err?
  }

  predicate AgreesAt(env: Env, full: Result<Cursor>, meta: Result<Cursor>)
  {
    match full
    case Ok(f) => if f.widest <= env.limits.text then meta.Ok? && Below(env, meta.value, f) else meta == Err(FetchTooLong)
    case Err(why) => why == OverBudget || meta.Err?
  }

  lemma MovesAgree(env: Env, f: Cursor, m: Cursor, count: nat)
    requires Below(env, m, f)
    ensures AgreesAt(env, Skip(env, f, count), Skip(env, m, count))
    ensures AgreesAt(env, Require(env, f, count), Require(env, m, count))
    ensures AgreesAt(env, Align4(env, f, count), Align4(env, m, count))
    ensures AgreesAt(env, Seek(env, f, count), Seek(env, m, count))
    ensures AgreesAt(env, Charge(env, f, count), Charge(env, m, count))
  {
  }

  lemma NodesAgree(env: Env, f: Cursor, m: Cursor, count: nat, depth: nat)
    requires Below(env, m, f)
    ensures AgreesAt(env, EnterNode(env, f), EnterNode(env, m))
    ensures AgreesAt(env, Preflight(env, f, count, depth), Preflight(env, m, count, depth))
  {
  }

  lemma WordAgrees(env: Env, f: Cursor, m: Cursor, width: nat)
    requires Below(env, m, f)
    ensures Agrees(env, Word(env, f, width), Word(env, m, width))
  {
    hide Number;
  }

  lemma {:induction false} WordsAgree(env: Env, f: Cursor, m: Cursor, width: nat, count: nat)
    requires Below(env, m, f)
    ensures Agrees(env, Words(env, f, width, count), Words(env, m, width, count))
    decreases count
  {
    hide Word;
    if count > 0 {
      WordAgrees(env, f, m, width);
      var (a, b) := (Word(env, f, width), Word(env, m, width));
      if a.Ok? && b.Ok? { WordsAgree(env, a.value.at, b.value.at, width, count - 1); }
    }
  }

  lemma CountAgrees(env: Env, f: Cursor, m: Cursor, minimum: nat)
    requires Below(env, m, f)
    ensures Agrees(env, Count(env, f, minimum), Count(env, m, minimum))
    ensures Agrees(env, SharedCount(env, f, minimum), SharedCount(env, m, minimum))
  {
    hide Word;
    WordAgrees(env, f, m, 4);
  }

  lemma StringAgrees(env: Env, f: Cursor, m: Cursor, length: nat)
    requires Below(env, m, f)
    ensures Agrees(env, StringBody(env, f, length), StringBody(env, m, length))
  {
  }

  lemma UnicodeAgrees(env: Env, f: Cursor, m: Cursor)
    requires Below(env, m, f)
    ensures Agrees(env, UnicodeString(env, f), UnicodeString(env, m))
  {
    hide Word, StringBody;
    WordAgrees(env, f, m, 4);
    var (a, b) := (Word(env, f, 4), Word(env, m, 4));
    if a.Ok? && b.Ok? { StringAgrees(env, a.value.at, b.value.at, a.value.value); }
  }

  lemma {:induction false} UnicodesAgree(env: Env, f: Cursor, m: Cursor, count: nat)
    requires Below(env, m, f)
    ensures Agrees(env, UnicodeStrings(env, f, count), UnicodeStrings(env, m, count))
    decreases count
  {
    hide UnicodeString;
    if count > 0 {
      UnicodeAgrees(env, f, m);
      var (a, b) := (UnicodeString(env, f), UnicodeString(env, m));
      if a.Ok? && b.Ok? { UnicodesAgree(env, a.value.at, b.value.at, count - 1); }
    }
  }

  lemma NameAgrees(env: Env, f: Cursor, m: Cursor)
    requires Below(env, m, f)
    ensures Agrees(env, Name(env, f), Name(env, m))
  {
    hide Word, StringBody;
    WordAgrees(env, f, m, 4);
    var (a, b) := (Word(env, f, 4), Word(env, m, 4));
    if a.Ok? && b.Ok? {
      if a.value.value >= 0x8000_0000 { StringAgrees(env, a.value.at, b.value.at, a.value.value - 0x8000_0000); }
    }
  }

  lemma {:induction false} NamesAgree(env: Env, f: Cursor, m: Cursor, count: nat)
    requires Below(env, m, f)
    ensures AgreesAt(env, SkipNames(env, f, count), SkipNames(env, m, count))
    decreases count
  {
    hide Name;
    if count > 0 {
      NameAgrees(env, f, m);
      var (a, b) := (Name(env, f), Name(env, m));
      if a.Ok? && b.Ok? { NamesAgree(env, a.value.at, b.value.at, count - 1); }
    }
  }

  // ---- payloads

  function CutBlobRead(r: Result<Read<Blob>>): Result<Read<Blob>>
  {
    if r.Ok? then Ok(Read(CutBlob(r.value.value), r.value.at)) else r
  }

  function CutRead(r: Result<Read<Value>>): Result<Read<Value>>
  {
    if r.Ok? then Ok(Read(Cut(r.value.value), r.value.at)) else r
  }

  function CutReads(r: Result<Read<seq<Value>>>): Result<Read<seq<Value>>>
  {
    if r.Ok? then Ok(Read(CutAll(r.value.value), r.value.at)) else r
  }

  function CutPairReads(r: Result<Read<seq<Pair>>>): Result<Read<seq<Pair>>>
  {
    if r.Ok? then Ok(Read(CutPairs(r.value.value), r.value.at)) else r
  }

  lemma PayloadAgrees(env: Env, f: Cursor, m: Cursor)
    requires Below(env, m, f)
    ensures Agrees(env, CutBlobRead(Payload(env, f)), Payload(env, m))
  {
    hide Count, Body, CutBlob;
    CountAgrees(env, f, m, 1);
    var (a, b) := (Count(env, f, 1), Count(env, m, 1));
    if a.Ok? && b.Ok? { BodyAgrees(env, a.value.at, b.value.at, a.value.value); }
  }

  /** Behind its count, a payload that the full mode reads is read by the metadata mode iff its prefix is within the string bound. */
  lemma BodyAgrees(env: Env, f: Cursor, m: Cursor, count: nat)
    requires Below(env, m, f)
    ensures Agrees(env, CutBlobRead(Body(env, f, count)), Body(env, m, count))
    ensures Body(env, f, count).Ok? ==> (Body(env, m, count).Ok? <==> Prefix(count) <= env.limits.text)
  {
    if count > KEPT && f.pos + count <= |env.data| {
      SliceOfWindow(env.data, f.pos, count, 0, KEPT);
      assert env.data[f.pos..][..count] == env.data[f.pos..f.pos + count];
    }
  }

  lemma ImageAgrees(env: Env, f: Cursor, m: Cursor)
    requires Below(env, m, f)
    ensures Agrees(env, CutRead(DecodeImage(env, f)), DecodeImage(env, m))
  {
    hide Word, Words, Payload, CutBlob;
    WordAgrees(env, f, m, 4);
    var (a, b) := (Word(env, f, 4), Word(env, m, 4));
    if a.Ok? && b.Ok? && a.value.value != 0 {
      WordsAgree(env, a.value.at, b.value.at, 4, 4);
      var (d, e) := (ImageDetails(env, a.value.at, a.value.value), ImageDetails(env, b.value.at, a.value.value));
      if d.Ok? && e.Ok? { PayloadAgrees(env, d.value.at, e.value.at); }
    }
  }

  lemma RawAgrees(env: Env, f: Cursor, m: Cursor)
    requires Below(env, m, f)
    ensures Agrees(env, CutRead(DecodeRaw(env, f)), DecodeRaw(env, m))
  {
    hide Payload, CutBlob;
    PayloadAgrees(env, f, m);
  }

  // ---- the other leaves

  lemma ObjectAgrees(env: Env, f: Cursor, m: Cursor)
    requires Below(env, m, f)
    ensures Agrees(env, CutRead(DecodeObject(env, f)), DecodeObject(env, m))
  {
    hide Word, UnicodeString;
    WordAgrees(env, f, m, 4);
    var (a, b) := (Word(env, f, 4), Word(env, m, 4));
    if a.Ok? && b.Ok? {
      WordAgrees(env, a.value.at, b.value.at, 4);
      UnicodeAgrees(env, a.value.at, b.value.at);
      var (d, e) := (UnicodeString(env, a.value.at), UnicodeString(env, b.value.at));
      if d.Ok? && e.Ok? { UnicodeAgrees(env, d.value.at, e.value.at); }
    }
  }

  lemma NodePathAgrees(env: Env, f: Cursor, m: Cursor)
    requires Below(env, m, f)
    ensures Agrees(env, CutRead(DecodeNodePath(env, f)), DecodeNodePath(env, m))
  {
    hide Word, SkipNames;
    WordAgrees(env, f, m, 2);
    var (a, b) := (Word(env, f, 2), Word(env, m, 2));
    if a.Ok? && b.Ok? {
      WordAgrees(env, a.value.at, b.value.at, 2);
      var (d, e) := (Word(env, a.value.at, 2), Word(env, b.value.at, 2));
      if d.Ok? && e.Ok? {
        NamesAgree(env, d.value.at, e.value.at, a.value.value);
        var (g, h) := (SkipNames(env, d.value.at, a.value.value), SkipNames(env, e.value.at, a.value.value));
        if g.Ok? && h.Ok? { NamesAgree(env, g.value, h.value, d.value.value % 0x8000 + if env.version < 3 then 1 else 0); }
      }
    }
  }

  lemma NumbersAgree(env: Env, f: Cursor, m: Cursor, width: nat, isReal: bool)
    requires Below(env, m, f)
    ensures Agrees(env, CutRead(DecodeNumbers(env, f, width, isReal)), DecodeNumbers(env, m, width, isReal))
  {
    hide Count, Charge, Words, SignedAll;
    CountAgrees(env, f, m, width);
    var (a, b) := (Count(env, f, width), Count(env, m, width));
    if a.Ok? && b.Ok? {
      MovesAgree(env, a.value.at, b.value.at, a.value.value * 8);
      var (d, e) := (Charge(env, a.value.at, a.value.value * 8), Charge(env, b.value.at, a.value.value * 8));
      if d.Ok? && e.Ok? { WordsAgree(env, d.value, e.value, width, a.value.value); }
    }
  }

  lemma CountedAgrees(env: Env, f: Cursor, m: Cursor, element: nat)
    requires Below(env, m, f)
    ensures Agrees(env, CutRead(DecodeCounted(env, f, element)), DecodeCounted(env, m, element))
  {
    hide Count;
    CountAgrees(env, f, m, element);
  }

  lemma TextAgrees(env: Env, f: Cursor, m: Cursor)
    requires Below(env, m, f)
    ensures Agrees(env, CutRead(DecodeText(env, f)), DecodeText(env, m))
  {
    hide UnicodeString;
    UnicodeAgrees(env, f, m);
  }

  lemma LeafAgrees(env: Env, f: Cursor, m: Cursor, tag: Decoder)
    requires Below(env, m, f) && !tag.ItemsTag? && !tag.DictionaryTag? && !tag.StringsTag?
    ensures Agrees(env, CutRead(DecodeLeaf(env, f, tag)), DecodeLeaf(env, m, tag))
  {
    hide Word, UnicodeString, DecodeText, DecodeRaw, DecodeNumbers, DecodeObject, DecodeImage, DecodeNodePath, DecodeCounted;
    hide Number;
    match tag
    case BooleanTag => WordAgrees(env, f, m, 4);
    case IntegerTag(width) => WordAgrees(env, f, m, width);
    case RealTag => WordAgrees(env, f, m, RealWidth(env));
    case DoubleTag => WordAgrees(env, f, m, 8);
    case TextTag => TextAgrees(env, f, m);
    case RawTag => RawAgrees(env, f, m);
    case IntegersTag(width) => NumbersAgree(env, f, m, width, false);
    case RealsTag(width) => NumbersAgree(env, f, m, width, true);
    case ObjectTag => ObjectAgrees(env, f, m);
    case ImageTag => ImageAgrees(env, f, m);
    case NodePathTag => NodePathAgrees(env, f, m);
    case StringNameTag => UnicodeAgrees(env, f, m);
    case CountedTag(isReal, components) => CountedAgrees(env, f, m, ElementWidth(env, isReal) * components);
    case _ =>
  }

  // ---- values with children

  lemma TextNodeAgrees(env: Env, f: Cursor, m: Cursor)
    requires Below(env, m, f)
    ensures Agrees(env, CutRead(TextNode(env, f)), TextNode(env, m))
  {
    hide DecodeText, Cut;
    NodesAgree(env, f, m, 0, 0);
    var (a, b) := (EnterNode(env, f), EnterNode(env, m));
    if a.Ok? && b.Ok? { TextAgrees(env, a.value, b.value); }
  }

  lemma {:induction false} TextNodesAgree(env: Env, f: Cursor, m: Cursor, count: nat)
    requires Below(env, m, f)
    ensures Agrees(env, CutReads(TextNodes(env, f, count)), TextNodes(env, m, count))
    decreases count
  {
    hide TextNode, Cut, CutAll;
    CutNone();
    if count > 0 {
      TextNodeAgrees(env, f, m);
      var (a, b) := (TextNode(env, f), TextNode(env, m));
      if a.Ok? && b.Ok? {
        TextNodesAgree(env, a.value.at, b.value.at, count - 1);
        var r := TextNodes(env, a.value.at, count - 1);
        if r.Ok? { CutMore(a.value.value, r.value.value); }
      }
    }
  }

  lemma CutNone()
    ensures CutAll([]) == []
    ensures CutPairs([]) == []
  {
  }

  lemma CutMore(v: Value, rest: seq<Value>)
    ensures CutAll([v] + rest) == [Cut(v)] + CutAll(rest)
  {
    assert ([v] + rest)[1..] == rest;
  }

  lemma StringsAgree(env: Env, f: Cursor, m: Cursor, depth: nat)
    requires Below(env, m, f)
    ensures Agrees(env, CutRead(DecodeStrings(env, f, depth)), DecodeStrings(env, m, depth))
  {
    hide Count, TextNodes, Preflight, Charge, CutAll;
    CountAgrees(env, f, m, 4);
    var (a, b) := (Count(env, f, 4), Count(env, m, 4));
    if a.Ok? && b.Ok? {
      var n := a.value.value;
      NodesAgree(env, a.value.at, b.value.at, n, depth + 1);
      var (d, e) := (Preflight(env, a.value.at, n, depth + 1), Preflight(env, b.value.at, n, depth + 1));
      if d.Ok? && e.Ok? {
        MovesAgree(env, d.value, e.value, n * env.sizes.value);
        var (g, h) := (Charge(env, d.value, n * env.sizes.value), Charge(env, e.value, n * env.sizes.value));
        if g.Ok? && h.Ok? { TextNodesAgree(env, g.value, h.value, n); }
      }
    }
  }

  lemma CutOfItems(items: seq<Value>)
    ensures Cut(Items(items)) == Items(CutAll(items))
  {
  }

  lemma ContainerCountAgrees(env: Env, f: Cursor, m: Cursor, minimum: nat, each: nat, depth: nat)
    requires Below(env, m, f)
    ensures Agrees(env, ContainerCount(env, f, minimum, each, depth), ContainerCount(env, m, minimum, each, depth))
  {
    hide SharedCount;
    CountAgrees(env, f, m, minimum);
  }

  /** The two modes read the same value, cut, at every depth. */
  lemma {:induction false} ValueAgrees(env: Env, f: Cursor, m: Cursor, depth: nat)
    requires Below(env, m, f)
    ensures Agrees(env, CutRead(ReadValue(env, f, depth)), ReadValue(env, m, depth))
    decreases Levels(env, depth), 1, 0
  {
    hide Decode, FindTag, Word, EnterNode, Cut;
    if depth <= env.limits.depth {
      NodesAgree(env, f, m, 0, 0);
      var (a, b) := (EnterNode(env, f), EnterNode(env, m));
      if a.Ok? && b.Ok? {
        WordAgrees(env, a.value, b.value, 4);
        var (d, e) := (Word(env, a.value, 4), Word(env, b.value, 4));
        if d.Ok? && e.Ok? && FindTag(env, d.value.value).Some? {
          DecodeAgrees(env, d.value.at, e.value.at, depth, FindTag(env, d.value.value).value);
        }
      }
    }
  }

  lemma {:induction false} DecodeAgrees(env: Env, f: Cursor, m: Cursor, depth: nat, tag: Decoder)
    requires Below(env, m, f) && depth <= env.limits.depth
    ensures Agrees(env, CutRead(Decode(env, f, depth, tag)), Decode(env, m, depth, tag))
    decreases Levels(env, depth), 0, 1
  {
    hide DecodeItems, DecodeDictionary, DecodeStrings, DecodeLeaf, Cut;
    if tag.ItemsTag? {
      ItemsAgree(env, f, m, depth);
    } else if tag.DictionaryTag? {
      DictionaryAgrees(env, f, m, depth);
    } else if tag.StringsTag? {
      StringsAgree(env, f, m, depth);
    } else {
      LeafAgrees(env, f, m, tag);
    }
  }

  lemma {:induction false} ItemsAgree(env: Env, f: Cursor, m: Cursor, depth: nat)
    requires Below(env, m, f) && depth <= env.limits.depth
    ensures Agrees(env, CutRead(DecodeItems(env, f, depth)), DecodeItems(env, m, depth))
    decreases Levels(env, depth), 0, 0
  {
    hide ContainerCount, Values, Charge, Cut;
    ContainerCountAgrees(env, f, m, 4, 1, depth);
    var (a, b) := (ContainerCount(env, f, 4, 1, depth), ContainerCount(env, m, 4, 1, depth));
    if a.Ok? && b.Ok? {
      var n := a.value.value;
      MovesAgree(env, a.value.at, b.value.at, n * env.sizes.value);
      var (d, e) := (Charge(env, a.value.at, n * env.sizes.value), Charge(env, b.value.at, n * env.sizes.value));
      if d.Ok? && e.Ok? {
        ValuesAgree(env, d.value, e.value, depth + 1, n);
        var g := Values(env, d.value, depth + 1, n);
        if g.Ok? { CutOfItems(g.value.value); }
      }
    }
  }

  lemma {:induction false} DictionaryAgrees(env: Env, f: Cursor, m: Cursor, depth: nat)
    requires Below(env, m, f) && depth <= env.limits.depth
    ensures Agrees(env, CutRead(DecodeDictionary(env, f, depth)), DecodeDictionary(env, m, depth))
    decreases Levels(env, depth), 0, 0
  {
    hide ContainerCount, Pairs, Represent, Charge, Cut;
    ContainerCountAgrees(env, f, m, 8, 2, depth);
    var (a, b) := (ContainerCount(env, f, 8, 2, depth), ContainerCount(env, m, 8, 2, depth));
    if a.Ok? && b.Ok? {
      var n := a.value.value;
      MovesAgree(env, a.value.at, b.value.at, n * env.sizes.property);
      var (d, e) := (Charge(env, a.value.at, n * env.sizes.property), Charge(env, b.value.at, n * env.sizes.property));
      if d.Ok? && e.Ok? {
        MovesAgree(env, d.value, e.value, n * env.sizes.value);
        var (g, h) := (Charge(env, d.value, n * env.sizes.value), Charge(env, e.value, n * env.sizes.value));
        if g.Ok? && h.Ok? {
          PairsAgree(env, g.value, h.value, depth + 1, n);
          var (x, y) := (Pairs(env, g.value, depth + 1, n), Pairs(env, h.value, depth + 1, n));
          if x.Ok? && y.Ok? { RepresentAgrees(env, x.value.at, y.value.at, x.value.value); }
        }
      }
    }
  }

  lemma {:induction false} ValuesAgree(env: Env, f: Cursor, m: Cursor, depth: nat, count: nat)
    requires Below(env, m, f)
    ensures Agrees(env, CutReads(Values(env, f, depth, count)), Values(env, m, depth, count))
    decreases Levels(env, depth), 2, count
  {
    hide ReadValue, Cut, CutAll;
    CutNone();
    if count > 0 {
      ValueAgrees(env, f, m, depth);
      var (a, b) := (ReadValue(env, f, depth), ReadValue(env, m, depth));
      if a.Ok? && b.Ok? {
        ValuesAgree(env, a.value.at, b.value.at, depth, count - 1);
        var r := Values(env, a.value.at, depth, count - 1);
        if r.Ok? { CutMore(a.value.value, r.value.value); }
      }
    }
  }

  lemma {:induction false} PairsAgree(env: Env, f: Cursor, m: Cursor, depth: nat, count: nat)
    requires Below(env, m, f)
    ensures Agrees(env, CutPairReads(Pairs(env, f, depth, count)), Pairs(env, m, depth, count))
    decreases Levels(env, depth), 2, count
  {
    hide ReadValue, Cut, CutPairs;
    CutNone();
    if count > 0 {
      ValueAgrees(env, f, m, depth);
      var (a, b) := (ReadValue(env, f, depth), ReadValue(env, m, depth));
      if a.Ok? && b.Ok? {
        ValueAgrees(env, a.value.at, b.value.at, depth);
        var (d, e) := (ReadValue(env, a.value.at, depth), ReadValue(env, b.value.at, depth));
        if d.Ok? && e.Ok? {
          PairsAgree(env, d.value.at, e.value.at, depth, count - 1);
          var r := Pairs(env, d.value.at, depth, count - 1);
          if r.Ok? { CutPairMore(Pair(a.value.value, d.value.value), r.value.value); }
        }
      }
    }
  }

  lemma CutPairMore(p: Pair, rest: seq<Pair>)
    ensures CutPairs([p] + rest) == [Pair(Cut(p.key), Cut(p.entry))] + CutPairs(rest)
  {
    assert ([p] + rest)[1..] == rest;
  }

  lemma CutKeys(pairs: seq<Pair>)
    ensures TextKeys(CutPairs(pairs)) <==> TextKeys(pairs)
    ensures TextKeys(pairs) ==> Named(CutPairs(pairs)) == CutEntries(Named(pairs))
  {
    var cut := CutPairs(pairs);
    if TextKeys(pairs) {
      forall p | p in cut ensures p.key.Text? { var i :| 0 <= i < |cut| && cut[i] == p; assert pairs[i] in pairs; }
    }
    if TextKeys(cut) {
      forall p | p in pairs ensures p.key.Text? { var i :| 0 <= i < |pairs| && pairs[i] == p; assert cut[i] in cut; }
    }
  }

  lemma RepresentAgrees(env: Env, f: Cursor, m: Cursor, pairs: seq<Pair>)
    requires Below(env, m, f)
    ensures Agrees(env, CutRead(Represent(env, f, pairs)), Represent(env, m, CutPairs(pairs)))
  {
    hide CutPairs, CutEntries, Named, TextKeys;
    CutKeys(pairs);
    if TextKeys(pairs) {
      var (a, b) := (Named(pairs), Named(CutPairs(pairs)));
      assert forall i :: 0 <= i < |a| ==> b[i].name == a[i].name;
      assert Distinct(a) <==> Distinct(b);
    }
  }

  // ---- the header and the tables

  lemma ModernHeaderAgrees(env: Env, f: Cursor, m: Cursor)
    requires Below(env, m, f)
    ensures Agrees(env, ModernHeader(env, f), ModernHeader(env, m))
  {
    hide Word, Words, UnicodeString;
    WordAgrees(env, f, m, 4);
    var (a, b) := (Word(env, f, 4), Word(env, m, 4));
    if a.Ok? && b.Ok? {
      WordAgrees(env, a.value.at, b.value.at, 8);
      var (d, e) := (Word(env, a.value.at, 8), Word(env, b.value.at, 8));
      if d.Ok? && e.Ok? {
        WordsAgree(env, d.value.at, e.value.at, 4, 11);
        UnicodeAgrees(env, d.value.at, e.value.at);
        var (g, h) := (UnicodeString(env, d.value.at), UnicodeString(env, e.value.at));
        if g.Ok? && h.Ok? { WordsAgree(env, g.value.at, h.value.at, 4, 11); }
      }
    }
  }

  lemma HeaderTailAgrees(env: Env, f: Cursor, m: Cursor, words: seq<nat>)
    requires Below(env, m, f) && |words| == 4
    ensures Agrees(env, HeaderTail(env, f, words), HeaderTail(env, m, words))
  {
    hide Word, Words, UnicodeString, ModernHeader;
    UnicodeAgrees(env, f, m);
    var (a, b) := (UnicodeString(env, f), UnicodeString(env, m));
    if a.Ok? && b.Ok? {
      WordAgrees(env, a.value.at, b.value.at, 8);
      var (d, e) := (Word(env, a.value.at, 8), Word(env, b.value.at, 8));
      if d.Ok? && e.Ok? {
        ModernHeaderAgrees(env, d.value.at, e.value.at);
        WordsAgree(env, d.value.at, e.value.at, 4, 14);
      }
    }
  }

  lemma HeaderAgrees(env: Env, f: Cursor, m: Cursor, hasMagic: bool)
    requires Below(env, m, f)
    ensures Agrees(env, ReadHeader(env, f, hasMagic), ReadHeader(env, m, hasMagic))
  {
    hide Word, Words, HeaderTail, Versioned;
    var (s, t) := (Magic(env, f, hasMagic), Magic(env, m, hasMagic));
    assert AgreesAt(env, s, t);
    if s.Ok? && t.Ok? {
      WordAgrees(env, s.value, t.value, 4);
      var (a, b) := (Word(env, s.value, 4), Word(env, t.value, 4));
      if a.Ok? && b.Ok? {
        var ordered := env.(bigEndian := a.value.value != 0);
        WordsAgree(ordered, a.value.at, b.value.at, 4, 4);
        WordsCount(ordered, a.value.at, 4, 4);
        var (d, e) := (Words(ordered, a.value.at, 4, 4), Words(ordered, b.value.at, 4, 4));
        if d.Ok? && e.Ok? && Versioned(ordered, d.value.value).Ok? {
          KnownLimits(ordered, d.value.value);
          HeaderTailAgrees(Versioned(ordered, d.value.value).value, d.value.at, e.value.at, d.value.value);
        }
      }
    }
  }

  lemma KnownLimits(env: Env, words: seq<nat>)
    requires |words| == 4
    ensures Versioned(env, words).Ok? ==> Versioned(env, words).value.limits == env.limits
  {
  }

  lemma ExternalAgrees(env: Env, f: Cursor, m: Cursor)
    requires Below(env, m, f)
    ensures Agrees(env, ReadExternal(env, f), ReadExternal(env, m))
  {
    hide UnicodeString;
    UnicodeAgrees(env, f, m);
    var (a, b) := (UnicodeString(env, f), UnicodeString(env, m));
    if a.Ok? && b.Ok? { UnicodeAgrees(env, a.value.at, b.value.at); }
  }

  lemma {:induction false} ExternalsAgree(env: Env, f: Cursor, m: Cursor, count: nat)
    requires Below(env, m, f)
    ensures Agrees(env, ReadExternals(env, f, count), ReadExternals(env, m, count))
    decreases count
  {
    hide ReadExternal;
    if count > 0 {
      ExternalAgrees(env, f, m);
      var (a, b) := (ReadExternal(env, f), ReadExternal(env, m));
      if a.Ok? && b.Ok? { ExternalsAgree(env, a.value.at, b.value.at, count - 1); }
    }
  }

  lemma InternalAgrees(env: Env, f: Cursor, m: Cursor)
    requires Below(env, m, f)
    ensures Agrees(env, ReadInternal(env, f), ReadInternal(env, m))
  {
    hide UnicodeString, Word;
    UnicodeAgrees(env, f, m);
    var (a, b) := (UnicodeString(env, f), UnicodeString(env, m));
    if a.Ok? && b.Ok? { WordAgrees(env, a.value.at, b.value.at, 8); }
  }

  lemma {:induction false} InternalsAgree(env: Env, f: Cursor, m: Cursor, count: nat)
    requires Below(env, m, f)
    ensures Agrees(env, ReadInternals(env, f, count), ReadInternals(env, m, count))
    decreases count
  {
    hide ReadInternal;
    if count > 0 {
      InternalAgrees(env, f, m);
      var (a, b) := (ReadInternal(env, f), ReadInternal(env, m));
      if a.Ok? && b.Ok? { InternalsAgree(env, a.value.at, b.value.at, count - 1); }
    }
  }

  /** A count, then a charge per element. */
  lemma ChargedCountAgrees(env: Env, f: Cursor, m: Cursor, minimum: nat, each: nat)
    requires Below(env, m, f)
    ensures Agrees(env, ChargedCount(env, f, minimum, each), ChargedCount(env, m, minimum, each))
  {
    hide Count, Charge;
    CountAgrees(env, f, m, minimum);
    var (a, b) := (Count(env, f, minimum), Count(env, m, minimum));
    if a.Ok? && b.Ok? { MovesAgree(env, a.value.at, b.value.at, a.value.value * each); }
  }

  lemma TableAgrees(env: Env, f: Cursor, m: Cursor)
    requires Below(env, m, f)
    ensures Agrees(env, StringTable(env, f), StringTable(env, m))
    ensures Agrees(env, ExternalTable(env, f), ExternalTable(env, m))
    ensures Agrees(env, InternalTable(env, f), InternalTable(env, m))
  {
    StringTableAgrees(env, f, m);
    ExternalTableAgrees(env, f, m);
    InternalTableAgrees(env, f, m);
  }

  lemma StringTableAgrees(env: Env, f: Cursor, m: Cursor)
    requires Below(env, m, f)
    ensures Agrees(env, StringTable(env, f), StringTable(env, m))
  {
    hide ChargedCount, UnicodeStrings;
    ChargedCountAgrees(env, f, m, 4, env.sizes.text);
    var (a, b) := (ChargedCount(env, f, 4, env.sizes.text), ChargedCount(env, m, 4, env.sizes.text));
    if a.Ok? && b.Ok? { UnicodesAgree(env, a.value.at, b.value.at, a.value.value); }
  }

  lemma ExternalTableAgrees(env: Env, f: Cursor, m: Cursor)
    requires Below(env, m, f)
    ensures Agrees(env, ExternalTable(env, f), ExternalTable(env, m))
  {
    hide ChargedCount, ReadExternals;
    var least := if env.modern && env.uids then 16 else 8;
    ChargedCountAgrees(env, f, m, least, env.sizes.external);
    var (a, b) := (ChargedCount(env, f, least, env.sizes.external), ChargedCount(env, m, least, env.sizes.external));
    if a.Ok? && b.Ok? { ExternalsAgree(env, a.value.at, b.value.at, a.value.value); }
  }

  lemma InternalTableAgrees(env: Env, f: Cursor, m: Cursor)
    requires Below(env, m, f)
    ensures Agrees(env, InternalTable(env, f), InternalTable(env, m))
  {
    hide ChargedCount, ReadInternals;
    ChargedCountAgrees(env, f, m, 12, env.sizes.internal);
    var (a, b) := (ChargedCount(env, f, 12, env.sizes.internal), ChargedCount(env, m, 12, env.sizes.internal));
    if a.Ok? && b.Ok? { InternalsAgree(env, a.value.at, b.value.at, a.value.value); }
  }

  lemma TablesAgree(env: Env, f: Cursor, m: Cursor)
    requires Below(env, m, f)
    ensures Agrees(env, ReadTables(env, f), ReadTables(env, m))
  {
    hide StringTable, ExternalTable, InternalTable;
    TableAgrees(env, f, m);
    var (a, b) := (StringTable(env, f), StringTable(env, m));
    if a.Ok? && b.Ok? {
      TableAgrees(env, a.value.at, b.value.at);
      var (d, e) := (ExternalTable(env, a.value.at), ExternalTable(env, b.value.at));
      if d.Ok? && e.Ok? { TableAgrees(env, d.value.at, e.value.at); }
    }
  }

  // ---- the records

  function CutProperty(p: Property): Property
  {
    Property(p.name, Cut(p.value))
  }

  function CutRecord(r: Record): Record
  {
    r.(properties := CutEntries(r.properties))
  }

  function CutPropertyRead(r: Result<Read<Property>>): Result<Read<Property>>
  {
    if r.Ok? then Ok(Read(CutProperty(r.value.value), r.value.at)) else r
  }

  function CutPropertyReads(r: Result<Read<seq<Property>>>): Result<Read<seq<Property>>>
  {
    if r.Ok? then Ok(Read(CutEntries(r.value.value), r.value.at)) else r
  }

  function CutRecordRead(r: Result<Read<Record>>): Result<Read<Record>>
  {
    if r.Ok? then Ok(Read(CutRecord(r.value.value), r.value.at)) else r
  }

  function CutRecordReads(r: Result<Read<seq<Record>>>): Result<Read<seq<Record>>>
  {
    if r.Ok? then Ok(Read(CutRecords(r.value.value), r.value.at)) else r
  }

  function CutResourceRead(r: Result<Read<Resource>>): Result<Read<Resource>>
  {
    if r.Ok? then Ok(Read(CutResource(r.value.value), r.value.at)) else r
  }

  lemma PropertyAgrees(env: Env, f: Cursor, m: Cursor)
    requires Below(env, m, f)
    ensures Agrees(env, CutPropertyRead(ReadProperty(env, f)), ReadProperty(env, m))
  {
    hide Name, ReadValue, Cut;
    NameAgrees(env, f, m);
    var (a, b) := (Name(env, f), Name(env, m));
    if a.Ok? && b.Ok? { ValueAgrees(env, a.value.at, b.value.at, 1); }
  }

  lemma {:induction false} PropertiesAgree(env: Env, f: Cursor, m: Cursor, count: nat)
    requires Below(env, m, f)
    ensures Agrees(env, CutPropertyReads(ReadProperties(env, f, count)), ReadProperties(env, m, count))
    decreases count
  {
    hide ReadProperty, CutEntries, CutProperty;
    CutNoEntries();
    if count > 0 {
      PropertyAgrees(env, f, m);
      var (a, b) := (ReadProperty(env, f), ReadProperty(env, m));
      if a.Ok? && b.Ok? {
        PropertiesAgree(env, a.value.at, b.value.at, count - 1);
        var r := ReadProperties(env, a.value.at, count - 1);
        if r.Ok? { CutEntryMore(a.value.value, r.value.value); }
      }
    }
  }

  lemma CutNoEntries()
    ensures CutEntries([]) == [] && CutRecords([]) == []
  {
  }

  lemma CutEntryMore(p: Property, rest: seq<Property>)
    ensures CutEntries([p] + rest) == [CutProperty(p)] + CutEntries(rest)
  {
    assert ([p] + rest)[1..] == rest;
  }

  lemma CutRecordMore(r: Record, rest: seq<Record>)
    ensures CutRecords([r] + rest) == [CutRecord(r)] + CutRecords(rest)
  {
    assert ([r] + rest)[1..] == rest;
  }

  lemma RecordAgrees(env: Env, f: Cursor, m: Cursor, row: Internal)
    requires Below(env, m, f)
    ensures Agrees(env, CutRecordRead(ReadRecord(env, f, row)), ReadRecord(env, m, row))
  {
    hide Seek, Charge, RecordBody;
    MovesAgree(env, f, m, row.offset);
    var (a, b) := (Seek(env, f, row.offset), Seek(env, m, row.offset));
    if a.Ok? && b.Ok? {
      MovesAgree(env, a.value, b.value, |row.path| + 1);
      var (d, e) := (Charge(env, a.value, |row.path| + 1), Charge(env, b.value, |row.path| + 1));
      if d.Ok? && e.Ok? { RecordBodyAgrees(env, d.value, e.value, row.path); }
    }
  }

  lemma RecordBodyAgrees(env: Env, f: Cursor, m: Cursor, path: seq<byte>)
    requires Below(env, m, f)
    ensures Agrees(env, CutRecordRead(RecordBody(env, f, path)), RecordBody(env, m, path))
  {
    hide UnicodeString, Count, Preflight, Charge, ReadProperties, CutEntries;
    UnicodeAgrees(env, f, m);
    var (a, b) := (UnicodeString(env, f), UnicodeString(env, m));
    if a.Ok? && b.Ok? {
      CountAgrees(env, a.value.at, b.value.at, 8);
      var (d, e) := (Count(env, a.value.at, 8), Count(env, b.value.at, 8));
      if d.Ok? && e.Ok? {
        var n := d.value.value;
        NodesAgree(env, d.value.at, e.value.at, n, 1);
        var (g, h) := (Preflight(env, d.value.at, n, 1), Preflight(env, e.value.at, n, 1));
        if g.Ok? && h.Ok? {
          MovesAgree(env, g.value, h.value, n * env.sizes.property);
          var (x, y) := (Charge(env, g.value, n * env.sizes.property), Charge(env, h.value, n * env.sizes.property));
          if x.Ok? && y.Ok? { PropertiesAgree(env, x.value, y.value, n); }
        }
      }
    }
  }

  lemma {:induction false} RecordsAgree(env: Env, f: Cursor, m: Cursor, rows: seq<Internal>)
    requires Below(env, m, f)
    ensures Agrees(env, CutRecordReads(ReadRecords(env, f, rows)), ReadRecords(env, m, rows))
    decreases |rows|
  {
    hide ReadRecord, CutRecords, CutRecord;
    CutNoEntries();
    if rows != [] {
      RecordAgrees(env, f, m, rows[0]);
      var (a, b) := (ReadRecord(env, f, rows[0]), ReadRecord(env, m, rows[0]));
      if a.Ok? && b.Ok? {
        RecordsAgree(env, a.value.at, b.value.at, rows[1..]);
        var r := ReadRecords(env, a.value.at, rows[1..]);
        if r.Ok? { CutRecordMore(a.value.value, r.value.value); }
      }
    }
  }

  lemma AllRecordsAgree(env: Env, f: Cursor, m: Cursor)
    requires Below(env, m, f)
    ensures Agrees(env, CutRecordReads(AllRecords(env, f)), AllRecords(env, m))
  {
    hide LegacyIds, Charge, ReadRecords, CutRecords;
    var rows := if env.internals == [] then 0 else |env.internals| - 1;
    MovesAgree(env, f, m, rows * env.sizes.id);
    var (a, b) := (KnownIds(env, f), KnownIds(env, m));
    if a.Ok? && b.Ok? {
      var known := a.value.value;
      MovesAgree(known, a.value.at, b.value.at, |env.internals| * env.sizes.record);
      var (d, e) := (Charge(known, a.value.at, |env.internals| * env.sizes.record),
                     Charge(known, b.value.at, |env.internals| * env.sizes.record));
      if d.Ok? && e.Ok? { RecordsAgree(known, d.value, e.value, env.internals); }
    }
  }

  lemma ParsesAgree(data: seq<byte>, hasMagic: bool, limits: Limits, sizes: Sizes)
    ensures Agrees(Fresh(data, limits, sizes), CutResourceRead(ParseTo(data, hasMagic, limits, sizes, false)),
                   ParseTo(data, hasMagic, limits, sizes, true))
  {
    hide ReadHeader, ReadTables, AllRecords, CutRecords;
    var (f, m) := (Start(false), Start(true));
    var env := Fresh(data, limits, sizes);
    HeaderAgrees(env, f, m, hasMagic);
    var (a, b) := (ReadHeader(env, f, hasMagic), ReadHeader(env, m, hasMagic));
    if a.Ok? && b.Ok? {
      HeaderKeepsLimits(env, f, hasMagic);
      TablesAgree(a.value.value.env, a.value.at, b.value.at);
      var (d, e) := (ReadTables(a.value.value.env, a.value.at), ReadTables(a.value.value.env, b.value.at));
      if d.Ok? && e.Ok? {
        TablesKeepLimits(a.value.value.env, a.value.at);
        AllRecordsAgree(d.value.value, d.value.at, e.value.at);
      }
    }
  }

  /** The longest prefix among all payloads that an accepted full parse passes, represented in the tree or not. */
  function Widest(data: seq<byte>, hasMagic: bool, limits: Limits, sizes: Sizes): (n: nat)
    requires Parse(data, hasMagic, limits, sizes, false).Ok?
  {
    ParseTo(data, hasMagic, limits, sizes, false).value.at.widest
  }

  /**
   The two parses are one parse. Where the full one succeeds, the metadata one gives its tree cut exactly
   when the widest prefix is within the string bound, and otherwise refuses to fetch that prefix. Where the
   metadata one succeeds, the full one can fail only on the allocation budget.
   */
  lemma MetadataIsFullParse(data: seq<byte>, hasMagic: bool, limits: Limits, sizes: Sizes)
    ensures var full := Parse(data, hasMagic, limits, sizes, false);
            var meta := Parse(data, hasMagic, limits, sizes, true);
            && (full.Ok? ==> Widest(data, hasMagic, limits, sizes) <= KEPT
                             && meta == if Widest(data, hasMagic, limits, sizes) <= limits.text
                                        then Ok(CutResource(full.value)) else Err(FetchTooLong))
            && (meta.Ok? ==> full == Err(OverBudget) || (full.Ok? && meta.value == CutResource(full.value)))
  {
    hide ParseTo, CutRecords;
    ParsesAgree(data, hasMagic, limits, sizes);
    WidestIsShort(data, hasMagic, limits, sizes);
  }

  lemma WidestIsShort(data: seq<byte>, hasMagic: bool, limits: Limits, sizes: Sizes)
    ensures var r := ParseTo(data, hasMagic, limits, sizes, false); r.Ok? ==> r.value.at.widest <= KEPT
  {
    hide ReadHeader, ReadTables, AllRecords;
  }

  lemma HeaderKeepsLimits(env: Env, c: Cursor, hasMagic: bool)
    ensures var r := ReadHeader(env, c, hasMagic); r.Ok? ==> r.value.value.env.limits == env.limits && r.value.value.env.data == env.data
  {
    hide Word, Words, UnicodeString;
  }

  lemma TablesKeepLimits(env: Env, c: Cursor)
    ensures var r := ReadTables(env, c); r.Ok? ==> r.value.value.limits == env.limits && r.value.value.data == env.data
  {
    hide StringTable, ExternalTable, InternalTable;
  }
}
