/** The binary resource parser: a cursor and three counters that every decoder moves. */
module BinaryResourceReader {
  import opened Bytes
  import Utf8
  import opened BinaryResource

  /** A method's result and the cursor it leaves are what the specification reads. */
  predicate Follows<T(==)>(spec: Result<Read<T>>, r: Result<T>, at: Cursor)
  {
    match spec
    case Ok(x) => r == Ok(x.value) && at == x.at
    case Err(why) => r == Err(why)
  }

  predicate FollowsTo(spec: Result<Cursor>, r: Result<()>, at: Cursor)
  {
    match spec
    case Ok(c) => r.Ok? && at == c
    case Err(why) => r == Err(why)
  }

  /** Elements read before the ones a list still reads. */
  function Prepend<T>(done: seq<T>, rest: Result<Read<seq<T>>>): Result<Read<seq<T>>>
  {
    if rest.Ok? then Ok(Read(done + rest.value.value, rest.value.at)) else rest
  }

  lemma PrependStep<T>(done: seq<T>, v: T, rest: Result<Read<seq<T>>>)
    ensures Prepend(done, Prepend([v], rest)) == Prepend(done + [v], rest)
  {
    if rest.Ok? { assert done + ([v] + rest.value.value) == done + [v] + rest.value.value; }
  }

  lemma PrependNothing<T>(rest: Result<Read<seq<T>>>)
    ensures Prepend([], rest) == rest
  {
    if rest.Ok? { assert [] + rest.value.value == rest.value.value; }
  }

  method HasDuplicate(entries: seq<Property>) returns (found: bool)
    ensures found <==> !Distinct(entries)
  {
    var seen, n := {}, 0;
    while n < |entries|
      invariant n <= |entries| && Distinct(entries[..n]) && seen == set i | 0 <= i < n :: entries[i].name
    {
      if entries[n].name in seen {
        var i :| 0 <= i < n && entries[i].name == entries[n].name;
        return true;
      }
      seen := seen + {entries[n].name};
      n := n + 1;
    }
    assert entries[..n] == entries;
    return false;
  }

  lemma {:induction false} MagnitudeStops(digits: seq<byte>, n: nat, bound: nat)
    requires n <= |digits| && Magnitude(digits[..n], bound).None?
    ensures Magnitude(digits, bound).None?
    decreases |digits| - n
  {
    if n < |digits| {
      assert digits[..n + 1][..n] == digits[..n];
      MagnitudeStops(digits, n + 1, bound);
    } else {
      assert digits[..n] == digits;
    }
  }

  /** Reads digits one by one and stops at the first that passes the bound. */
  method ReadMagnitude(digits: seq<byte>, bound: nat) returns (r: Option<nat>)
    ensures r == Magnitude(digits, bound)
  {
    var magnitude: nat, n := 0, 0;
    while n < |digits|
      invariant n <= |digits| && Magnitude(digits[..n], bound) == Some(magnitude)
    {
      var digit := digits[n];
      assert digits[..n + 1][..n] == digits[..n];
      if digit < 0x30 || digit > 0x39 || magnitude * 10 + (digit - 0x30) as nat > bound {
        MagnitudeStops(digits, n + 1, bound);
        return None;
      }
      magnitude := magnitude * 10 + (digit - 0x30) as nat;
      n := n + 1;
    }
    assert digits[..n] == digits;
    return Some(magnitude);
  }

  lemma {:induction false} LegacyIdsStop(internals: seq<Internal>, n: nat, m: nat)
    requires n <= m <= |internals| && LegacyIds(internals, n) == Err(Malformed)
    ensures LegacyIds(internals, m) == Err(Malformed)
    decreases m
  {
    if n < m { LegacyIdsStop(internals, n, m - 1); }
  }

  /** Indexes the subresource rows by the id their path names. */
  method IndexIds(internals: seq<Internal>, rows: nat) returns (r: Result<map<nat, nat>>)
    requires rows <= |internals|
    ensures r == LegacyIds(internals, rows)
  {
    hide Magnitude;
    var ids: map<nat, nat>, n := map[], 0;
    while n < rows
      invariant n <= rows && LegacyIds(internals, n) == Ok(ids)
    {
      var path := internals[n].path;
      n := n + 1;
      if LOCAL <= path {
        var suffix := path[8..];
        var negative := suffix != [] && suffix[0] == 0x2D;
        var digits := if negative then suffix[1..] else suffix;
        var magnitude: Option<nat> := None;
        if digits != [] {
          magnitude := ReadMagnitude(digits, if negative then 0x8000_0000 else 0xFFFF_FFFF);
        }
        if magnitude.None? {
          LegacyIdsStop(internals, n, rows);
          return Err(Malformed);
        }
        var id := if negative && magnitude.value > 0 then SPAN32 - magnitude.value else magnitude.value;
        assert LocalId(path) == Some(id);
        if id in ids {
          LegacyIdsStop(internals, n, rows);
          return Err(Malformed);
        }
        ids := ids[id := n - 1];
      }
    }
    return Ok(ids);
  }

  class Parser {
    const metadata: bool
    var env: Env
    var position: nat
    var allocation: nat
    var nodes: nat
    ghost var widest: nat

    constructor (bytes: seq<byte>, limits: Limits, sizes: Sizes, metadataOnly: bool)
      ensures Ready() && env == Fresh(bytes, limits, sizes) && Here() == Start(metadataOnly)
    {
      metadata := metadataOnly;
      env := Fresh(bytes, limits, sizes);
      position, allocation, nodes, widest := 0, 0, 0, 0;
    }

    ghost function Here(): Cursor
      reads this`position, this`allocation, this`nodes, this`widest
    {
      Cursor(metadata, position, allocation, nodes, widest)
    }

    /** The position is inside the input and neither budget is passed. */
    ghost predicate Ready()
      reads this`env, this`position, this`allocation, this`nodes, this`widest
    {
      Fits(env, Here())
    }

    // ---- the cursor

    method Need(count: nat) returns (r: Result<()>)
      requires Ready()
      ensures FollowsTo(Require(env, Here(), count), r, Here())
    {
      if count > |env.data| - position { return Err(Malformed); }
      return Ok(());
    }

    method Pass(count: nat) returns (r: Result<()>)
      requires Ready()
      modifies this`position
      ensures FollowsTo(Skip(env, old(Here()), count), r, Here()) && Ready()
    {
      var ok :- Need(count);
      position := position + count;
      return Ok(());
    }

    method Pad(length: nat) returns (r: Result<()>)
      requires Ready()
      modifies this`position
      ensures FollowsTo(Align4(env, old(Here()), length), r, Here()) && Ready()
    {
      r := Pass((4 - length % 4) % 4);
    }

    method Fetch(count: nat) returns (r: Result<seq<byte>>)
      requires Ready()
      modifies this`position
      ensures Follows(Take(env, old(Here()), count), r, Here()) && Ready()
    {
      var ok :- Need(count);
      if metadata && count > env.limits.text { return Err(FetchTooLong); }
      r := Ok(env.data[position..position + count]);
      position := position + count;
    }

    method Pay(amount: nat) returns (r: Result<()>)
      requires Ready()
      modifies this`allocation
      ensures FollowsTo(Charge(env, old(Here()), amount), r, Here()) && Ready()
    {
      if amount > env.limits.allocation - allocation { return Err(OverBudget); }
      allocation := allocation + amount;
      return Ok(());
    }

    method Enter() returns (r: Result<()>)
      requires Ready()
      modifies this`nodes
      ensures FollowsTo(EnterNode(env, old(Here())), r, Here()) && Ready()
    {
      if nodes >= env.limits.nodes { return Err(Malformed); }
      nodes := nodes + 1;
      return Ok(());
    }

    method CheckChildren(count: nat, depth: nat) returns (r: Result<()>)
      requires Ready()
      ensures FollowsTo(Preflight(env, Here(), count, depth), r, Here())
    {
      if count == 0 { return Ok(()); }
      if depth > env.limits.depth { return Err(Malformed); }
      if count > env.limits.nodes - nodes { return Err(Malformed); }
      return Ok(());
    }

    // ---- numbers and strings

    method ReadWord(width: nat) returns (r: Result<nat>)
      requires Ready()
      modifies this`position
      ensures Follows(Word(env, old(Here()), width), r, Here()) && Ready()
    {
      hide Number;
      var ok :- Need(width);
      r := Ok(Number(env.data[position..position + width], env.bigEndian));
      position := position + width;
    }

    method ReadWords(width: nat, count: nat) returns (r: Result<seq<nat>>)
      requires Ready()
      modifies this`position
      ensures Follows(Words(env, old(Here()), width, count), r, Here()) && Ready()
    {
      hide Word;
      var words: seq<nat>, n := [], 0;
      ghost var spec := Words(env, Here(), width, count);
      PrependNothing(spec);
      while n < count
        invariant n <= count && Ready() && spec == Prepend(words, Words(env, Here(), width, count - n))
      {
        ghost var c := Here();
        var word :- ReadWord(width);
        PrependStep(words, word, Words(env, Here(), width, count - n - 1));
        words := words + [word];
        n := n + 1;
      }
      assert words + [] == words;
      return Ok(words);
    }

    method ReadCount(minimum: nat) returns (r: Result<nat>)
      requires Ready()
      modifies this`position
      ensures Follows(Count(env, old(Here()), minimum), r, Here()) && Ready()
    {
      hide Word;
      var count :- ReadWord(4);
      var ok :- Need(count * minimum);
      return Ok(count);
    }

    method ReadSharedCount(minimum: nat) returns (r: Result<nat>)
      requires Ready()
      modifies this`position
      ensures Follows(SharedCount(env, old(Here()), minimum), r, Here()) && Ready()
    {
      hide Word;
      var count :- ReadWord(4);
      count := count % 0x8000_0000;
      var ok :- Need(count * minimum);
      return Ok(count);
    }

    method ReadStringBody(length: nat) returns (r: Result<seq<byte>>)
      requires Ready()
      modifies this`position, this`allocation
      ensures Follows(StringBody(env, old(Here()), length), r, Here()) && Ready()
    {
      hide Utf8.WellFormed;
      if length == 0 { return Ok([]); }
      if length > env.limits.text { return Err(Malformed); }
      var span :- Fetch(length);
      var paid :- Pay(length);
      if span[length - 1] != 0 { return Err(Malformed); }
      var content := span[..length - 1];
      var wellFormed := Utf8.Validate(content);
      Utf8.WellFormedIff(content);
      if !wellFormed || 0 in content { return Err(Malformed); }
      return Ok(content);
    }

    method ReadUnicodeString() returns (r: Result<seq<byte>>)
      requires Ready()
      modifies this`position, this`allocation
      ensures Follows(UnicodeString(env, old(Here())), r, Here()) && Ready()
    {
      hide Word, StringBody;
      var length :- ReadWord(4);
      r := ReadStringBody(length);
    }

    method ReadName() returns (r: Result<seq<byte>>)
      requires Ready()
      modifies this`position, this`allocation
      ensures Follows(Name(env, old(Here())), r, Here()) && Ready()
    {
      hide Word, StringBody;
      var field :- ReadWord(4);
      if !env.v2 && field >= 0x8000_0000 {
        r := ReadStringBody(field - 0x8000_0000);
        return;
      }
      if field >= |env.strings| { return Err(Malformed); }
      var paid :- Pay(|env.strings[field]| + 1);
      return Ok(env.strings[field]);
    }

    method PassNames(count: nat) returns (r: Result<()>)
      requires Ready()
      modifies this`position, this`allocation
      ensures FollowsTo(SkipNames(env, old(Here()), count), r, Here()) && Ready()
    {
      hide Name;
      var n := 0;
      while n < count
        invariant n <= count && Ready() && SkipNames(env, old(Here()), count) == SkipNames(env, Here(), count - n)
      {
        var name :- ReadName();
        n := n + 1;
      }
      return Ok(());
    }

    // ---- values without children

    /** A counted payload; metadata mode fetches its first bytes and skips the others. */
    method ReadPayload() returns (r: Result<Blob>)
      requires Ready()
      modifies this`position, this`allocation, this`widest
      ensures Follows(Payload(env, old(Here())), r, Here()) && Ready()
    {
      hide Count, Body;
      var count :- ReadCount(1);
      r := ReadContent(count);
    }

    method ReadContent(count: nat) returns (r: Result<Blob>)
      requires Ready()
      modifies this`position, this`allocation, this`widest
      ensures Follows(Body(env, old(Here()), count), r, Here()) && Ready()
    {
      hide Skip, Align4, Charge;
      var copied := if metadata then Min(KEPT, count) else count;
      var paid :- Pay(copied);
      var offset := position;
      var span :- Fetch(copied);
      var skipped :- Pass(count - copied);
      var padded :- Pad(count);
      widest := Max(widest, Prefix(count));
      return Ok(Blob(span, offset, count));
    }

    method ReadImage() returns (r: Result<Value>)
      requires Ready()
      modifies this`position, this`allocation, this`widest
      ensures Follows(DecodeImage(env, old(Here())), r, Here()) && Ready()
    {
      hide Word, Words, Payload;
      var encoding :- ReadWord(4);
      if encoding == 0 { return Ok(Nil); }
      var details := [0, 0, 0, 0];
      if encoding == 1 {
        WordsCount(env, Here(), 4, 4);
        details :- ReadWords(4, 4);
        if !env.modern && !env.v2 && details[3] / 0x100_0000 != 0 { return Err(Malformed); }
      }
      var blob :- ReadPayload();
      return Ok(Image(encoding, details[0], details[1], details[2], details[3], blob));
    }

    method ReadObject() returns (r: Result<Value>)
      requires Ready()
      modifies this`position, this`allocation
      ensures Follows(DecodeObject(env, old(Here())), r, Here()) && Ready()
    {
      hide Word, UnicodeString;
      var form :- ReadWord(4);
      if form == 0 { return Ok(Object(EmptyReference)); }
      if form == 2 {
        var id: nat :- ReadWord(4);
        if LegacyIdMode(env) {
          if id !in env.ids { return Err(Malformed); }
          return Ok(Object(LegacyReference(env.ids[id], id)));
        }
        if id >= |env.internals| { return Err(Malformed); }
        return Ok(Object(InternalReference(id)));
      }
      if form == 1 {
        var kind :- ReadUnicodeString();
        var path :- ReadUnicodeString();
        return Ok(Object(InlineReference(kind, path)));
      }
      if form == 3 {
        var index :- ReadWord(4);
        if index >= |env.externals| { return Err(Malformed); }
        return Ok(Object(ExternalReference(index)));
      }
      return Err(Malformed);
    }

    method ReadNodePath() returns (r: Result<Value>)
      requires Ready()
      modifies this`position, this`allocation
      ensures Follows(DecodeNodePath(env, old(Here())), r, Here()) && Ready()
    {
      hide Word, SkipNames;
      var names :- ReadWord(2);
      var field :- ReadWord(2);
      var subnames := field % 0x8000;
      if env.version < 3 { subnames := subnames + 1; }
      var first :- PassNames(names);
      var second :- PassNames(subnames);
      return Ok(Unsupported);
    }

    method ReadNumbers(width: nat, isReal: bool) returns (r: Result<Value>)
      requires Ready()
      modifies this`position, this`allocation
      ensures Follows(DecodeNumbers(env, old(Here()), width, isReal), r, Here()) && Ready()
    {
      hide Count, Words, Charge, SignedAll;
      var count :- ReadCount(width);
      var paid :- Pay(count * 8);
      var words :- ReadWords(width, count);
      return Ok(if isReal then Reals(words, width) else Integers(SignedAll(words, width)));
    }

    method ReadScalar(width: nat, isReal: bool) returns (r: Result<Value>)
      requires Ready()
      modifies this`position
      ensures Follows(DecodeScalar(env, old(Here()), width, isReal), r, Here()) && Ready()
    {
      hide Word, Signed;
      var word :- ReadWord(width);
      return Ok(if isReal then Real(word, width) else Integer(Signed(word, width)));
    }

    method PassCounted(element: nat) returns (r: Result<Value>)
      requires Ready()
      modifies this`position
      ensures Follows(DecodeCounted(env, old(Here()), element), r, Here()) && Ready()
    {
      hide Count, Skip;
      var count :- ReadCount(element);
      var passed :- Pass(element * count);
      return Ok(Unsupported);
    }

    method PassFixed(length: nat) returns (r: Result<Value>)
      requires Ready()
      modifies this`position
      ensures Skip(env, old(Here()), length).Ok? ==> r == Ok(Unsupported) && Ok(Here()) == Skip(env, old(Here()), length)
      ensures Skip(env, old(Here()), length).Err? ==> r == Err(Skip(env, old(Here()), length).why)
      ensures Ready()
    {
      hide Skip;
      var passed :- Pass(length);
      return Ok(Unsupported);
    }

    method ReadText() returns (r: Result<Value>)
      requires Ready()
      modifies this`position, this`allocation
      ensures Follows(DecodeText(env, old(Here())), r, Here()) && Ready()
    {
      hide UnicodeString;
      var text :- ReadUnicodeString();
      return Ok(Text(text));
    }

    method ReadBoolean() returns (r: Result<Value>)
      requires Ready()
      modifies this`position
      ensures Follows(DecodeLeaf(env, old(Here()), BooleanTag), r, Here()) && Ready()
    {
      hide Word;
      var word :- ReadWord(4);
      return Ok(Boolean(word != 0));
    }

    method ReadRaw() returns (r: Result<Value>)
      requires Ready()
      modifies this`position, this`allocation, this`widest
      ensures Follows(DecodeRaw(env, old(Here())), r, Here()) && Ready()
    {
      hide Payload;
      var blob :- ReadPayload();
      return Ok(Raw(blob));
    }

    method PassString() returns (r: Result<Value>)
      requires Ready()
      modifies this`position, this`allocation
      ensures Follows(DecodeLeaf(env, old(Here()), StringNameTag), r, Here()) && Ready()
    {
      hide UnicodeString;
      var text :- ReadUnicodeString();
      return Ok(Unsupported);
    }

    method ReadLeaf(tag: Decoder) returns (r: Result<Value>)
      requires Ready() && !tag.ItemsTag? && !tag.DictionaryTag? && !tag.StringsTag?
      modifies this`position, this`allocation, this`widest
      ensures Follows(DecodeLeaf(env, old(Here()), tag), r, Here()) && Ready()
    {
      hide Word, UnicodeString, DecodeText, DecodeRaw, DecodeScalar, DecodeNumbers, DecodeObject, DecodeImage,
        DecodeNodePath, DecodeCounted, Skip;
      match tag
      case NilTag => r := Ok(Nil);
      case BooleanTag => r := ReadBoolean();
      case IntegerTag(width) => r := ReadScalar(width, false);
      case RealTag => r := ReadScalar(RealWidth(env), true);
      case DoubleTag => r := ReadScalar(8, true);
      case TextTag => r := ReadText();
      case RawTag => r := ReadRaw();
      case IntegersTag(width) => r := ReadNumbers(width, false);
      case RealsTag(width) => r := ReadNumbers(width, true);
      case ObjectTag => r := ReadObject();
      case ImageTag => r := ReadImage();
      case NodePathTag => r := ReadNodePath();
      case StringNameTag => r := PassString();
      case InputEventTag => r := Ok(Unsupported);
      case FixedTag(isReal, components) => r := PassFixed(ElementWidth(env, isReal) * components);
      case CountedTag(isReal, components) => r := PassCounted(ElementWidth(env, isReal) * components);
    }

    // ---- values with children

    method ReadStrings(depth: nat) returns (r: Result<Value>)
      requires Ready()
      modifies this`position, this`allocation, this`nodes
      ensures Follows(DecodeStrings(env, old(Here()), depth), r, Here()) && Ready()
    {
      hide Count, Preflight, Charge, TextNodes;
      var count :- ReadCount(4);
      var fits :- CheckChildren(count, depth + 1);
      var paid :- Pay(count * env.sizes.value);
      var items :- ReadTextNodes(count);
      return Ok(Items(items));
    }

    method ReadTextNodes(count: nat) returns (r: Result<seq<Value>>)
      requires Ready()
      modifies this`position, this`allocation, this`nodes
      ensures Follows(TextNodes(env, old(Here()), count), r, Here()) && Ready()
    {
      hide TextNode;
      var items: seq<Value>, n := [], 0;
      ghost var spec := TextNodes(env, Here(), count);
      PrependNothing(spec);
      while n < count
        invariant n <= count && Ready() && spec == Prepend(items, TextNodes(env, Here(), count - n))
      {
        var item :- ReadTextNode();
        PrependStep(items, item, TextNodes(env, Here(), count - n - 1));
        items := items + [item];
        n := n + 1;
      }
      assert items + [] == items;
      return Ok(items);
    }

    method ReadTextNode() returns (r: Result<Value>)
      requires Ready()
      modifies this`position, this`allocation, this`nodes
      ensures Follows(TextNode(env, old(Here())), r, Here()) && Ready()
    {
      hide EnterNode, DecodeText;
      var entered :- Enter();
      r := ReadText();
    }

    method ReadAny(depth: nat) returns (r: Result<Value>)
      requires Ready()
      modifies this`position, this`allocation, this`nodes, this`widest
      ensures Follows(ReadValue(env, old(Here()), depth), r, Here()) && Ready()
      decreases Levels(env, depth), 1, 0
    {
      hide EnterNode, Word, FindTag, Decode;
      if depth > env.limits.depth { return Err(Malformed); }
      var entered :- Enter();
      var raw :- ReadWord(4);
      var tag := FindTag(env, raw);
      if tag.None? { return Err(Malformed); }
      r := ReadTagged(depth, tag.value);
    }

    method ReadTagged(depth: nat, tag: Decoder) returns (r: Result<Value>)
      requires Ready() && depth <= env.limits.depth
      modifies this`position, this`allocation, this`nodes, this`widest
      ensures Follows(Decode(env, old(Here()), depth, tag), r, Here()) && Ready()
      decreases Levels(env, depth), 0, 1
    {
      hide DecodeItems, DecodeDictionary, DecodeStrings, DecodeLeaf;
      if tag.ItemsTag? {
        r := ReadItems(depth);
      } else if tag.DictionaryTag? {
        r := ReadDictionary(depth);
      } else if tag.StringsTag? {
        r := ReadStrings(depth);
      } else {
        r := ReadLeaf(tag);
      }
    }

    method ReadItems(depth: nat) returns (r: Result<Value>)
      requires Ready() && depth <= env.limits.depth
      modifies this`position, this`allocation, this`nodes, this`widest
      ensures Follows(DecodeItems(env, old(Here()), depth), r, Here()) && Ready()
      decreases Levels(env, depth), 0, 0
    {
      hide SharedCount, Preflight, Charge, Values;
      var count :- ReadSharedCount(4);
      var fits :- CheckChildren(count, depth + 1);
      var paid :- Pay(count * env.sizes.value);
      var items: seq<Value>, n := [], 0;
      ghost var spec := Values(env, Here(), depth + 1, count);
      PrependNothing(spec);
      while n < count
        invariant n <= count && Ready() && spec == Prepend(items, Values(env, Here(), depth + 1, count - n))
      {
        ghost var c := Here();
        ValuesStep(env, c, depth + 1, count - n);
        var item :- ReadAny(depth + 1);
        PrependStep(items, item, Values(env, Here(), depth + 1, count - n - 1));
        items := items + [item];
        n := n + 1;
      }
      ValuesStep(env, Here(), depth + 1, 0);
      assert items + [] == items;
      return Ok(Items(items));
    }

    method ReadPairs(depth: nat, count: nat) returns (r: Result<(bool, seq<Property>)>, ghost pairs: seq<Pair>)
      requires Ready()
      modifies this`position, this`allocation, this`nodes, this`widest
      ensures Ready() && var spec := Pairs(env, old(Here()), depth, count);
              match spec
              case Err(why) => r == Err(why)
              case Ok(x) =>
                && r.Ok? && pairs == x.value && Here() == x.at && r.value.0 == TextKeys(pairs)
                && (TextKeys(pairs) ==> r.value.1 == Named(pairs))
      decreases Levels(env, depth), 2, count
    {
      hide ReadValue, Pairs, Levels;
      var textKeys, entries: seq<Property>, n := true, [], 0;
      pairs := [];
      ghost var spec := Pairs(env, Here(), depth, count);
      PrependNothing(spec);
      while n < count
        invariant n <= count && Ready() && spec == Prepend(pairs, Pairs(env, Here(), depth, count - n))
        invariant textKeys == TextKeys(pairs) && (textKeys ==> entries == Named(pairs))
      {
        PairsStep(env, Here(), depth, count - n);
        var key := ReadAny(depth);
        if key.Err? { r := Err(key.why); return; }
        var entry := ReadAny(depth);
        if entry.Err? { r := Err(entry.why); return; }
        PrependStep(pairs, Pair(key.value, entry.value), Pairs(env, Here(), depth, count - n - 1));
        MorePairs(pairs, Pair(key.value, entry.value));
        if !textKeys || !key.value.Text? {
          textKeys := false;
        } else {
          entries := entries + [Property(key.value.text, entry.value)];
        }
        pairs := pairs + [Pair(key.value, entry.value)];
        n := n + 1;
      }
      PairsStep(env, Here(), depth, 0);
      assert pairs + [] == pairs;
      r := Ok((textKeys, entries));
    }

    method ReadDictionary(depth: nat) returns (r: Result<Value>)
      requires Ready() && depth <= env.limits.depth
      modifies this`position, this`allocation, this`nodes, this`widest
      ensures Follows(DecodeDictionary(env, old(Here()), depth), r, Here()) && Ready()
      decreases Levels(env, depth), 0, 0
    {
      hide SharedCount, Preflight, Charge, Pairs, TextKeys, Named;
      var count :- ReadSharedCount(8);
      var fits :- CheckChildren(count * 2, depth + 1);
      var paid :- Pay(count * env.sizes.property);
      var both :- Pay(count * env.sizes.value);
      PairsCount(env, Here(), depth + 1, count);
      var read, pairs := ReadPairs(depth + 1, count);
      if read.Err? { return Err(read.why); }
      if !read.value.0 { return Ok(Unsupported); }
      var indexed :- Pay(count * env.sizes.index);
      var duplicate := HasDuplicate(read.value.1);
      if duplicate { return Err(Malformed); }
      return Ok(Dictionary(read.value.1));
    }

    // ---- the header

    method ReadMagic(hasMagic: bool) returns (r: Result<()>)
      requires Ready() && position == 0
      modifies this`position
      ensures FollowsTo(Magic(env, old(Here()), hasMagic), r, Here()) && Ready()
    {
      if !hasMagic { return Ok(()); }
      var ok :- Need(4);
      if env.data[..4] != RSRC { return Err(Malformed); }
      r := Pass(4);
    }

    method ReadModernHeader() returns (r: Result<()>)
      requires Ready()
      modifies this`env, this`position, this`allocation
      ensures Ready()
      ensures match ModernHeader(old(env), old(Here()))
              case Ok(x) => r.Ok? && env == x.value && Here() == x.at
              case Err(why) => r == Err(why)
    {
      hide Word, Words, UnicodeString;
      var flags :- ReadWord(4);
      var uid :- ReadWord(8);
      if flags / 8 % 2 == 1 {
        var script :- ReadUnicodeString();
      }
      var reserved :- ReadWords(4, 11);
      env := env.(realIsDouble := flags / 4 % 2 == 1, uids := flags / 2 % 2 == 1, namedIds := flags % 2 == 1);
      return Ok(());
    }

    method ReadHeaderTail(words: seq<nat>) returns (r: Result<Header>)
      requires Ready() && |words| == 4
      modifies this`env, this`position, this`allocation
      ensures Ready()
      ensures match HeaderTail(old(env), old(Here()), words)
              case Ok(x) => r == Ok(x.value.header) && env == x.value.env && Here() == x.at
              case Err(why) => r == Err(why)
    {
      hide Word, Words, UnicodeString, ModernHeader;
      var kind :- ReadUnicodeString();
      var imported :- ReadWord(8);
      if imported > |env.data| { return Err(Malformed); }
      if env.modern {
        var tail :- ReadModernHeader();
      } else {
        var reserved :- ReadWords(4, 14);
      }
      return Ok(Header(words[1], words[2], words[3], kind));
    }

    method ReadHead(hasMagic: bool) returns (r: Result<Header>)
      requires Ready() && position == 0
      modifies this`env, this`position, this`allocation
      ensures Ready()
      ensures match ReadHeader(old(env), old(Here()), hasMagic)
              case Ok(x) => r == Ok(x.value.header) && env == x.value.env && Here() == x.at
              case Err(why) => r == Err(why)
    {
      hide Magic, Word, Words, HeaderTail, Versioned;
      var start :- ReadMagic(hasMagic);
      var order :- ReadWord(4);
      env := env.(bigEndian := order != 0);
      WordsCount(env, Here(), 4, 4);
      var words :- ReadWords(4, 4);
      var known :- Settle(words);
      r := ReadHeaderTail(words);
    }

    /** Keeps the engine and version, when they are known. */
    method Settle(words: seq<nat>) returns (r: Result<()>)
      requires Ready() && |words| == 4
      modifies this`env
      ensures Ready()
      ensures match Versioned(old(env), words)
              case Ok(x) => r.Ok? && env == x
              case Err(why) => r == Err(why)
    {
      var major, version := words[1], words[3];
      if major != 2 && major != 3 && major != 4 { return Err(Malformed); }
      if version > MaxVersion(major) { return Err(Malformed); }
      env := env.(modern := major == 4, v2 := major == 2, version := version, realIsDouble := words[0] != 0);
      return Ok(());
    }

    // ---- the tables

    method ReadChargedCount(minimum: nat, each: nat) returns (r: Result<nat>)
      requires Ready()
      modifies this`position, this`allocation
      ensures Follows(ChargedCount(env, old(Here()), minimum, each), r, Here()) && Ready()
    {
      hide Count, Charge;
      var count :- ReadCount(minimum);
      var paid :- Pay(count * each);
      return Ok(count);
    }

    method ReadStringTable() returns (r: Result<seq<seq<byte>>>)
      requires Ready()
      modifies this`position, this`allocation
      ensures Follows(StringTable(env, old(Here())), r, Here()) && Ready()
    {
      hide ChargedCount, UnicodeString;
      var count :- ReadChargedCount(4, env.sizes.text);
      var strings: seq<seq<byte>>, n := [], 0;
      ghost var spec := UnicodeStrings(env, Here(), count);
      PrependNothing(spec);
      while n < count
        invariant n <= count && Ready() && spec == Prepend(strings, UnicodeStrings(env, Here(), count - n))
      {
        var text :- ReadUnicodeString();
        PrependStep(strings, text, UnicodeStrings(env, Here(), count - n - 1));
        strings := strings + [text];
        n := n + 1;
      }
      assert strings + [] == strings;
      return Ok(strings);
    }

    method ReadExternalRow() returns (r: Result<External>)
      requires Ready()
      modifies this`position, this`allocation
      ensures Follows(ReadExternal(env, old(Here())), r, Here()) && Ready()
    {
      hide UnicodeString;
      var kind :- ReadUnicodeString();
      var path :- ReadUnicodeString();
      if env.modern && env.uids {
        var uid :- ReadWord(8);
      }
      return Ok(External(kind, path));
    }

    method ReadExternalTable() returns (r: Result<seq<External>>)
      requires Ready()
      modifies this`position, this`allocation
      ensures Follows(ExternalTable(env, old(Here())), r, Here()) && Ready()
    {
      hide ChargedCount, ReadExternal;
      var count :- ReadChargedCount(if env.modern && env.uids then 16 else 8, env.sizes.external);
      var rows: seq<External>, n := [], 0;
      ghost var spec := ReadExternals(env, Here(), count);
      PrependNothing(spec);
      while n < count
        invariant n <= count && Ready() && spec == Prepend(rows, ReadExternals(env, Here(), count - n))
      {
        var row :- ReadExternalRow();
        PrependStep(rows, row, ReadExternals(env, Here(), count - n - 1));
        rows := rows + [row];
        n := n + 1;
      }
      assert rows + [] == rows;
      return Ok(rows);
    }

    method ReadInternalRow() returns (r: Result<Internal>)
      requires Ready()
      modifies this`position, this`allocation
      ensures Follows(ReadInternal(env, old(Here())), r, Here()) && Ready()
    {
      hide UnicodeString, Word;
      var path :- ReadUnicodeString();
      var offset :- ReadWord(8);
      return Ok(Internal(path, offset));
    }

    method ReadInternalTable() returns (r: Result<seq<Internal>>)
      requires Ready()
      modifies this`position, this`allocation
      ensures Follows(InternalTable(env, old(Here())), r, Here()) && Ready()
    {
      hide ChargedCount, ReadInternal;
      var count :- ReadChargedCount(12, env.sizes.internal);
      var rows: seq<Internal>, n := [], 0;
      ghost var spec := ReadInternals(env, Here(), count);
      PrependNothing(spec);
      while n < count
        invariant n <= count && Ready() && spec == Prepend(rows, ReadInternals(env, Here(), count - n))
      {
        var row :- ReadInternalRow();
        PrependStep(rows, row, ReadInternals(env, Here(), count - n - 1));
        rows := rows + [row];
        n := n + 1;
      }
      assert rows + [] == rows;
      return Ok(rows);
    }

    /** The tables are kept once all three are read; no row is resolved against them before that. */
    method ReadAllTables() returns (r: Result<()>)
      requires Ready()
      modifies this`env, this`position, this`allocation
      ensures Ready()
      ensures match ReadTables(old(env), old(Here()))
              case Ok(x) => r.Ok? && env == x.value && Here() == x.at
              case Err(why) => r == Err(why)
    {
      hide StringTable, ExternalTable, InternalTable;
      var strings :- ReadStringTable();
      var externals :- ReadExternalTable();
      var internals :- ReadInternalTable();
      env := env.(strings := strings, externals := externals, internals := internals);
      return Ok(());
    }

    // ---- the records

    method BuildLegacyIds() returns (r: Result<()>)
      requires Ready()
      modifies this`env, this`allocation
      ensures Ready()
      ensures match BuildIds(old(env), old(Here()))
              case Ok(x) => r.Ok? && env == x.value && Here() == x.at
              case Err(why) => r == Err(why)
    {
      hide Charge, LegacyIds;
      var rows := if env.internals == [] then 0 else |env.internals| - 1;
      var paid :- Pay(rows * env.sizes.id);
      var ids :- IndexIds(env.internals, rows);
      env := env.(ids := ids);
      return Ok(());
    }

    method ReadOneProperty() returns (r: Result<Property>)
      requires Ready()
      modifies this`position, this`allocation, this`nodes, this`widest
      ensures Follows(ReadProperty(env, old(Here())), r, Here()) && Ready()
    {
      hide Name, ReadValue;
      var name :- ReadName();
      if name == [] { return Err(Malformed); }
      var value :- ReadAny(1);
      return Ok(Property(name, value));
    }

    method ReadSomeProperties(count: nat) returns (r: Result<seq<Property>>)
      requires Ready()
      modifies this`position, this`allocation, this`nodes, this`widest
      ensures Follows(ReadProperties(env, old(Here()), count), r, Here()) && Ready()
    {
      hide ReadProperty;
      var properties: seq<Property>, n := [], 0;
      ghost var spec := ReadProperties(env, Here(), count);
      PrependNothing(spec);
      while n < count
        invariant n <= count && Ready() && spec == Prepend(properties, ReadProperties(env, Here(), count - n))
      {
        var property :- ReadOneProperty();
        PrependStep(properties, property, ReadProperties(env, Here(), count - n - 1));
        properties := properties + [property];
        n := n + 1;
      }
      assert properties + [] == properties;
      return Ok(properties);
    }

    method ReadBody(path: seq<byte>) returns (r: Result<Record>)
      requires Ready()
      modifies this`position, this`allocation, this`nodes, this`widest
      ensures Follows(RecordBody(env, old(Here()), path), r, Here()) && Ready()
    {
      hide UnicodeString, Count, Preflight, Charge, ReadProperties;
      var kind :- ReadUnicodeString();
      var count :- ReadCount(8);
      var fits :- CheckChildren(count, 1);
      var paid :- Pay(count * env.sizes.property);
      var properties :- ReadSomeProperties(count);
      return Ok(Record(path, kind, properties));
    }

    method ReadOneRecord(row: Internal) returns (r: Result<Record>)
      requires Ready()
      modifies this`position, this`allocation, this`nodes, this`widest
      ensures Follows(ReadRecord(env, old(Here()), row), r, Here()) && Ready()
    {
      hide RecordBody, Charge;
      if row.offset > |env.data| { return Err(Malformed); }
      position := row.offset;
      var paid :- Pay(|row.path| + 1);
      r := ReadBody(row.path);
    }

    method ReadSomeRecords(rows: seq<Internal>) returns (r: Result<seq<Record>>)
      requires Ready()
      modifies this`position, this`allocation, this`nodes, this`widest
      ensures Follows(ReadRecords(env, old(Here()), rows), r, Here()) && Ready()
    {
      hide ReadRecord, ReadRecords;
      var records: seq<Record>, n := [], 0;
      ghost var spec := ReadRecords(env, Here(), rows);
      PrependNothing(spec);
      assert rows[0..] == rows;
      while n < |rows|
        invariant n <= |rows| && Ready() && spec == Prepend(records, ReadRecords(env, Here(), rows[n..]))
      {
        assert rows[n..] == [rows[n]] + rows[n + 1..];
        RecordsStep(env, Here(), rows[n], rows[n + 1..]);
        var record :- ReadOneRecord(rows[n]);
        PrependStep(records, record, ReadRecords(env, Here(), rows[n + 1..]));
        records := records + [record];
        n := n + 1;
      }
      ReadNoRecords(env, Here());
      assert rows[n..] == [];
      assert records + [] == records;
      return Ok(records);
    }

    method ReadAllRecords() returns (r: Result<seq<Record>>)
      requires Ready()
      modifies this`env, this`position, this`allocation, this`nodes, this`widest
      ensures Follows(AllRecords(old(env), old(Here())), r, Here()) && Ready()
      ensures r.Ok? ==> env == old(env).(ids := env.ids)
    {
      hide BuildIds, Charge, ReadRecords;
      KnownInternals(env, Here());
      if LegacyIdMode(env) {
        var known :- BuildLegacyIds();
      }
      var paid :- Pay(|env.internals| * env.sizes.record);
      r := ReadSomeRecords(env.internals);
    }

    /** The whole parse. */
    method Run(hasMagic: bool) returns (r: Result<Resource>)
      requires Ready() && env == Fresh(env.data, env.limits, env.sizes) && Here() == Start(metadata)
      modifies this
      ensures r == Parse(old(env.data), hasMagic, old(env.limits), old(env.sizes), metadata)
    {
      hide ReadHeader, ReadTables, AllRecords;
      if |env.data| > env.limits.input { return Err(Malformed); }
      var header :- ReadHead(hasMagic);
      var tables :- ReadAllTables();
      var records :- ReadAllRecords();
      return Ok(Resource(header, env.externals, env.internals, records));
    }
  }

  lemma KnownInternals(env: Env, c: Cursor)
    ensures var r := BuildIds(env, c); r.Ok? ==> r.value.value == env.(ids := r.value.value.ids)
  {
    hide Charge, LegacyIds;
  }

  /** `read_binary_resource` and, in metadata mode, `read_binary_resource_metadata`. */
  method ReadBinaryResource(data: seq<byte>, hasMagic: bool, limits: Limits, sizes: Sizes, metadata: bool)
    returns (r: Result<Resource>)
    ensures r == Parse(data, hasMagic, limits, sizes, metadata)
  {
    var parser := new Parser(data, limits, sizes, metadata);
    r := parser.Run(hasMagic);
  }

  lemma ValuesStep(env: Env, c: Cursor, depth: nat, count: nat)
    ensures count == 0 ==> Values(env, c, depth, count) == Ok(Read([], c))
    ensures count > 0 ==>
      match ReadValue(env, c, depth)
      case Err(why) => Values(env, c, depth, count) == Err(why)
      case Ok(x) => Values(env, c, depth, count) == Prepend([x.value], Values(env, x.at, depth, count - 1))
  {
    hide ReadValue;
  }

  lemma ReadNoRecords(env: Env, c: Cursor)
    ensures ReadRecords(env, c, []) == Ok(Read([], c))
  {
  }

  lemma RecordsStep(env: Env, c: Cursor, row: Internal, rows: seq<Internal>)
    ensures var first, all := ReadRecord(env, c, row), ReadRecords(env, c, [row] + rows);
            && (first.Err? ==> all == Err(first.why))
            && (first.Ok? ==> all == Prepend([first.value.value], ReadRecords(env, first.value.at, rows)))
  {
    hide ReadRecord;
    assert ([row] + rows)[1..] == rows;
  }

  lemma PairsStep(env: Env, c: Cursor, depth: nat, count: nat)
    ensures count == 0 ==> Pairs(env, c, depth, count) == Ok(Read([], c))
    ensures count > 0 ==>
      match ReadValue(env, c, depth)
      case Err(why) => Pairs(env, c, depth, count) == Err(why)
      case Ok(key) =>
        match ReadValue(env, key.at, depth)
        case Err(why) => Pairs(env, c, depth, count) == Err(why)
        case Ok(entry) =>
          Pairs(env, c, depth, count) == Prepend([Pair(key.value, entry.value)], Pairs(env, entry.at, depth, count - 1))
  {
    hide ReadValue;
  }

  lemma {:induction false} PairsCount(env: Env, c: Cursor, depth: nat, count: nat)
    ensures var r := Pairs(env, c, depth, count); r.Ok? ==> |r.value.value| == count
    decreases count
  {
    hide ReadValue, Pairs;
    PairsStep(env, c, depth, count);
    if count > 0 && ReadValue(env, c, depth).Ok? {
      var entry := ReadValue(env, ReadValue(env, c, depth).value.at, depth);
      if entry.Ok? { PairsCount(env, entry.value.at, depth, count - 1); }
    }
  }

  lemma MorePairs(pairs: seq<Pair>, p: Pair)
    ensures TextKeys(pairs + [p]) <==> TextKeys(pairs) && p.key.Text?
    ensures TextKeys(pairs + [p]) ==> Named(pairs + [p]) == Named(pairs) + [Property(p.key.text, p.entry)]
  {
    assert p in pairs + [p];
    if TextKeys(pairs) && p.key.Text? {
      forall q | q in pairs + [p] ensures q.key.Text? { }
    }
    if TextKeys(pairs + [p]) {
      forall q | q in pairs ensures q.key.Text? { assert q in pairs + [p]; }
    }
  }
}
