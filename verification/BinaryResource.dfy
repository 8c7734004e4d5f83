/**
 Godot binary resources: what a parse of the container means, in the full mode that keeps every
 payload and in the metadata mode that keeps the first 64 bytes of each.
 */
module BinaryResource {
  import opened Bytes
  import Utf8

  const KEPT := 64

  /** Why a parse failed. Only `OverBudget` names the allocation budget. */
  datatype Failure = Malformed | OverBudget | FetchTooLong

  datatype Result<+T> = Ok(value: T) | Err(why: Failure) {
    predicate IsFailure()
    {
      Err?
    }

    function PropagateFailure<U>(): Result<U>
      requires Err?
    {
      Err(why)
    }

    function Extract(): T
      requires Ok?
    {
      value
    }
  }

  /**
   The parser's mode and position, and what it has charged so far. `widest` is the longest prefix that the
   payloads passed so far have, in either mode; no decision of the parse looks at it.
   */
  datatype Cursor = Cursor(metadata: bool, pos: nat, alloc: nat, nodes: nat, widest: nat)

  /** Something read, and the cursor behind it. */
  datatype Read<+T> = Read(value: T, at: Cursor)

  datatype Limits = Limits(input: nat, allocation: nat, nodes: nat, text: nat, depth: nat)

  /** The sizes the allocation budget is charged with, per element. */
  datatype Sizes = Sizes(value: nat, property: nat, text: nat, external: nat, internal: nat, record: nat, id: nat, index: nat)

  datatype External = External(kind: seq<byte>, path: seq<byte>)
  datatype Internal = Internal(path: seq<byte>, offset: nat)

  /** What the header and the tables settle for the rest of the parse. */
  datatype Env = Env(
    data: seq<byte>, limits: Limits, sizes: Sizes,
    bigEndian: bool, realIsDouble: bool, modern: bool, v2: bool, uids: bool, namedIds: bool,
    version: nat, strings: seq<seq<byte>>, externals: seq<External>, internals: seq<Internal>, ids: map<nat, nat>)

  datatype Reference =
    | EmptyReference
    | InternalReference(index: nat)
    | LegacyReference(index: nat, id: nat)
    | InlineReference(kind: seq<byte>, path: seq<byte>)
    | ExternalReference(index: nat)

  /** A payload: the bytes kept, and where all of them lie in the input. */
  datatype Blob = Blob(kept: seq<byte>, offset: nat, length: nat)

  /** Reals keep their wire bits and width. */
  datatype Value =
    | Nil
    | Boolean(flag: bool)
    | Integer(number: int)
    | Real(bits: nat, width: nat)
    | Text(text: seq<byte>)
    | Raw(blob: Blob)
    | Integers(numbers: seq<int>)
    | Reals(numerals: seq<nat>, width: nat)
    | Items(items: seq<Value>)
    | Dictionary(entries: seq<Property>)
    | Object(reference: Reference)
    | Image(encoding: nat, width: nat, height: nat, mipmaps: nat, format: nat, blob: Blob)
    | Unsupported

  datatype Property = Property(name: seq<byte>, value: Value)
  datatype Pair = Pair(key: Value, entry: Value)
  datatype Record = Record(path: seq<byte>, kind: seq<byte>, properties: seq<Property>)
  datatype Header = Header(major: nat, minor: nat, version: nat, kind: seq<byte>)
  datatype Resource =
    Resource(header: Header, externals: seq<External>, internals: seq<Internal>, records: seq<Record>)

  // ---- the cursor

  /** The position lies in the input and both budgets hold. */
  predicate Fits(env: Env, c: Cursor)
  {
    c.pos <= |env.data| && c.alloc <= env.limits.allocation && c.nodes <= env.limits.nodes
  }

  /** What every step keeps: the mode, the bounds, and charges that only grow. */
  predicate Next(env: Env, c: Cursor, d: Cursor)
  {
    && d.metadata == c.metadata && (Fits(env, c) ==> Fits(env, d)) && c.alloc <= d.alloc && c.nodes <= d.nodes
    && c.widest <= d.widest <= Max(c.widest, KEPT)
  }

  function Require(env: Env, c: Cursor, count: nat): (r: Result<Cursor>)
    ensures r.Ok? ==> Next(env, c, r.value)
  {
    if c.pos + count > |env.data| then Err(Malformed) else Ok(c)
  }

  function Skip(env: Env, c: Cursor, count: nat): (r: Result<Cursor>)
    ensures r.Ok? ==> Next(env, c, r.value)
  {
    if c.pos + count > |env.data| then Err(Malformed) else Ok(c.(pos := c.pos + count))
  }

  function Align4(env: Env, c: Cursor, length: nat): (r: Result<Cursor>)
    ensures r.Ok? ==> Next(env, c, r.value)
  {
    Skip(env, c, (4 - length % 4) % 4)
  }

  /** In metadata mode a fetch is limited to the string bound. */
  function Take(env: Env, c: Cursor, count: nat): (r: Result<Read<seq<byte>>>)
    ensures r.Ok? ==> Next(env, c, r.value.at)
  {
    if c.pos + count > |env.data| then Err(Malformed)
    else if c.metadata && count > env.limits.text then Err(FetchTooLong)
    else Ok(Read(env.data[c.pos..c.pos + count], c.(pos := c.pos + count)))
  }

  function Charge(env: Env, c: Cursor, amount: nat): (r: Result<Cursor>)
    ensures r.Ok? ==> Next(env, c, r.value)
  {
    if c.alloc + amount > env.limits.allocation then Err(OverBudget) else Ok(c.(alloc := c.alloc + amount))
  }

  function EnterNode(env: Env, c: Cursor): (r: Result<Cursor>)
    ensures r.Ok? ==> Next(env, c, r.value)
  {
    if c.nodes >= env.limits.nodes then Err(Malformed) else Ok(c.(nodes := c.nodes + 1))
  }

  /** Elements are checked against the depth and node budgets before they are stored. */
  function Preflight(env: Env, c: Cursor, count: nat, depth: nat): (r: Result<Cursor>)
    ensures r.Ok? ==> Next(env, c, r.value)
  {
    if count > 0 && (depth > env.limits.depth || c.nodes + count > env.limits.nodes) then Err(Malformed) else Ok(c)
  }

  // ---- numbers and strings

  function Number(bytes: seq<byte>, bigEndian: bool): nat
  {
    Unsigned(if bigEndian then Reversed(bytes) else bytes)
  }

  function Word(env: Env, c: Cursor, width: nat): (r: Result<Read<nat>>)
    ensures r.Ok? ==> Next(env, c, r.value.at)
  {
    if c.pos + width > |env.data| then Err(Malformed)
    else Ok(Read(Number(env.data[c.pos..c.pos + width], env.bigEndian), c.(pos := c.pos + width)))
  }

  function Words(env: Env, c: Cursor, width: nat, count: nat): (r: Result<Read<seq<nat>>>)
    ensures r.Ok? ==> Next(env, c, r.value.at)
    decreases count
  {
    if count == 0 then Ok(Read([], c))
    else
      var first :- Word(env, c, width);
      var rest :- Words(env, first.at, width, count - 1);
      Ok(Read([first.value] + rest.value, rest.at))
  }

  function Count(env: Env, c: Cursor, minimum: nat): (r: Result<Read<nat>>)
    ensures r.Ok? ==> Next(env, c, r.value.at)
  {
    var count :- Word(env, c, 4);
    var at :- Require(env, count.at, count.value * minimum);
    Ok(count)
  }

  /** Shared containers carry a flag in the top bit. */
  function SharedCount(env: Env, c: Cursor, minimum: nat): (r: Result<Read<nat>>)
    ensures r.Ok? ==> Next(env, c, r.value.at)
  {
    var field :- Word(env, c, 4);
    var count := field.value % 0x8000_0000;
    var at :- Require(env, field.at, count * minimum);
    Ok(Read(count, at))
  }

  function StringBody(env: Env, c: Cursor, length: nat): (r: Result<Read<seq<byte>>>)
    ensures r.Ok? ==> Next(env, c, r.value.at)
  {
    if length == 0 then Ok(Read([], c))
    else if length > env.limits.text then Err(Malformed)
    else
      var bytes :- Take(env, c, length);
      var at :- Charge(env, bytes.at, length);
      var content := bytes.value[..length - 1];
      if bytes.value[length - 1] != 0 || !Utf8.WellFormed(content) || 0 in content then Err(Malformed)
      else Ok(Read(content, at))
  }

  function UnicodeString(env: Env, c: Cursor): (r: Result<Read<seq<byte>>>)
    ensures r.Ok? ==> Next(env, c, r.value.at)
  {
    var length :- Word(env, c, 4);
    StringBody(env, length.at, length.value)
  }

  function UnicodeStrings(env: Env, c: Cursor, count: nat): (r: Result<Read<seq<seq<byte>>>>)
    ensures r.Ok? ==> Next(env, c, r.value.at)
    decreases count
  {
    if count == 0 then Ok(Read([], c))
    else
      var first :- UnicodeString(env, c);
      var rest :- UnicodeStrings(env, first.at, count - 1);
      Ok(Read([first.value] + rest.value, rest.at))
  }

  /** A name from the string table, or inline where the engine allows it and the top bit says so. */
  function Name(env: Env, c: Cursor): (r: Result<Read<seq<byte>>>)
    ensures r.Ok? ==> Next(env, c, r.value.at)
  {
    var field :- Word(env, c, 4);
    if !env.v2 && field.value >= 0x8000_0000 then StringBody(env, field.at, field.value - 0x8000_0000)
    else if field.value >= |env.strings| then Err(Malformed)
    else
      var at :- Charge(env, field.at, |env.strings[field.value]| + 1);
      Ok(Read(env.strings[field.value], at))
  }

  function SkipNames(env: Env, c: Cursor, count: nat): (r: Result<Cursor>)
    ensures r.Ok? ==> Next(env, c, r.value)
    decreases count
  {
    if count == 0 then Ok(c)
    else
      var name :- Name(env, c);
      SkipNames(env, name.at, count - 1)
  }

  // ---- tags

  datatype Decoder =
    | NilTag | BooleanTag | IntegerTag(width: nat) | RealTag | DoubleTag | TextTag | RawTag
    | IntegersTag(width: nat) | RealsTag(width: nat) | StringsTag | ItemsTag | ObjectTag | ImageTag | NodePathTag
    | StringNameTag | InputEventTag | DictionaryTag
    | FixedTag(isReal: bool, components: nat) | CountedTag(isReal: bool, components: nat)

  function RealWidth(env: Env): nat
  {
    if env.realIsDouble then 8 else 4
  }

  function FindTag(env: Env, raw: nat): Option<Decoder>
  {
    match raw
    case 1 => Some(NilTag)
    case 2 => Some(BooleanTag)
    case 3 => Some(IntegerTag(4))
    case 4 => Some(RealTag)
    case 5 => Some(TextTag)
    case 10 => Some(FixedTag(true, 2))
    case 11 => Some(FixedTag(true, 4))
    case 12 => Some(FixedTag(true, 3))
    case 13 => Some(FixedTag(true, 4))
    case 14 => Some(FixedTag(true, 4))
    case 15 => Some(FixedTag(true, 6))
    case 16 => Some(FixedTag(true, 9))
    case 17 => Some(FixedTag(true, 12))
    case 18 => Some(FixedTag(true, 6))
    case 20 => Some(FixedTag(!env.modern, 4))
    case 21 => if env.modern then None else Some(ImageTag)
    case 22 => Some(NodePathTag)
    case 23 => Some(FixedTag(false, 1))
    case 24 => Some(ObjectTag)
    case 25 => if !env.modern && env.v2 then Some(InputEventTag) else None
    case 26 => Some(DictionaryTag)
    case 30 => Some(ItemsTag)
    case 31 => Some(RawTag)
    case 32 => Some(IntegersTag(4))
    case 33 => Some(RealsTag(if env.modern then 4 else RealWidth(env)))
    case 34 => Some(StringsTag)
    case 35 => Some(CountedTag(true, 3))
    case 36 => Some(CountedTag(!env.modern, 4))
    case 37 => Some(CountedTag(true, 2))
    case 40 => Some(IntegerTag(8))
    case 41 => Some(DoubleTag)
    case _ => if env.modern then ModernTag(raw) else None
  }

  function ModernTag(raw: nat): Option<Decoder>
  {
    match raw
    case 42 => Some(FixedTag(false, 0))
    case 43 => Some(FixedTag(false, 0))
    case 44 => Some(StringNameTag)
    case 45 => Some(FixedTag(false, 2))
    case 46 => Some(FixedTag(false, 4))
    case 47 => Some(FixedTag(false, 3))
    case 48 => Some(IntegersTag(8))
    case 49 => Some(RealsTag(8))
    case 50 => Some(FixedTag(true, 4))
    case 51 => Some(FixedTag(false, 4))
    case 52 => Some(FixedTag(true, 16))
    case 53 => Some(CountedTag(true, 4))
    case _ => None
  }

  function ElementWidth(env: Env, isReal: bool): nat
  {
    if isReal then RealWidth(env) else 4
  }

  // ---- values without children

  function Signed(bits: nat, width: nat): int
  {
    if width == 4 then Signed32(bits) else Signed64(bits)
  }

  function SignedAll(words: seq<nat>, width: nat): seq<int>
  {
    seq(|words|, i requires 0 <= i < |words| => Signed(words[i], width))
  }

  /** The bytes of a payload that this mode keeps. */
  function Copied(c: Cursor, count: nat): (n: nat)
    ensures n <= count
  {
    if c.metadata && count > KEPT then KEPT else count
  }

  /** The bytes of a payload that the metadata mode keeps. */
  function Prefix(count: nat): nat
  {
    Min(count, KEPT)
  }

  function Passed(c: Cursor, count: nat): Cursor
  {
    c.(widest := Max(c.widest, Prefix(count)))
  }

  /** The part of a payload behind its count: kept bytes are charged and fetched, the others and the padding skipped. */
  function Body(env: Env, c: Cursor, count: nat): (r: Result<Read<Blob>>)
    ensures r.Ok? ==> Next(env, c, r.value.at)
  {
    var copied := Copied(c, count);
    var paid :- Charge(env, c, copied);
    var kept :- Take(env, paid, copied);
    var rest :- Skip(env, kept.at, count - copied);
    var at :- Align4(env, rest, count);
    Ok(Read(Blob(kept.value, paid.pos, count), Passed(at, count)))
  }

  function Payload(env: Env, c: Cursor): (r: Result<Read<Blob>>)
    ensures r.Ok? ==> Next(env, c, r.value.at)
  {
    var count :- Count(env, c, 1);
    Body(env, count.at, count.value)
  }

  function ImageDetails(env: Env, c: Cursor, encoding: nat): (r: Result<Read<seq<nat>>>)
    ensures r.Ok? ==> Next(env, c, r.value.at)
  {
    if encoding != 1 then Ok(Read([0, 0, 0, 0], c))
    else
      var words :- Words(env, c, 4, 4);
      var format := words.value[3];
      if !env.modern && !env.v2 then
        if format / 0x100_0000 != 0 then Err(Malformed) else Ok(words)
      else Ok(words)
  }

  function DecodeImage(env: Env, c: Cursor): (r: Result<Read<Value>>)
    ensures r.Ok? ==> Next(env, c, r.value.at)
  {
    var encoding :- Word(env, c, 4);
    if encoding.value == 0 then Ok(Read(Nil, encoding.at))
    else
      var details :- ImageDetails(env, encoding.at, encoding.value);
      var blob :- Payload(env, details.at);
      var d := details.value;
      if |d| != 4 then Err(Malformed)
      else Ok(Read(Image(encoding.value, d[0], d[1], d[2], d[3], blob.value), blob.at))
  }

  function LegacyIdMode(env: Env): bool
  {
    !env.modern || !env.namedIds
  }

  function DecodeObject(env: Env, c: Cursor): (r: Result<Read<Value>>)
    ensures r.Ok? ==> Next(env, c, r.value.at)
  {
    var form :- Word(env, c, 4);
    if form.value == 0 then Ok(Read(Object(EmptyReference), form.at))
    else if form.value == 2 then
      var id :- Word(env, form.at, 4);
      if LegacyIdMode(env) then
        if id.value !in env.ids then Err(Malformed)
        else Ok(Read(Object(LegacyReference(env.ids[id.value], id.value)), id.at))
      else if id.value >= |env.internals| then Err(Malformed)
      else Ok(Read(Object(InternalReference(id.value)), id.at))
    else if form.value == 1 then
      var kind :- UnicodeString(env, form.at);
      var path :- UnicodeString(env, kind.at);
      Ok(Read(Object(InlineReference(kind.value, path.value)), path.at))
    else if form.value == 3 then
      var index :- Word(env, form.at, 4);
      if index.value >= |env.externals| then Err(Malformed)
      else Ok(Read(Object(ExternalReference(index.value)), index.at))
    else Err(Malformed)
  }

  /** Two counts, then that many names; older formats add one for the property. */
  function DecodeNodePath(env: Env, c: Cursor): (r: Result<Read<Value>>)
    ensures r.Ok? ==> Next(env, c, r.value.at)
  {
    var names :- Word(env, c, 2);
    var field :- Word(env, names.at, 2);
    var subnames := field.value % 0x8000 + if env.version < 3 then 1 else 0;
    var after :- SkipNames(env, field.at, names.value);
    var at :- SkipNames(env, after, subnames);
    Ok(Read(Unsupported, at))
  }

  function DecodeNumbers(env: Env, c: Cursor, width: nat, isReal: bool): (r: Result<Read<Value>>)
    ensures r.Ok? ==> Next(env, c, r.value.at)
  {
    var count :- Count(env, c, width);
    var paid :- Charge(env, count.at, count.value * 8);
    var words :- Words(env, paid, width, count.value);
    Ok(Read(if isReal then Reals(words.value, width) else Integers(SignedAll(words.value, width)), words.at))
  }

  function DecodeScalar(env: Env, c: Cursor, width: nat, isReal: bool): (r: Result<Read<Value>>)
    ensures r.Ok? ==> Next(env, c, r.value.at)
  {
    var word :- Word(env, c, width);
    Ok(Read(if isReal then Real(word.value, width) else Integer(Signed(word.value, width)), word.at))
  }

  function DecodeCounted(env: Env, c: Cursor, element: nat): (r: Result<Read<Value>>)
    ensures r.Ok? ==> Next(env, c, r.value.at)
  {
    var count :- Count(env, c, element);
    var at :- Skip(env, count.at, element * count.value);
    Ok(Read(Unsupported, at))
  }

  function DecodeText(env: Env, c: Cursor): (r: Result<Read<Value>>)
    ensures r.Ok? ==> Next(env, c, r.value.at)
  {
    var text :- UnicodeString(env, c);
    Ok(Read(Text(text.value), text.at))
  }

  function DecodeRaw(env: Env, c: Cursor): (r: Result<Read<Value>>)
    ensures r.Ok? ==> Next(env, c, r.value.at)
  {
    var blob :- Payload(env, c);
    Ok(Read(Raw(blob.value), blob.at))
  }

  /** Every decoder that reads no child values through the tag table. */
  function DecodeLeaf(env: Env, c: Cursor, tag: Decoder): (r: Result<Read<Value>>)
    ensures r.Ok? ==> Next(env, c, r.value.at)
    requires !tag.ItemsTag? && !tag.DictionaryTag? && !tag.StringsTag?
  {
    match tag
    case NilTag => Ok(Read(Nil, c))
    case BooleanTag =>
      var word :- Word(env, c, 4);
      Ok(Read(Boolean(word.value != 0), word.at))
    case IntegerTag(width) => DecodeScalar(env, c, width, false)
    case RealTag => DecodeScalar(env, c, RealWidth(env), true)
    case DoubleTag => DecodeScalar(env, c, 8, true)
    case TextTag => DecodeText(env, c)
    case RawTag => DecodeRaw(env, c)
    case IntegersTag(width) => DecodeNumbers(env, c, width, false)
    case RealsTag(width) => DecodeNumbers(env, c, width, true)
    case ObjectTag => DecodeObject(env, c)
    case ImageTag => DecodeImage(env, c)
    case NodePathTag => DecodeNodePath(env, c)
    case StringNameTag =>
      var text :- UnicodeString(env, c);
      Ok(Read(Unsupported, text.at))
    case InputEventTag => Ok(Read(Unsupported, c))
    case FixedTag(isReal, components) =>
      var at :- Skip(env, c, ElementWidth(env, isReal) * components);
      Ok(Read(Unsupported, at))
    case CountedTag(isReal, components) => DecodeCounted(env, c, ElementWidth(env, isReal) * components)
  }

  // ---- values with children

  function Levels(env: Env, depth: nat): nat
  {
    if depth > env.limits.depth then 0 else env.limits.depth + 1 - depth
  }

  function TextNode(env: Env, c: Cursor): (r: Result<Read<Value>>)
    ensures r.Ok? ==> Next(env, c, r.value.at)
  {
    var entered :- EnterNode(env, c);
    DecodeText(env, entered)
  }

  function TextNodes(env: Env, c: Cursor, count: nat): (r: Result<Read<seq<Value>>>)
    ensures r.Ok? ==> Next(env, c, r.value.at)
    decreases count
  {
    if count == 0 then Ok(Read([], c))
    else
      var first :- TextNode(env, c);
      var rest :- TextNodes(env, first.at, count - 1);
      Ok(Read([first.value] + rest.value, rest.at))
  }

  function DecodeStrings(env: Env, c: Cursor, depth: nat): (r: Result<Read<Value>>)
    ensures r.Ok? ==> Next(env, c, r.value.at)
  {
    var count :- Count(env, c, 4);
    var fits :- Preflight(env, count.at, count.value, depth + 1);
    var paid :- Charge(env, fits, count.value * env.sizes.value);
    var items :- TextNodes(env, paid, count.value);
    Ok(Read(Items(items.value), items.at))
  }

  function ReadValue(env: Env, c: Cursor, depth: nat): (r: Result<Read<Value>>)
    ensures r.Ok? ==> Next(env, c, r.value.at)
    decreases Levels(env, depth), 1, 0
  {
    if depth > env.limits.depth then Err(Malformed)
    else
      var entered :- EnterNode(env, c);
      var raw :- Word(env, entered, 4);
      match FindTag(env, raw.value)
      case None => Err(Malformed)
      case Some(tag) => Decode(env, raw.at, depth, tag)
  }

  function Decode(env: Env, c: Cursor, depth: nat, tag: Decoder): (r: Result<Read<Value>>)
    requires depth <= env.limits.depth
    ensures r.Ok? ==> Next(env, c, r.value.at)
    decreases Levels(env, depth), 0, 1
  {
    if tag.ItemsTag? then DecodeItems(env, c, depth)
    else if tag.DictionaryTag? then DecodeDictionary(env, c, depth)
    else if tag.StringsTag? then DecodeStrings(env, c, depth)
    else DecodeLeaf(env, c, tag)
  }

  function DecodeItems(env: Env, c: Cursor, depth: nat): (r: Result<Read<Value>>)
    requires depth <= env.limits.depth
    ensures r.Ok? ==> Next(env, c, r.value.at)
    decreases Levels(env, depth), 0, 0
  {
    var count :- ContainerCount(env, c, 4, 1, depth);
    var paid :- Charge(env, count.at, count.value * env.sizes.value);
    var items :- Values(env, paid, depth + 1, count.value);
    Ok(Read(Items(items.value), items.at))
  }

  function DecodeDictionary(env: Env, c: Cursor, depth: nat): (r: Result<Read<Value>>)
    requires depth <= env.limits.depth
    ensures r.Ok? ==> Next(env, c, r.value.at)
    decreases Levels(env, depth), 0, 0
  {
    var count :- ContainerCount(env, c, 8, 2, depth);
    var paid :- Charge(env, count.at, count.value * env.sizes.property);
    var both :- Charge(env, paid, count.value * env.sizes.value);
    var pairs :- Pairs(env, both, depth + 1, count.value);
    Represent(env, pairs.at, pairs.value)
  }

  /** The count of a container, when its children fit the depth and node budgets. */
  function ContainerCount(env: Env, c: Cursor, minimum: nat, each: nat, depth: nat): (r: Result<Read<nat>>)
    ensures r.Ok? ==> Next(env, c, r.value.at)
  {
    var count :- SharedCount(env, c, minimum);
    var fits :- Preflight(env, count.at, count.value * each, depth + 1);
    Ok(count)
  }

  function Values(env: Env, c: Cursor, depth: nat, count: nat): (r: Result<Read<seq<Value>>>)
    ensures r.Ok? ==> Next(env, c, r.value.at)
    decreases Levels(env, depth), 2, count
  {
    if count == 0 then Ok(Read([], c))
    else
      var first :- ReadValue(env, c, depth);
      var rest :- Values(env, first.at, depth, count - 1);
      Ok(Read([first.value] + rest.value, rest.at))
  }

  function Pairs(env: Env, c: Cursor, depth: nat, count: nat): (r: Result<Read<seq<Pair>>>)
    ensures r.Ok? ==> Next(env, c, r.value.at)
    decreases Levels(env, depth), 2, count
  {
    if count == 0 then Ok(Read([], c))
    else
      var key :- ReadValue(env, c, depth);
      var entry :- ReadValue(env, key.at, depth);
      var rest :- Pairs(env, entry.at, depth, count - 1);
      Ok(Read([Pair(key.value, entry.value)] + rest.value, rest.at))
  }

  predicate TextKeys(pairs: seq<Pair>)
  {
    forall p :: p in pairs ==> p.key.Text?
  }

  function Named(pairs: seq<Pair>): (r: seq<Property>)
    requires TextKeys(pairs)
    ensures |r| == |pairs|
  {
    seq(|pairs|, i requires 0 <= i < |pairs| =>
      assert pairs[i] in pairs; Property(pairs[i].key.text, pairs[i].entry))
  }

  predicate Distinct(entries: seq<Property>)
  {
    forall i, j :: 0 <= i < j < |entries| ==> entries[i].name != entries[j].name
  }

  /** Only a dictionary with distinct text keys is represented; one with another key is consumed. */
  function Represent(env: Env, c: Cursor, pairs: seq<Pair>): (r: Result<Read<Value>>)
    ensures r.Ok? ==> Next(env, c, r.value.at)
  {
    if !TextKeys(pairs) then Ok(Read(Unsupported, c))
    else
      var paid :- Charge(env, c, |pairs| * env.sizes.index);
      if !Distinct(Named(pairs)) then Err(Malformed) else Ok(Read(Dictionary(Named(pairs)), paid))
  }

  // ---- the header

  const RSRC: seq<byte> := [0x52, 0x53, 0x52, 0x43]

  function Magic(env: Env, c: Cursor, hasMagic: bool): (r: Result<Cursor>)
    ensures r.Ok? ==> Next(env, c, r.value)
  {
    if !hasMagic then Ok(c)
    else
      var at :- Require(env, c, 4);
      if env.data[..4] != RSRC then Err(Malformed) else Skip(env, c, 4)
  }

  function MaxVersion(major: nat): nat
  {
    if major == 3 then 3 else if major == 4 then 6 else 1
  }

  function Versioned(env: Env, words: seq<nat>): Result<Env>
    requires |words| == 4
  {
    var major, version := words[1], words[3];
    if major != 2 && major != 3 && major != 4 then Err(Malformed)
    else if version > MaxVersion(major) then Err(Malformed)
    else Ok(env.(modern := major == 4, v2 := major == 2, version := version, realIsDouble := words[0] != 0))
  }

  function ModernHeader(env: Env, c: Cursor): (r: Result<Read<Env>>)
    ensures r.Ok? ==> Next(env, c, r.value.at)
  {
    var field :- Word(env, c, 4);
    var flags := field.value;
    var uid :- Word(env, field.at, 8);
    var script :- if flags / 8 % 2 == 1 then UnicodeString(env, uid.at) else Ok(Read([], uid.at));
    var reserved :- Words(env, script.at, 4, 11);
    Ok(Read(env.(realIsDouble := flags / 4 % 2 == 1, uids := flags / 2 % 2 == 1, namedIds := flags % 2 == 1), reserved.at))
  }

  function LegacyHeader(env: Env, c: Cursor): (r: Result<Read<Env>>)
    ensures r.Ok? ==> Next(env, c, r.value.at)
  {
    var reserved :- Words(env, c, 4, 14);
    Ok(Read(env, reserved.at))
  }

  datatype Begun = Begun(env: Env, header: Header)

  /** The header behind the version words. */
  function HeaderTail(env: Env, c: Cursor, words: seq<nat>): (r: Result<Read<Begun>>)
    ensures r.Ok? ==> Next(env, c, r.value.at)
    requires |words| == 4
  {
    var kind :- UnicodeString(env, c);
    var imported :- Word(env, kind.at, 8);
    if imported.value > |env.data| then Err(Malformed)
    else
      var tail :- if env.modern then ModernHeader(env, imported.at) else LegacyHeader(env, imported.at);
      Ok(Read(Begun(tail.value, Header(words[1], words[2], words[3], kind.value)), tail.at))
  }

  function ReadHeader(env: Env, c: Cursor, hasMagic: bool): (r: Result<Read<Begun>>)
    ensures r.Ok? ==> Next(env, c, r.value.at)
  {
    var start :- Magic(env, c, hasMagic);
    var order :- Word(env, start, 4);
    var ordered := env.(bigEndian := order.value != 0);
    var words :- Words(ordered, order.at, 4, 4);
    WordsCount(ordered, order.at, 4, 4);
    var known :- Versioned(ordered, words.value);
    HeaderTail(known, words.at, words.value)
  }

  lemma {:induction false} WordsCount(env: Env, c: Cursor, width: nat, count: nat)
    ensures Words(env, c, width, count).Ok? ==> |Words(env, c, width, count).value.value| == count
    decreases count
  {
    if count > 0 && Word(env, c, width).Ok? { WordsCount(env, Word(env, c, width).value.at, width, count - 1); }
  }

  // ---- the tables

  function ReadExternal(env: Env, c: Cursor): (r: Result<Read<External>>)
    ensures r.Ok? ==> Next(env, c, r.value.at)
  {
    var kind :- UnicodeString(env, c);
    var path :- UnicodeString(env, kind.at);
    var at :- if env.modern && env.uids then Skip(env, path.at, 8) else Ok(path.at);
    Ok(Read(External(kind.value, path.value), at))
  }

  function ReadExternals(env: Env, c: Cursor, count: nat): (r: Result<Read<seq<External>>>)
    ensures r.Ok? ==> Next(env, c, r.value.at)
    decreases count
  {
    if count == 0 then Ok(Read([], c))
    else
      var first :- ReadExternal(env, c);
      var rest :- ReadExternals(env, first.at, count - 1);
      Ok(Read([first.value] + rest.value, rest.at))
  }

  function ReadInternal(env: Env, c: Cursor): (r: Result<Read<Internal>>)
    ensures r.Ok? ==> Next(env, c, r.value.at)
  {
    var path :- UnicodeString(env, c);
    var offset :- Word(env, path.at, 8);
    Ok(Read(Internal(path.value, offset.value), offset.at))
  }

  function ReadInternals(env: Env, c: Cursor, count: nat): (r: Result<Read<seq<Internal>>>)
    ensures r.Ok? ==> Next(env, c, r.value.at)
    decreases count
  {
    if count == 0 then Ok(Read([], c))
    else
      var first :- ReadInternal(env, c);
      var rest :- ReadInternals(env, first.at, count - 1);
      Ok(Read([first.value] + rest.value, rest.at))
  }

  /** A count, and the charge for that many elements. */
  function ChargedCount(env: Env, c: Cursor, minimum: nat, each: nat): (r: Result<Read<nat>>)
    ensures r.Ok? ==> Next(env, c, r.value.at)
  {
    var count :- Count(env, c, minimum);
    var paid :- Charge(env, count.at, count.value * each);
    Ok(Read(count.value, paid))
  }

  function StringTable(env: Env, c: Cursor): (r: Result<Read<seq<seq<byte>>>>)
    ensures r.Ok? ==> Next(env, c, r.value.at)
  {
    var count :- ChargedCount(env, c, 4, env.sizes.text);
    UnicodeStrings(env, count.at, count.value)
  }

  function ExternalTable(env: Env, c: Cursor): (r: Result<Read<seq<External>>>)
    ensures r.Ok? ==> Next(env, c, r.value.at)
  {
    var count :- ChargedCount(env, c, if env.modern && env.uids then 16 else 8, env.sizes.external);
    ReadExternals(env, count.at, count.value)
  }

  function InternalTable(env: Env, c: Cursor): (r: Result<Read<seq<Internal>>>)
    ensures r.Ok? ==> Next(env, c, r.value.at)
  {
    var count :- ChargedCount(env, c, 12, env.sizes.internal);
    ReadInternals(env, count.at, count.value)
  }

  function ReadTables(env: Env, c: Cursor): (r: Result<Read<Env>>)
    ensures r.Ok? ==> Next(env, c, r.value.at)
  {
    var strings :- StringTable(env, c);
    var externals :- ExternalTable(env, strings.at);
    var internals :- InternalTable(env, externals.at);
    Ok(Read(env.(strings := strings.value, externals := externals.value, internals := internals.value), internals.at))
  }

  const LOCAL: seq<byte> := [0x6C, 0x6F, 0x63, 0x61, 0x6C, 0x3A, 0x2F, 0x2F]

  /** Decimal digits, none of whose prefixes passes the bound. */
  function Magnitude(digits: seq<byte>, bound: nat): Option<nat>
    decreases |digits|
  {
    if digits == [] then Some(0)
    else
      var last := digits[|digits| - 1];
      match Magnitude(digits[..|digits| - 1], bound)
      case None => None
      case Some(m) =>
        if !(0x30 <= last <= 0x39) || m * 10 + (last - 0x30) as nat > bound then None else Some(m * 10 + (last - 0x30) as nat)
  }

  /** The number behind `local://`; a negative one wraps to 32 bits. */
  function LocalId(path: seq<byte>): Option<nat>
    requires LOCAL <= path
  {
    var suffix := path[8..];
    var negative := suffix != [] && suffix[0] == 0x2D;
    var digits := if negative then suffix[1..] else suffix;
    if digits == [] then None
    else match Magnitude(digits, if negative then 0x8000_0000 else 0xFFFF_FFFF)
      case None => None
      case Some(m) => Some(if negative && m > 0 then SPAN32 - m else m)
  }

  /** The directory index each legacy id names, over the first `n` rows; a malformed or repeated id rejects. */
  function LegacyIds(internals: seq<Internal>, n: nat): Result<map<nat, nat>>
    requires n <= |internals|
    decreases n
  {
    if n == 0 then Ok(map[])
    else
      var ids :- LegacyIds(internals, n - 1);
      var path := internals[n - 1].path;
      if !(LOCAL <= path) then Ok(ids)
      else match LocalId(path)
        case None => Err(Malformed)
        case Some(id) => if id in ids then Err(Malformed) else Ok(ids[id := n - 1])
  }

  function BuildIds(env: Env, c: Cursor): (r: Result<Read<Env>>)
    ensures r.Ok? ==> Next(env, c, r.value.at)
  {
    var rows := if env.internals == [] then 0 else |env.internals| - 1;
    var paid :- Charge(env, c, rows * env.sizes.id);
    var ids :- LegacyIds(env.internals, rows);
    Ok(Read(env.(ids := ids), paid))
  }

  // ---- the records

  function ReadProperty(env: Env, c: Cursor): (r: Result<Read<Property>>)
    ensures r.Ok? ==> Next(env, c, r.value.at)
  {
    var name :- Name(env, c);
    if name.value == [] then Err(Malformed)
    else
      var value :- ReadValue(env, name.at, 1);
      Ok(Read(Property(name.value, value.value), value.at))
  }

  function ReadProperties(env: Env, c: Cursor, count: nat): (r: Result<Read<seq<Property>>>)
    ensures r.Ok? ==> Next(env, c, r.value.at)
    decreases count
  {
    if count == 0 then Ok(Read([], c))
    else
      var first :- ReadProperty(env, c);
      var rest :- ReadProperties(env, first.at, count - 1);
      Ok(Read([first.value] + rest.value, rest.at))
  }

  function Seek(env: Env, c: Cursor, target: nat): (r: Result<Cursor>)
    ensures r.Ok? ==> Next(env, c, r.value)
  {
    if target > |env.data| then Err(Malformed) else Ok(c.(pos := target))
  }

  function RecordBody(env: Env, c: Cursor, path: seq<byte>): (r: Result<Read<Record>>)
    ensures r.Ok? ==> Next(env, c, r.value.at)
  {
    var kind :- UnicodeString(env, c);
    var count :- Count(env, kind.at, 8);
    var fits :- Preflight(env, count.at, count.value, 1);
    var charged :- Charge(env, fits, count.value * env.sizes.property);
    var properties :- ReadProperties(env, charged, count.value);
    Ok(Read(Record(path, kind.value, properties.value), properties.at))
  }

  function ReadRecord(env: Env, c: Cursor, row: Internal): (r: Result<Read<Record>>)
    ensures r.Ok? ==> Next(env, c, r.value.at)
  {
    var start :- Seek(env, c, row.offset);
    var paid :- Charge(env, start, |row.path| + 1);
    RecordBody(env, paid, row.path)
  }

  function ReadRecords(env: Env, c: Cursor, rows: seq<Internal>): (r: Result<Read<seq<Record>>>)
    ensures r.Ok? ==> Next(env, c, r.value.at)
    decreases |rows|
  {
    if rows == [] then Ok(Read([], c))
    else
      var first :- ReadRecord(env, c, rows[0]);
      var rest :- ReadRecords(env, first.at, rows[1..]);
      Ok(Read([first.value] + rest.value, rest.at))
  }

  function KnownIds(env: Env, c: Cursor): (r: Result<Read<Env>>)
    ensures r.Ok? ==> Next(env, c, r.value.at)
  {
    if LegacyIdMode(env) then BuildIds(env, c) else Ok(Read(env, c))
  }

  function AllRecords(env: Env, c: Cursor): (r: Result<Read<seq<Record>>>)
    ensures r.Ok? ==> Next(env, c, r.value.at)
  {
    var known :- KnownIds(env, c);
    var paid :- Charge(known.value, known.at, |env.internals| * env.sizes.record);
    ReadRecords(known.value, paid, env.internals)
  }

  function Fresh(data: seq<byte>, limits: Limits, sizes: Sizes): Env
  {
    Env(data, limits, sizes, false, false, false, false, false, false, 0, [], [], [], map[])
  }

  function Start(metadata: bool): Cursor
  {
    Cursor(metadata, 0, 0, 0, 0)
  }

  /** The whole parse, in either mode. */
  function Parse(data: seq<byte>, hasMagic: bool, limits: Limits, sizes: Sizes, metadata: bool): Result<Resource>
  {
    var parsed :- ParseTo(data, hasMagic, limits, sizes, metadata);
    Ok(parsed.value)
  }

  function ParseTo(data: seq<byte>, hasMagic: bool, limits: Limits, sizes: Sizes, metadata: bool): Result<Read<Resource>>
  {
    if |data| > limits.input then Err(Malformed)
    else
      var begun :- ReadHeader(Fresh(data, limits, sizes), Start(metadata), hasMagic);
      var tables :- ReadTables(begun.value.env, begun.at);
      var records :- AllRecords(tables.value, tables.at);
      Ok(Read(Resource(begun.value.header, tables.value.externals, tables.value.internals, records.value), records.at))
  }
}
