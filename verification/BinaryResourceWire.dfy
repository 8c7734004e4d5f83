/**
 Resource values as they are written: one constructor for each wire form, the bytes it is written as,
 and the value it stands for. Nothing here reads.
 */
module BinaryResourceWire {
  import opened Bytes
  import opened BinaryResource
  import Utf8

  /** What a file settles for its values: the layout, the tables they may refer to, and the limits on them. */
  datatype Terms = Terms(
    bigEndian: bool, realIsDouble: bool, modern: bool, v2: bool, namedIds: bool, version: nat,
    strings: seq<seq<byte>>, externals: nat, internals: nat, ids: map<nat, nat>, text: nat, depth: nat, sizes: Sizes)

  function TermsOf(env: Env): Terms
  {
    Terms(env.bigEndian, env.realIsDouble, env.modern, env.v2, env.namedIds, env.version,
          env.strings, |env.externals|, |env.internals|, env.ids, env.limits.text, env.limits.depth, env.sizes)
  }

  /** A name, by its place in the string table or spelt out. */
  datatype WName = Indexed(place: nat) | Inline(text: seq<byte>)

  datatype WReference =
    | WNowhere
    | WPositional(index: nat)
    | WById(id: nat)
    | WSpelt(kind: seq<byte>, path: seq<byte>)
    | WExternal(index: nat)

  datatype Wire =
    | WNil
    | WBoolean(flag: bool)
    | WInteger(width: nat, number: int)
    | WReal(bits: nat)
    | WDouble(bits: nat)
    | WText(text: seq<byte>)
    | WRaw(bytes: seq<byte>)
    | WIntegers(width: nat, numbers: seq<int>)
    | WReals(numerals: seq<nat>)
    | WDoubles(numerals: seq<nat>)
    | WStrings(texts: seq<seq<byte>>)
    | WItems(shared: bool, items: seq<Wire>)
    | WDictionary(shared: bool, pairs: seq<WPair>)
    | WObject(reference: WReference)
    | WNoImage
    | WImage(encoding: nat, width: nat, height: nat, mipmaps: nat, format: nat, bytes: seq<byte>)
    | WNodePath(absolute: bool, names: seq<WName>, subnames: seq<WName>)
    | WStringName(text: seq<byte>)
    | WInputEvent
    | WFixed(tag: nat, bytes: seq<byte>)
    | WCounted(tag: nat, count: nat, bytes: seq<byte>)

  datatype WPair = WPair(key: Wire, entry: Wire)

  const TOP := 0x8000_0000

  // ---- numbers

  function Num(big: bool, value: nat, width: nat): (r: seq<byte>)
    ensures |r| == width
  {
    if big then BigEndian(value, width) else LittleEndian(value, width)
  }

  function Nums(big: bool, values: seq<nat>, width: nat): (r: seq<byte>)
    ensures |r| == |values| * width
  {
    if values == [] then [] else
      assert |values| * width == width + (|values| - 1) * width;
      Num(big, values[0], width) + Nums(big, values[1..], width)
  }

  /** Two to the power of the bits of a field. */
  function Span(width: nat): nat
  {
    if width == 4 then 0x1_0000_0000 else 0x1_0000_0000_0000_0000
  }

  /** Two's complement. */
  function Wrap(number: int, width: nat): (bits: nat)
    requires InRange(number, width)
    ensures bits < Span(width)
  {
    if number < 0 then number + Span(width) else number
  }

  predicate InRange(number: int, width: nat)
  {
    0 <= 2 * number + Span(width) < 2 * Span(width)
  }

  function Wraps(numbers: seq<int>, width: nat): seq<nat>
    requires forall i :: 0 <= i < |numbers| ==> InRange(numbers[i], width)
  {
    seq(|numbers|, i requires 0 <= i < |numbers| => Wrap(numbers[i], width))
  }

  /** The width of the engine's reals, and of the elements of a packed array of reals. */
  function Single(e: Terms): nat
  {
    if e.realIsDouble then 8 else 4
  }

  function Packed(e: Terms): nat
  {
    if e.modern || !e.realIsDouble then 4 else 8
  }

  // ---- texts, names and payloads

  /** A length that counts the terminator, the text, and the terminator. */
  function PrintText(big: bool, s: seq<byte>): (r: seq<byte>)
    ensures |r| == |s| + 5
  {
    Num(big, |s| + 1, 4) + (s + [0])
  }

  function PrintTexts(big: bool, texts: seq<seq<byte>>): (r: seq<byte>)
    ensures |r| >= 4 * |texts|
  {
    if texts == [] then [] else PrintText(big, texts[0]) + PrintTexts(big, texts[1..])
  }

  function PrintName(big: bool, n: WName): (r: seq<byte>)
    ensures |r| >= 4
  {
    match n
    case Indexed(place) => Num(big, place, 4)
    case Inline(text) => Num(big, TOP + |text| + 1, 4) + (text + [0])
  }

  function PrintNames(big: bool, names: seq<WName>): seq<byte>
  {
    if names == [] then [] else PrintName(big, names[0]) + PrintNames(big, names[1..])
  }

  function Padding(length: nat): (r: seq<byte>)
    ensures (length + |r|) % 4 == 0 && |r| < 4
  {
    if length % 4 == 0 then [] else if length % 4 == 1 then [0, 0, 0] else if length % 4 == 2 then [0, 0] else [0]
  }

  /** A length, the bytes, and zeros up to a multiple of four. */
  function PrintPayload(big: bool, bytes: seq<byte>): (r: seq<byte>)
  {
    Num(big, |bytes|, 4) + (bytes + Padding(|bytes|))
  }

  // ---- values

  /** The bytes of a kind that is skipped whole: vectors, transforms, colours and the like. */
  function FixedSize(e: Terms, tag: nat): Option<nat>
  {
    var r := Single(e);
    match tag
    case 10 => Some(2 * r)   // Vector2
    case 11 => Some(4 * r)   // Rect2
    case 12 => Some(3 * r)   // Vector3
    case 13 => Some(4 * r)   // Plane
    case 14 => Some(4 * r)   // Quaternion
    case 15 => Some(6 * r)   // AABB
    case 16 => Some(9 * r)   // Basis
    case 17 => Some(12 * r)  // Transform
    case 18 => Some(6 * r)   // Transform2D
    case 20 => Some(if e.modern then 16 else 4 * r)  // Color
    case 23 => Some(4)       // RID
    case _ =>
      if !e.modern then None
      else match tag
        case 42 => Some(0)       // Callable
        case 43 => Some(0)       // Signal
        case 45 => Some(8)       // Vector2i
        case 46 => Some(16)      // Rect2i
        case 47 => Some(12)      // Vector3i
        case 50 => Some(4 * r)   // Vector4
        case 51 => Some(16)      // Vector4i
        case 52 => Some(16 * r)  // Projection
        case _ => None
  }

  /** The bytes of one element of a packed array that is skipped whole. */
  function ElementSize(e: Terms, tag: nat): Option<nat>
  {
    var r := Single(e);
    match tag
    case 35 => Some(3 * r)                           // Vector3
    case 36 => Some(if e.modern then 16 else 4 * r)  // Color
    case 37 => Some(2 * r)                           // Vector2
    case 53 => if e.modern then Some(4 * r) else None  // Vector4
    case _ => None
  }

  function Tag(w: Wire): nat
  {
    match w
    case WNil => 1
    case WBoolean(_) => 2
    case WInteger(width, _) => if width == 4 then 3 else 40
    case WReal(_) => 4
    case WDouble(_) => 41
    case WText(_) => 5
    case WRaw(_) => 31
    case WIntegers(width, _) => if width == 4 then 32 else 48
    case WReals(_) => 33
    case WDoubles(_) => 49
    case WStrings(_) => 34
    case WItems(_, _) => 30
    case WDictionary(_, _) => 26
    case WObject(_) => 24
    case WNoImage => 21
    case WImage(_, _, _, _, _, _) => 21
    case WNodePath(_, _, _) => 22
    case WStringName(_) => 44
    case WInputEvent => 25
    case WFixed(tag, _) => tag
    case WCounted(tag, _, _) => tag
  }

  /** Formats before the third read one name more than the count of subnames says. */
  function Extra(e: Terms): nat
  {
    if e.version < 3 then 1 else 0
  }

  function PrintReference(big: bool, r: WReference): seq<byte>
  {
    match r
    case WNowhere => Num(big, 0, 4)
    case WPositional(index) => Num(big, 2, 4) + Num(big, index, 4)
    case WById(id) => Num(big, 2, 4) + Num(big, id, 4)
    case WSpelt(kind, path) => Num(big, 1, 4) + (PrintText(big, kind) + PrintText(big, path))
    case WExternal(index) => Num(big, 3, 4) + Num(big, index, 4)
  }

  /** The dimensions of an image, which only the first encoding has. */
  function PrintDetails(big: bool, w: Wire): (r: seq<byte>)
    requires w.WImage?
    ensures |r| == if w.encoding == 1 then 16 else 0
  {
    if w.encoding == 1 then Nums(big, [w.width, w.height, w.mipmaps, w.format], 4) else []
  }

  function Print(e: Terms, w: Wire): (r: seq<byte>)
    requires Writable(e, w)
    ensures |r| >= 4
    decreases w, 1
  {
    Num(e.bigEndian, Tag(w), 4) + Contents(e, w)
  }

  function Contents(e: Terms, w: Wire): seq<byte>
    requires Writable(e, w)
    decreases w, 0
  {
    match w
    case WNil => []
    case WBoolean(flag) => Num(e.bigEndian, if flag then 1 else 0, 4)
    case WInteger(width, number) => Num(e.bigEndian, Wrap(number, width), width)
    case WReal(bits) => Num(e.bigEndian, bits, Single(e))
    case WDouble(bits) => Num(e.bigEndian, bits, 8)
    case WText(text) => PrintText(e.bigEndian, text)
    case WRaw(bytes) => PrintPayload(e.bigEndian, bytes)
    case WIntegers(width, numbers) => Num(e.bigEndian, |numbers|, 4) + Nums(e.bigEndian, Wraps(numbers, width), width)
    case WReals(numerals) => Num(e.bigEndian, |numerals|, 4) + Nums(e.bigEndian, numerals, Packed(e))
    case WDoubles(numerals) => Num(e.bigEndian, |numerals|, 4) + Nums(e.bigEndian, numerals, 8)
    case WStrings(texts) => Num(e.bigEndian, |texts|, 4) + PrintTexts(e.bigEndian, texts)
    case WItems(shared, items) => Num(e.bigEndian, |items| + (if shared then TOP else 0), 4) + PrintAll(e, items)
    case WDictionary(shared, pairs) => Num(e.bigEndian, |pairs| + (if shared then TOP else 0), 4) + PrintPairs(e, pairs)
    case WObject(reference) => PrintReference(e.bigEndian, reference)
    case WNoImage => Num(e.bigEndian, 0, 4)
    case WImage(encoding, _, _, _, _, bytes) => Num(e.bigEndian, encoding, 4) + (PrintDetails(e.bigEndian, w) + PrintPayload(e.bigEndian, bytes))
    case WNodePath(absolute, names, subnames) =>
      Num(e.bigEndian, |names|, 2) + (Num(e.bigEndian, |subnames| - Extra(e) + (if absolute then 0x8000 else 0), 2) + (PrintNames(e.bigEndian, names) + PrintNames(e.bigEndian, subnames)))
    case WStringName(text) => PrintText(e.bigEndian, text)
    case WInputEvent => []
    case WFixed(_, bytes) => bytes
    case WCounted(_, count, bytes) => Num(e.bigEndian, count, 4) + bytes
  }

  function PrintAll(e: Terms, ws: seq<Wire>): (r: seq<byte>)
    requires forall w :: w in ws ==> Writable(e, w)
    ensures |r| >= 4 * |ws|
    decreases ws
  {
    if ws == [] then [] else Print(e, ws[0]) + PrintAll(e, ws[1..])
  }

  function PrintPairs(e: Terms, pairs: seq<WPair>): (r: seq<byte>)
    requires forall p :: p in pairs ==> Writable(e, p.key) && Writable(e, p.entry)
    ensures |r| >= 8 * |pairs|
    decreases pairs
  {
    if pairs == [] then [] else PrintPair(e, pairs[0]) + PrintPairs(e, pairs[1..])
  }

  function PrintPair(e: Terms, p: WPair): (r: seq<byte>)
    requires Writable(e, p.key) && Writable(e, p.entry)
    ensures |r| >= 8
    decreases p
  {
    Print(e, p.key) + Print(e, p.entry)
  }

  // ---- what can be written

  predicate TextOk(most: nat, s: seq<byte>)
  {
    |s| + 1 <= most && |s| + 1 < TOP && Utf8.WellFormed(s) && 0 !in s
  }

  /** Version 2 has no inline names. */
  predicate NameOk(e: Terms, n: WName)
  {
    match n
    case Indexed(place) => place < |e.strings| && place < TOP
    case Inline(text) => !e.v2 && TextOk(e.text, text)
  }

  predicate ReferenceOk(e: Terms, r: WReference)
  {
    match r
    case WNowhere => true
    case WPositional(index) => e.modern && e.namedIds && index < e.internals && index < SPAN32
    case WById(id) => !(e.modern && e.namedIds) && id in e.ids && id < SPAN32
    case WSpelt(kind, path) => TextOk(e.text, kind) && TextOk(e.text, path)
    case WExternal(index) => index < e.externals && index < SPAN32
  }

  predicate BitsOk(numerals: seq<nat>, width: nat)
  {
    |numerals| < SPAN32 && forall i :: 0 <= i < |numerals| ==> numerals[i] < Span(width)
  }

  /** No two text keys of a dictionary are equal when all of its keys are texts. */
  predicate KeysOk(pairs: seq<WPair>)
  {
    (forall i :: 0 <= i < |pairs| ==> pairs[i].key.WText?) ==>
      forall i, j :: 0 <= i < j < |pairs| ==> pairs[i].key != pairs[j].key
  }

  predicate Writable(e: Terms, w: Wire)
  {
    match w
    case WNil => true
    case WBoolean(_) => true
    case WInteger(width, number) => (width == 4 || width == 8) && InRange(number, width)
    case WReal(bits) => bits < Span(Single(e))
    case WDouble(bits) => bits < Span(8)
    case WText(text) => TextOk(e.text, text)
    case WRaw(bytes) => |bytes| < SPAN32
    case WIntegers(width, numbers) =>
      (width == 4 || (width == 8 && e.modern)) && |numbers| < SPAN32 && forall i :: 0 <= i < |numbers| ==> InRange(numbers[i], width)
    case WReals(numerals) => BitsOk(numerals, Packed(e))
    case WDoubles(numerals) => e.modern && BitsOk(numerals, 8)
    case WStrings(texts) => |texts| < SPAN32 && forall t :: t in texts ==> TextOk(e.text, t)
    case WItems(_, items) => |items| < TOP && forall x :: x in items ==> Writable(e, x)
    case WDictionary(_, pairs) => |pairs| < TOP && KeysOk(pairs) && forall p :: p in pairs ==> Writable(e, p.key) && Writable(e, p.entry)
    case WObject(reference) => ReferenceOk(e, reference)
    case WNoImage => !e.modern
    case WImage(encoding, width, height, mipmaps, format, bytes) =>
      && !e.modern && 0 < encoding < SPAN32 && |bytes| < SPAN32
      && width < SPAN32 && height < SPAN32 && mipmaps < SPAN32 && format < (if e.v2 then SPAN32 else 0x100_0000)
      && (encoding != 1 ==> width == height == mipmaps == format == 0)
    case WNodePath(_, names, subnames) =>
      && |names| < 0x1_0000 && Extra(e) <= |subnames| < 0x8000 + Extra(e)
      && (forall n :: n in names ==> NameOk(e, n)) && forall n :: n in subnames ==> NameOk(e, n)
    case WStringName(text) => e.modern && TextOk(e.text, text)
    case WInputEvent => e.v2 && !e.modern
    case WFixed(tag, bytes) => FixedSize(e, tag) == Some(|bytes|)
    case WCounted(tag, count, bytes) =>
      count < SPAN32 && ElementSize(e, tag).Some? && |bytes| == count * ElementSize(e, tag).value
  }

  // ---- what it stands for

  function Referred(e: Terms, r: WReference): Reference
    requires ReferenceOk(e, r)
  {
    match r
    case WNowhere => EmptyReference
    case WPositional(index) => InternalReference(index)
    case WById(id) => LegacyReference(e.ids[id], id)
    case WSpelt(kind, path) => InlineReference(kind, path)
    case WExternal(index) => ExternalReference(index)
  }

  function Texts(texts: seq<seq<byte>>): seq<Value>
  {
    seq(|texts|, i requires 0 <= i < |texts| => Text(texts[i]))
  }

  predicate AllTexts(pairs: seq<WPair>)
  {
    forall i :: 0 <= i < |pairs| ==> pairs[i].key.WText?
  }

  /** The value of what is written at `at`; only payloads remember where they lie. */
  function Meaning(e: Terms, w: Wire, at: nat): Value
    requires Writable(e, w)
    decreases w
  {
    match w
    case WNil => Nil
    case WBoolean(flag) => Boolean(flag)
    case WInteger(_, number) => Integer(number)
    case WReal(bits) => Real(bits, Single(e))
    case WDouble(bits) => Real(bits, 8)
    case WText(text) => Text(text)
    case WRaw(bytes) => Raw(Blob(bytes, at + 8, |bytes|))
    case WIntegers(_, numbers) => Integers(numbers)
    case WReals(numerals) => Reals(numerals, Packed(e))
    case WDoubles(numerals) => Reals(numerals, 8)
    case WStrings(texts) => Items(Texts(texts))
    case WItems(_, items) => Items(Meanings(e, items, at + 8))
    case WDictionary(_, pairs) => if AllTexts(pairs) then Dictionary(Entries(e, pairs, at + 8)) else Unsupported
    case WObject(reference) => Object(Referred(e, reference))
    case WNoImage => Nil
    case WImage(encoding, width, height, mipmaps, format, bytes) =>
      Image(encoding, width, height, mipmaps, format, Blob(bytes, at + 12 + (if encoding == 1 then 16 else 0), |bytes|))
    case _ => Unsupported
  }

  function Meanings(e: Terms, ws: seq<Wire>, at: nat): seq<Value>
    requires forall w :: w in ws ==> Writable(e, w)
    decreases ws
  {
    if ws == [] then [] else [Meaning(e, ws[0], at)] + Meanings(e, ws[1..], at + |Print(e, ws[0])|)
  }

  /** The entries of a dictionary with text keys, in order. */
  function Entries(e: Terms, pairs: seq<WPair>, at: nat): seq<Property>
    requires AllTexts(pairs) && forall p :: p in pairs ==> Writable(e, p.key) && Writable(e, p.entry)
    decreases pairs
  {
    if pairs == [] then []
    else
      [EntryOf(e, pairs[0], at)] + Entries(e, pairs[1..], at + |PrintPair(e, pairs[0])|)
  }

  function EntryOf(e: Terms, p: WPair, at: nat): Property
    requires p.key.WText? && Writable(e, p.key) && Writable(e, p.entry)
    decreases p
  {
    Property(p.key.text, Meaning(e, p.entry, at + |Print(e, p.key)|))
  }

  // ---- what reading it takes

  /** The values a form holds, itself included. */
  function Nodes(w: Wire): (n: nat)
    ensures n > 0
  {
    match w
    case WStrings(texts) => 1 + |texts|
    case WItems(_, items) => 1 + NodesOfAll(items)
    case WDictionary(_, pairs) => 1 + NodesOfPairs(pairs)
    case _ => 1
  }

  function NodesOfAll(ws: seq<Wire>): (n: nat)
    ensures n >= |ws|
  {
    if ws == [] then 0 else Nodes(ws[0]) + NodesOfAll(ws[1..])
  }

  function NodesOfPairs(pairs: seq<WPair>): (n: nat)
    ensures n >= 2 * |pairs|
  {
    if pairs == [] then 0 else NodesOfPair(pairs[0]) + NodesOfPairs(pairs[1..])
  }

  function NodesOfPair(p: WPair): (n: nat)
    ensures n >= 2
  {
    Nodes(p.key) + Nodes(p.entry)
  }

  function NameCost(e: Terms, n: WName): nat
    requires NameOk(e, n)
  {
    match n
    case Indexed(place) => |e.strings[place]| + 1
    case Inline(text) => |text| + 1
  }

  function NamesCost(e: Terms, names: seq<WName>): nat
    requires forall n :: n in names ==> NameOk(e, n)
  {
    if names == [] then 0 else NameCost(e, names[0]) + NamesCost(e, names[1..])
  }

  function TextsCost(texts: seq<seq<byte>>): nat
  {
    if texts == [] then 0 else |texts[0]| + 1 + TextsCost(texts[1..])
  }

  function StringsCost(e: Terms, texts: seq<seq<byte>>): nat
  {
    |texts| * e.sizes.value + TextsCost(texts)
  }

  /** The allocation that reading a form is charged with. */
  function Cost(e: Terms, w: Wire): nat
    requires Writable(e, w)
    decreases w
  {
    match w
    case WText(text) => |text| + 1
    case WRaw(bytes) => |bytes|
    case WIntegers(_, numbers) => |numbers| * 8
    case WReals(numerals) => |numerals| * 8
    case WDoubles(numerals) => |numerals| * 8
    case WStrings(texts) => StringsCost(e, texts)
    case WItems(_, items) => |items| * e.sizes.value + CostOfAll(e, items)
    case WDictionary(_, pairs) =>
      |pairs| * e.sizes.property + |pairs| * e.sizes.value + CostOfPairs(e, pairs) + (if AllTexts(pairs) then |pairs| * e.sizes.index else 0)
    case WObject(WSpelt(kind, path)) => |kind| + 1 + (|path| + 1)
    case WImage(_, _, _, _, _, bytes) => |bytes|
    case WNodePath(_, names, subnames) => NamesCost(e, names) + NamesCost(e, subnames)
    case WStringName(text) => |text| + 1
    case _ => 0
  }

  function CostOfAll(e: Terms, ws: seq<Wire>): nat
    requires forall w :: w in ws ==> Writable(e, w)
    decreases ws
  {
    if ws == [] then 0 else Cost(e, ws[0]) + CostOfAll(e, ws[1..])
  }

  function CostOfPairs(e: Terms, pairs: seq<WPair>): nat
    requires forall p :: p in pairs ==> Writable(e, p.key) && Writable(e, p.entry)
    decreases pairs
  {
    if pairs == [] then 0 else CostOfPair(e, pairs[0]) + CostOfPairs(e, pairs[1..])
  }

  function CostOfPair(e: Terms, p: WPair): nat
    requires Writable(e, p.key) && Writable(e, p.entry)
    decreases p
  {
    Cost(e, p.key) + Cost(e, p.entry)
  }

  /** No value lies deeper than the limit when the form is at `depth`. */
  predicate Shallow(e: Terms, w: Wire, depth: nat)
  {
    depth <= e.depth
    && match w
       case WStrings(texts) => texts != [] ==> depth < e.depth
       case WItems(_, items) => forall x :: x in items ==> Shallow(e, x, depth + 1)
       case WDictionary(_, pairs) => forall p :: p in pairs ==> Shallow(e, p.key, depth + 1) && Shallow(e, p.entry, depth + 1)
       case _ => true
  }
}
