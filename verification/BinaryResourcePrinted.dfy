/** Reading a written value gives the value it stands for, and stands behind it. */
module BinaryResourcePrinted {
  import opened Bytes
  import opened BinaryResource
  import opened BinaryResourceWire
  import Utf8

  /** The bytes lie in the input at a position. */
  predicate At(env: Env, pos: nat, bytes: seq<byte>)
  {
    pos + |bytes| <= |env.data| && env.data[pos..pos + |bytes|] == bytes
  }

  lemma AtBoth(env: Env, pos: nat, a: seq<byte>, b: seq<byte>)
    requires At(env, pos, a + b)
    ensures At(env, pos, a) && At(env, pos + |a|, b)
  {
    var whole := a + b;
    SliceOfSlice(env.data, pos, pos + |whole|, 0, |a|);
    SliceOfSlice(env.data, pos, pos + |whole|, |a|, |whole|);
    assert whole[..|a|] == a && whole[|a|..] == b;
  }

  /** The full mode, with room for some charges and nodes. */
  predicate Room(env: Env, c: Cursor, cost: nat, nodes: nat)
  {
    !c.metadata && c.alloc + cost <= env.limits.allocation && c.nodes + nodes <= env.limits.nodes
  }

  function Moved(c: Cursor, size: nat, cost: nat, nodes: nat): Cursor
  {
    c.(pos := c.pos + size, alloc := c.alloc + cost, nodes := c.nodes + nodes)
  }

  /** A read gave a value and moved by that much; what it passed of prefixes is left open. */
  predicate Gives<T(==)>(r: Result<Read<T>>, value: T, c: Cursor, size: nat, cost: nat, nodes: nat)
  {
    r.Ok? && r.value.value == value && r.value.at.(widest := c.widest) == Moved(c, size, cost, nodes)
  }

  // ---- numbers

  lemma Spans()
    ensures Pow256(2) == 0x1_0000 && Pow256(4) == Span(4) && Pow256(8) == Span(8)
  {
    assert Pow256(2) == 0x1_0000;
    assert Pow256(4) == SPAN32;
    assert Pow256(6) == 0x1_0000_0000_0000;
  }

  lemma NumReads(env: Env, c: Cursor, value: nat, width: nat)
    requires value < Pow256(width) && At(env, c.pos, Num(env.bigEndian, value, width))
    ensures Word(env, c, width) == Ok(Read(value, Moved(c, width, 0, 0)))
  {
    hide Unsigned, Reversed, LittleEndian, BigEndian;
    UnsignedOfBytes(value, width);
    UnsignedOfReversed(value, width);
  }

  lemma WordReads(env: Env, c: Cursor, value: nat)
    requires value < SPAN32 && At(env, c.pos, Num(env.bigEndian, value, 4))
    ensures Word(env, c, 4) == Ok(Read(value, Moved(c, 4, 0, 0)))
  {
    hide Word, Num;
    Spans();
    NumReads(env, c, value, 4);
  }

  lemma {:induction false} NumsRead(env: Env, c: Cursor, values: seq<nat>, width: nat)
    requires (width == 4 || width == 8) && (forall i :: 0 <= i < |values| ==> values[i] < Span(width))
    requires At(env, c.pos, Nums(env.bigEndian, values, width))
    ensures Words(env, c, width, |values|) == Ok(Read(values, Moved(c, |values| * width, 0, 0)))
    decreases |values|
  {
    hide Word, Num, At;
    if values == [] {
      assert Nums(env.bigEndian, values, width) == [];
    } else {
      AtBoth(env, c.pos, Num(env.bigEndian, values[0], width), Nums(env.bigEndian, values[1..], width));
      Spans();
      NumReads(env, c, values[0], width);
      NumsRead(env, Moved(c, width, 0, 0), values[1..], width);
      assert [values[0]] + values[1..] == values;
      assert |values| * width == width + (|values| - 1) * width;
    }
  }

  lemma CountReads(env: Env, c: Cursor, count: nat, minimum: nat, rest: seq<byte>)
    requires count < SPAN32 && At(env, c.pos, Num(env.bigEndian, count, 4) + rest) && count * minimum <= |rest|
    ensures Count(env, c, minimum) == Ok(Read(count, Moved(c, 4, 0, 0)))
    ensures At(env, c.pos + 4, rest)
  {
    hide Word, Num;
    AtBoth(env, c.pos, Num(env.bigEndian, count, 4), rest);
    WordReads(env, c, count);
  }

  lemma SharedCountReads(env: Env, c: Cursor, count: nat, shared: bool, minimum: nat, rest: seq<byte>)
    requires count < TOP && At(env, c.pos, Num(env.bigEndian, count + (if shared then TOP else 0), 4) + rest) && count * minimum <= |rest|
    ensures SharedCount(env, c, minimum) == Ok(Read(count, Moved(c, 4, 0, 0)))
    ensures At(env, c.pos + 4, rest)
  {
    hide Word, Num;
    var field := count + (if shared then TOP else 0);
    AtBoth(env, c.pos, Num(env.bigEndian, field, 4), rest);
    WordReads(env, c, field);
    assert field % 0x8000_0000 == count;
  }

  // ---- texts and names

  lemma TextBodyReads(env: Env, c: Cursor, s: seq<byte>)
    requires TextOk(env.limits.text, s) && At(env, c.pos, s + [0]) && Room(env, c, |s| + 1, 0)
    ensures StringBody(env, c, |s| + 1) == Ok(Read(s, Moved(c, |s| + 1, |s| + 1, 0)))
  {
    hide Utf8.WellFormed;
    var whole := s + [0];
    assert whole[..|s|] == s && whole[|s|] == 0;
  }

  lemma TextReads(env: Env, c: Cursor, s: seq<byte>)
    requires TextOk(env.limits.text, s) && At(env, c.pos, PrintText(env.bigEndian, s)) && Room(env, c, |s| + 1, 0)
    ensures UnicodeString(env, c) == Ok(Read(s, Moved(c, |s| + 5, |s| + 1, 0)))
  {
    hide Word, Num, StringBody, At, Utf8.WellFormed;
    AtBoth(env, c.pos, Num(env.bigEndian, |s| + 1, 4), s + [0]);
    WordReads(env, c, |s| + 1);
    TextBodyReads(env, Moved(c, 4, 0, 0), s);
  }

  lemma NameReads(env: Env, c: Cursor, n: WName)
    requires NameOk(TermsOf(env), n) && At(env, c.pos, PrintName(env.bigEndian, n)) && Room(env, c, NameCost(TermsOf(env), n), 0)
    ensures var r := Name(env, c); r.Ok? && r.value.at == Moved(c, |PrintName(env.bigEndian, n)|, NameCost(TermsOf(env), n), 0)
    ensures Name(env, c).value.value == match n case Indexed(place) => env.strings[place] case Inline(text) => text
  {
    hide Word, Num, StringBody, Utf8.WellFormed;
    match n
    case Indexed(place) => WordReads(env, c, place);
    case Inline(text) =>
      AtBoth(env, c.pos, Num(env.bigEndian, TOP + |text| + 1, 4), text + [0]);
      WordReads(env, c, TOP + |text| + 1);
      TextBodyReads(env, Moved(c, 4, 0, 0), text);
  }

  lemma {:induction false} NamesRead(env: Env, c: Cursor, names: seq<WName>)
    requires (forall n :: n in names ==> NameOk(TermsOf(env), n)) && At(env, c.pos, PrintNames(env.bigEndian, names)) && Room(env, c, NamesCost(TermsOf(env), names), 0)
    ensures SkipNames(env, c, |names|) == Ok(Moved(c, |PrintNames(env.bigEndian, names)|, NamesCost(TermsOf(env), names), 0))
    decreases |names|
  {
    hide Name, PrintName, NameCost, NameOk, At;
    if names != [] {
      AtBoth(env, c.pos, PrintName(env.bigEndian, names[0]), PrintNames(env.bigEndian, names[1..]));
      NameReads(env, c, names[0]);
      NamesRead(env, Moved(c, |PrintName(env.bigEndian, names[0])|, NameCost(TermsOf(env), names[0]), 0), names[1..]);
    }
  }

  // ---- payloads

  lemma PayloadReads(env: Env, c: Cursor, bytes: seq<byte>)
    requires |bytes| < SPAN32 && At(env, c.pos, PrintPayload(env.bigEndian, bytes)) && Room(env, c, |bytes|, 0)
    ensures Gives(Payload(env, c), Blob(bytes, c.pos + 4, |bytes|), c, |PrintPayload(env.bigEndian, bytes)|, |bytes|, 0)
  {
    hide Count, Body, Num, At;
    CountReads(env, c, |bytes|, 1, bytes + Padding(|bytes|));
    AtBoth(env, c.pos + 4, bytes, Padding(|bytes|));
    BodyReads(env, Moved(c, 4, 0, 0), bytes);
  }

  lemma BodyReads(env: Env, c: Cursor, bytes: seq<byte>)
    requires At(env, c.pos, bytes) && c.pos + |bytes| + |Padding(|bytes|)| <= |env.data| && Room(env, c, |bytes|, 0)
    ensures Gives(Body(env, c, |bytes|), Blob(bytes, c.pos, |bytes|), c, |bytes| + |Padding(|bytes|)|, |bytes|, 0)
  {
    assert (4 - |bytes| % 4) % 4 == |Padding(|bytes|)|;
  }

  // ---- values without children

  lemma SignedWraps(number: int, width: nat)
    requires (width == 4 || width == 8) && InRange(number, width)
    ensures Signed(Wrap(number, width), width) == number
  {
  }

  lemma ScalarReads(env: Env, c: Cursor, value: nat, width: nat, isReal: bool)
    requires (width == 4 || width == 8) && value < Span(width) && At(env, c.pos, Num(env.bigEndian, value, width))
    ensures DecodeScalar(env, c, width, isReal)
         == Ok(Read(if isReal then Real(value, width) else Integer(Signed(value, width)), Moved(c, width, 0, 0)))
  {
    hide Word, Num, Signed;
    Spans();
    NumReads(env, c, value, width);
  }

  lemma NumbersRead(env: Env, c: Cursor, values: seq<nat>, width: nat, isReal: bool)
    requires (width == 4 || width == 8) && BitsOk(values, width) && Room(env, c, |values| * 8, 0)
    requires At(env, c.pos, Num(env.bigEndian, |values|, 4) + Nums(env.bigEndian, values, width))
    ensures DecodeNumbers(env, c, width, isReal)
         == Ok(Read(if isReal then Reals(values, width) else Integers(SignedAll(values, width)),
                    Moved(c, 4 + |values| * width, |values| * 8, 0)))
  {
    hide Count, Words, Num, SignedAll, At, Nums;
    CountReads(env, c, |values|, width, Nums(env.bigEndian, values, width));
    NumsRead(env, Moved(c, 4, |values| * 8, 0), values, width);
  }

  lemma IntegersRead(env: Env, c: Cursor, width: nat, numbers: seq<int>)
    requires Writable(TermsOf(env), WIntegers(width, numbers)) && Room(env, c, |numbers| * 8, 0)
    requires At(env, c.pos, Contents(TermsOf(env), WIntegers(width, numbers)))
    ensures DecodeNumbers(env, c, width, false)
         == Ok(Read(Integers(numbers), Moved(c, |Contents(TermsOf(env), WIntegers(width, numbers))|, |numbers| * 8, 0)))
  {
    hide DecodeNumbers, Num, Nums, At, Signed;
    var values := Wraps(numbers, width);
    NumbersRead(env, c, values, width, false);
    forall i | 0 <= i < |numbers| ensures SignedAll(values, width)[i] == numbers[i] { SignedWraps(numbers[i], width); }
    assert SignedAll(values, width) == numbers;
  }

  lemma ReferenceReads(env: Env, c: Cursor, r: WReference)
    requires ReferenceOk(TermsOf(env), r) && At(env, c.pos, PrintReference(env.bigEndian, r)) && Room(env, c, Cost(TermsOf(env), WObject(r)), 0)
    ensures DecodeObject(env, c) == Ok(Read(Object(Referred(TermsOf(env), r)), Moved(c, |PrintReference(env.bigEndian, r)|, Cost(TermsOf(env), WObject(r)), 0)))
  {
    hide Word, Num, UnicodeString, At, TextOk, PrintText;
    match r
    case WNowhere => WordReads(env, c, 0);
    case WPositional(index) => IndexReads(env, c, 2, index);
    case WById(id) => IndexReads(env, c, 2, id);
    case WExternal(index) => IndexReads(env, c, 3, index);
    case WSpelt(kind, path) =>
      AtBoth(env, c.pos, Num(env.bigEndian, 1, 4), PrintText(env.bigEndian, kind) + PrintText(env.bigEndian, path));
      AtBoth(env, c.pos + 4, PrintText(env.bigEndian, kind), PrintText(env.bigEndian, path));
      WordReads(env, c, 1);
      TextReads(env, Moved(c, 4, 0, 0), kind);
      TextReads(env, Moved(c, 4 + |PrintText(env.bigEndian, kind)|, |kind| + 1, 0), path);
  }

  lemma IndexReads(env: Env, c: Cursor, form: nat, index: nat)
    requires form < SPAN32 && index < SPAN32 && At(env, c.pos, Num(env.bigEndian, form, 4) + Num(env.bigEndian, index, 4))
    ensures Word(env, c, 4) == Ok(Read(form, Moved(c, 4, 0, 0)))
    ensures Word(env, Moved(c, 4, 0, 0), 4) == Ok(Read(index, Moved(c, 8, 0, 0)))
  {
    hide Word, Num, At;
    AtBoth(env, c.pos, Num(env.bigEndian, form, 4), Num(env.bigEndian, index, 4));
    WordReads(env, c, form);
    WordReads(env, Moved(c, 4, 0, 0), index);
  }

  lemma DetailsRead(env: Env, c: Cursor, w: Wire)
    requires w.WImage? && Writable(TermsOf(env), w) && At(env, c.pos, PrintDetails(env.bigEndian, w))
    ensures ImageDetails(env, c, w.encoding) == Ok(Read([w.width, w.height, w.mipmaps, w.format], Moved(c, |PrintDetails(env.bigEndian, w)|, 0, 0)))
  {
    hide Words, Nums, At;
    if w.encoding == 1 { NumsRead(env, c, [w.width, w.height, w.mipmaps, w.format], 4); }
  }

  lemma ImageReads(env: Env, c: Cursor, w: Wire)
    requires w.WImage? && Writable(TermsOf(env), w) && c.pos >= 4 && At(env, c.pos, Contents(TermsOf(env), w)) && Room(env, c, |w.bytes|, 0)
    ensures Gives(DecodeImage(env, c), Meaning(TermsOf(env), w, c.pos - 4), c, |Contents(TermsOf(env), w)|, |w.bytes|, 0)
  {
    hide Word, Num, ImageDetails, Payload, At, PrintDetails, PrintPayload;
    var details, payload := PrintDetails(env.bigEndian, w), PrintPayload(env.bigEndian, w.bytes);
    AtBoth(env, c.pos, Num(env.bigEndian, w.encoding, 4), details + payload);
    AtBoth(env, c.pos + 4, details, payload);
    WordReads(env, c, w.encoding);
    DetailsRead(env, Moved(c, 4, 0, 0), w);
    PayloadReads(env, Moved(c, 4 + |details|, 0, 0), w.bytes);
  }

  lemma NodePathReads(env: Env, c: Cursor, w: Wire)
    requires w.WNodePath? && Writable(TermsOf(env), w) && At(env, c.pos, Contents(TermsOf(env), w)) && Room(env, c, Cost(TermsOf(env), w), 0)
    ensures DecodeNodePath(env, c) == Ok(Read(Unsupported, Moved(c, |Contents(TermsOf(env), w)|, Cost(TermsOf(env), w), 0)))
  {
    hide Word, Num, SkipNames, At, PrintNames, NamesCost, NameOk;
    var field: nat := |w.subnames| - Extra(TermsOf(env)) + (if w.absolute then 0x8000 else 0);
    var names, subnames := PrintNames(env.bigEndian, w.names), PrintNames(env.bigEndian, w.subnames);
    AtBoth(env, c.pos, Num(env.bigEndian, |w.names|, 2), Num(env.bigEndian, field, 2) + (names + subnames));
    AtBoth(env, c.pos + 2, Num(env.bigEndian, field, 2), names + subnames);
    AtBoth(env, c.pos + 4, names, subnames);
    Spans();
    NumReads(env, c, |w.names|, 2);
    NumReads(env, Moved(c, 2, 0, 0), field, 2);
    assert field % 0x8000 + Extra(TermsOf(env)) == |w.subnames|;
    NamesRead(env, Moved(c, 4, 0, 0), w.names);
    NamesRead(env, Moved(c, 4 + |names|, NamesCost(TermsOf(env), w.names), 0), w.subnames);
  }

  lemma CountedReads(env: Env, c: Cursor, count: nat, element: nat, bytes: seq<byte>)
    requires count < SPAN32 && |bytes| == count * element && At(env, c.pos, Num(env.bigEndian, count, 4) + bytes)
    ensures DecodeCounted(env, c, element) == Ok(Read(Unsupported, Moved(c, 4 + |bytes|, 0, 0)))
  {
    hide Count, Num;
    CountReads(env, c, count, element, bytes);
    assert element * count == count * element;
  }

  lemma FixedTags(env: Env, tag: nat)
    requires FixedSize(TermsOf(env), tag).Some?
    ensures var d := FindTag(env, tag);
            d.Some? && d.value.FixedTag? && ElementWidth(env, d.value.isReal) * d.value.components == FixedSize(TermsOf(env), tag).value
  {
  }

  lemma CountedTags(env: Env, tag: nat)
    requires ElementSize(TermsOf(env), tag).Some?
    ensures var d := FindTag(env, tag);
            d.Some? && d.value.CountedTag? && ElementWidth(env, d.value.isReal) * d.value.components == ElementSize(TermsOf(env), tag).value
  {
  }

  /** The forms without children, tag by tag. */
  predicate Leaf(w: Wire)
  {
    !w.WStrings? && !w.WItems? && !w.WDictionary?
  }

  /** The tag names a decoder, and that decoder gives what the contents stand for. */
  predicate LeafGives(env: Env, c: Cursor, w: Wire)
    requires Leaf(w) && Writable(TermsOf(env), w) && c.pos >= 4
  {
    var d := FindTag(env, Tag(w));
    && d.Some? && !d.value.ItemsTag? && !d.value.DictionaryTag? && !d.value.StringsTag?
    && Gives(DecodeLeaf(env, c, d.value), Meaning(TermsOf(env), w, c.pos - 4), c, |Contents(TermsOf(env), w)|, Cost(TermsOf(env), w), 0)
  }

  lemma LeafReads(env: Env, c: Cursor, w: Wire)
    requires Leaf(w) && Writable(TermsOf(env), w) && c.pos >= 4 && At(env, c.pos, Contents(TermsOf(env), w)) && Room(env, c, Cost(TermsOf(env), w), 0)
    ensures LeafGives(env, c, w)
  {
    hide LeafGives, Writable, At, Contents, Room, Cost;
    match w
    case WNil => NilLeaf(env, c);
    case WBoolean(flag) => BooleanLeaf(env, c, flag);
    case WInteger(width, number) => IntegerLeaf(env, c, width, number);
    case WReal(bits) => RealLeaf(env, c, bits);
    case WDouble(bits) => DoubleLeaf(env, c, bits);
    case WText(text) => TextLeaf(env, c, text);
    case WRaw(bytes) => RawLeaf(env, c, bytes);
    case WIntegers(width, numbers) => IntegersLeaf(env, c, width, numbers);
    case WReals(numerals) => RealsLeaf(env, c, numerals);
    case WDoubles(numerals) => DoublesLeaf(env, c, numerals);
    case WObject(reference) => ObjectLeaf(env, c, reference);
    case WNoImage => NoImageLeaf(env, c);
    case WStringName(text) => StringNameLeaf(env, c, text);
    case WInputEvent => InputEventLeaf(env, c);
    case WFixed(tag, bytes) => FixedLeaf(env, c, tag, bytes);
    case WCounted(tag, count, bytes) => CountedLeaf(env, c, tag, count, bytes);
    case WImage(_, _, _, _, _, _) => ImageLeaf(env, c, w);
    case WNodePath(_, _, _) => NodePathLeaf(env, c, w);
  }

  lemma NilLeaf(env: Env, c: Cursor)
    requires Writable(TermsOf(env), WNil) && c.pos >= 4 && At(env, c.pos, Contents(TermsOf(env), WNil)) && Room(env, c, Cost(TermsOf(env), WNil), 0)
    ensures LeafGives(env, c, WNil)
  {
  }

  lemma BooleanLeaf(env: Env, c: Cursor, flag: bool)
    requires Writable(TermsOf(env), WBoolean(flag)) && c.pos >= 4 && At(env, c.pos, Contents(TermsOf(env), WBoolean(flag))) && Room(env, c, Cost(TermsOf(env), WBoolean(flag)), 0)
    ensures LeafGives(env, c, WBoolean(flag))
  {
    hide Word, Num;
    WordReads(env, c, if flag then 1 else 0);
  }

  lemma IntegerLeaf(env: Env, c: Cursor, width: nat, number: int)
    requires Writable(TermsOf(env), WInteger(width, number)) && c.pos >= 4 && At(env, c.pos, Contents(TermsOf(env), WInteger(width, number))) && Room(env, c, Cost(TermsOf(env), WInteger(width, number)), 0)
    ensures LeafGives(env, c, WInteger(width, number))
  {
    hide DecodeScalar, Num;
    IntegerReads(env, c, width, number);
  }

  lemma RealLeaf(env: Env, c: Cursor, bits: nat)
    requires Writable(TermsOf(env), WReal(bits)) && c.pos >= 4 && At(env, c.pos, Contents(TermsOf(env), WReal(bits))) && Room(env, c, Cost(TermsOf(env), WReal(bits)), 0)
    ensures LeafGives(env, c, WReal(bits))
  {
    hide DecodeScalar, Num;
    ScalarReads(env, c, bits, Single(TermsOf(env)), true);
  }

  lemma DoubleLeaf(env: Env, c: Cursor, bits: nat)
    requires Writable(TermsOf(env), WDouble(bits)) && c.pos >= 4 && At(env, c.pos, Contents(TermsOf(env), WDouble(bits))) && Room(env, c, Cost(TermsOf(env), WDouble(bits)), 0)
    ensures LeafGives(env, c, WDouble(bits))
  {
    hide DecodeScalar, Num;
    ScalarReads(env, c, bits, 8, true);
  }

  lemma TextLeaf(env: Env, c: Cursor, text: seq<byte>)
    requires Writable(TermsOf(env), WText(text)) && c.pos >= 4 && At(env, c.pos, Contents(TermsOf(env), WText(text))) && Room(env, c, Cost(TermsOf(env), WText(text)), 0)
    ensures LeafGives(env, c, WText(text))
  {
    hide UnicodeString, PrintText, TextOk;
    TextReads(env, c, text);
  }

  lemma RawLeaf(env: Env, c: Cursor, bytes: seq<byte>)
    requires Writable(TermsOf(env), WRaw(bytes)) && c.pos >= 4 && At(env, c.pos, Contents(TermsOf(env), WRaw(bytes))) && Room(env, c, Cost(TermsOf(env), WRaw(bytes)), 0)
    ensures LeafGives(env, c, WRaw(bytes))
  {
    hide Payload, PrintPayload;
    PayloadReads(env, c, bytes);
  }

  lemma IntegersLeaf(env: Env, c: Cursor, width: nat, numbers: seq<int>)
    requires Writable(TermsOf(env), WIntegers(width, numbers)) && c.pos >= 4 && At(env, c.pos, Contents(TermsOf(env), WIntegers(width, numbers))) && Room(env, c, Cost(TermsOf(env), WIntegers(width, numbers)), 0)
    ensures LeafGives(env, c, WIntegers(width, numbers))
  {
    hide DecodeNumbers, Num, Nums, Wraps;
    IntegersRead(env, c, width, numbers);
  }

  lemma RealsLeaf(env: Env, c: Cursor, numerals: seq<nat>)
    requires Writable(TermsOf(env), WReals(numerals)) && c.pos >= 4 && At(env, c.pos, Contents(TermsOf(env), WReals(numerals))) && Room(env, c, Cost(TermsOf(env), WReals(numerals)), 0)
    ensures LeafGives(env, c, WReals(numerals))
  {
    hide DecodeNumbers, Num, Nums, BitsOk;
    NumbersRead(env, c, numerals, Packed(TermsOf(env)), true);
  }

  lemma DoublesLeaf(env: Env, c: Cursor, numerals: seq<nat>)
    requires Writable(TermsOf(env), WDoubles(numerals)) && c.pos >= 4 && At(env, c.pos, Contents(TermsOf(env), WDoubles(numerals))) && Room(env, c, Cost(TermsOf(env), WDoubles(numerals)), 0)
    ensures LeafGives(env, c, WDoubles(numerals))
  {
    hide DecodeNumbers, Num, Nums, BitsOk;
    NumbersRead(env, c, numerals, 8, true);
  }

  lemma ObjectLeaf(env: Env, c: Cursor, reference: WReference)
    requires Writable(TermsOf(env), WObject(reference)) && c.pos >= 4 && At(env, c.pos, Contents(TermsOf(env), WObject(reference))) && Room(env, c, Cost(TermsOf(env), WObject(reference)), 0)
    ensures LeafGives(env, c, WObject(reference))
  {
    hide DecodeObject, PrintReference, ReferenceOk, Referred;
    ReferenceReads(env, c, reference);
  }

  lemma NoImageLeaf(env: Env, c: Cursor)
    requires Writable(TermsOf(env), WNoImage) && c.pos >= 4 && At(env, c.pos, Contents(TermsOf(env), WNoImage)) && Room(env, c, Cost(TermsOf(env), WNoImage), 0)
    ensures LeafGives(env, c, WNoImage)
  {
    hide DecodeImage, Num;
    NoImageReads(env, c);
  }

  lemma StringNameLeaf(env: Env, c: Cursor, text: seq<byte>)
    requires Writable(TermsOf(env), WStringName(text)) && c.pos >= 4 && At(env, c.pos, Contents(TermsOf(env), WStringName(text))) && Room(env, c, Cost(TermsOf(env), WStringName(text)), 0)
    ensures LeafGives(env, c, WStringName(text))
  {
    hide UnicodeString, PrintText, TextOk;
    TextReads(env, c, text);
  }

  lemma InputEventLeaf(env: Env, c: Cursor)
    requires Writable(TermsOf(env), WInputEvent) && c.pos >= 4 && At(env, c.pos, Contents(TermsOf(env), WInputEvent)) && Room(env, c, Cost(TermsOf(env), WInputEvent), 0)
    ensures LeafGives(env, c, WInputEvent)
  {
  }

  lemma FixedLeaf(env: Env, c: Cursor, tag: nat, bytes: seq<byte>)
    requires Writable(TermsOf(env), WFixed(tag, bytes)) && c.pos >= 4 && At(env, c.pos, Contents(TermsOf(env), WFixed(tag, bytes))) && Room(env, c, Cost(TermsOf(env), WFixed(tag, bytes)), 0)
    ensures LeafGives(env, c, WFixed(tag, bytes))
  {
    hide FixedSize, FindTag, ElementWidth;
    FixedTags(env, tag);
  }

  lemma CountedLeaf(env: Env, c: Cursor, tag: nat, count: nat, bytes: seq<byte>)
    requires Writable(TermsOf(env), WCounted(tag, count, bytes)) && c.pos >= 4 && At(env, c.pos, Contents(TermsOf(env), WCounted(tag, count, bytes))) && Room(env, c, Cost(TermsOf(env), WCounted(tag, count, bytes)), 0)
    ensures LeafGives(env, c, WCounted(tag, count, bytes))
  {
    hide ElementSize, FindTag, ElementWidth, DecodeCounted, Num;
    CountedTags(env, tag);
    CountedReads(env, c, count, ElementSize(TermsOf(env), tag).value, bytes);
  }

  lemma ImageLeaf(env: Env, c: Cursor, w: Wire)
    requires w.WImage? && Writable(TermsOf(env), w) && c.pos >= 4 && At(env, c.pos, Contents(TermsOf(env), w)) && Room(env, c, Cost(TermsOf(env), w), 0)
    ensures LeafGives(env, c, w)
  {
    hide DecodeImage, Contents, Meaning;
    ImageReads(env, c, w);
  }

  lemma NodePathLeaf(env: Env, c: Cursor, w: Wire)
    requires w.WNodePath? && Writable(TermsOf(env), w) && c.pos >= 4 && At(env, c.pos, Contents(TermsOf(env), w)) && Room(env, c, Cost(TermsOf(env), w), 0)
    ensures LeafGives(env, c, w)
  {
    hide DecodeNodePath, Contents, Cost;
    NodePathReads(env, c, w);
  }

  lemma IntegerReads(env: Env, c: Cursor, width: nat, number: int)
    requires Writable(TermsOf(env), WInteger(width, number)) && At(env, c.pos, Num(env.bigEndian, Wrap(number, width), width))
    ensures DecodeScalar(env, c, width, false) == Ok(Read(Integer(number), Moved(c, width, 0, 0)))
  {
    hide DecodeScalar, Num;
    SignedWraps(number, width);
    ScalarReads(env, c, Wrap(number, width), width, false);
  }

  lemma NoImageReads(env: Env, c: Cursor)
    requires At(env, c.pos, Num(env.bigEndian, 0, 4))
    ensures DecodeImage(env, c) == Ok(Read(Nil, Moved(c, 4, 0, 0)))
  {
    hide Word, Num;
    WordReads(env, c, 0);
  }

  // ---- values with children

  lemma {:induction false} TextNodesRead(env: Env, c: Cursor, texts: seq<seq<byte>>)
    requires (forall t :: t in texts ==> TextOk(env.limits.text, t)) && At(env, c.pos, PrintTexts(env.bigEndian, texts)) && Room(env, c, TextsCost(texts), |texts|)
    ensures TextNodes(env, c, |texts|) == Ok(Read(Texts(texts), Moved(c, |PrintTexts(env.bigEndian, texts)|, TextsCost(texts), |texts|)))
    decreases |texts|
  {
    hide UnicodeString, PrintText, TextOk, At;
    if texts != [] {
      AtBoth(env, c.pos, PrintText(env.bigEndian, texts[0]), PrintTexts(env.bigEndian, texts[1..]));
      TextReads(env, Moved(c, 0, 0, 1), texts[0]);
      TextNodesRead(env, Moved(c, |PrintText(env.bigEndian, texts[0])|, |texts[0]| + 1, 1), texts[1..]);
      assert Texts(texts) == [Text(texts[0])] + Texts(texts[1..]);
    }
  }

  lemma StringsRead(env: Env, c: Cursor, depth: nat, texts: seq<seq<byte>>)
    requires |texts| < SPAN32 && (forall t :: t in texts ==> TextOk(env.limits.text, t)) && (texts != [] ==> depth < env.limits.depth)
    requires At(env, c.pos, Num(env.bigEndian, |texts|, 4) + PrintTexts(env.bigEndian, texts))
    requires Room(env, c, StringsCost(TermsOf(env), texts), |texts|)
    ensures DecodeStrings(env, c, depth)
         == Ok(Read(Items(Texts(texts)), Moved(c, 4 + |PrintTexts(env.bigEndian, texts)|, StringsCost(TermsOf(env), texts), |texts|)))
  {
    hide Count, TextNodes, Num, PrintTexts, TextsCost, Texts, TextOk, At;
    CountReads(env, c, |texts|, 4, PrintTexts(env.bigEndian, texts));
    TextNodesRead(env, Moved(c, 4, |texts| * env.sizes.value, 0), texts);
  }

  /** The pairs of a dictionary as they are read. */
  function PairOf(e: Terms, p: WPair, at: nat): Pair
    requires Writable(e, p.key) && Writable(e, p.entry)
  {
    Pair(Meaning(e, p.key, at), Meaning(e, p.entry, at + |Print(e, p.key)|))
  }

  function PairsOf(e: Terms, pairs: seq<WPair>, at: nat): (r: seq<Pair>)
    requires forall p :: p in pairs ==> Writable(e, p.key) && Writable(e, p.entry)
    ensures |r| == |pairs|
  {
    if pairs == [] then [] else [PairOf(e, pairs[0], at)] + PairsOf(e, pairs[1..], at + |PrintPair(e, pairs[0])|)
  }

  lemma OnlyTextsAreText(e: Terms, w: Wire, at: nat)
    requires Writable(e, w)
    ensures Meaning(e, w, at).Text? <==> w.WText?
    ensures w.WText? ==> Meaning(e, w, at) == Text(w.text)
  {
  }

  lemma {:induction false} PairsAre(e: Terms, pairs: seq<WPair>, at: nat)
    requires forall p :: p in pairs ==> Writable(e, p.key) && Writable(e, p.entry)
    ensures TextKeys(PairsOf(e, pairs, at)) <==> AllTexts(pairs)
    ensures AllTexts(pairs) ==> Named(PairsOf(e, pairs, at)) == Entries(e, pairs, at)
    ensures AllTexts(pairs) ==> forall i :: 0 <= i < |pairs| ==> Named(PairsOf(e, pairs, at))[i].name == pairs[i].key.text
    decreases |pairs|
  {
    hide Writable, Meaning, Print, PrintPair;
    if pairs != [] {
      var first, next := PairOf(e, pairs[0], at), at + |PrintPair(e, pairs[0])|;
      var rest := PairsOf(e, pairs[1..], next);
      OnlyTextsAreText(e, pairs[0].key, at);
      PairsAre(e, pairs[1..], next);
      AllTextsStep(pairs);
      TextKeysStep(first, rest);
      if AllTexts(pairs) { NamedStep(first, rest); }
    }
  }

  lemma AllTextsStep(pairs: seq<WPair>)
    requires pairs != []
    ensures AllTexts(pairs) <==> pairs[0].key.WText? && AllTexts(pairs[1..])
  {
    if AllTexts(pairs[1..]) && pairs[0].key.WText? {
      forall i | 0 <= i < |pairs| ensures pairs[i].key.WText? { if i > 0 { assert pairs[i] == pairs[1..][i - 1]; } }
    }
  }

  lemma TextKeysStep(p: Pair, rest: seq<Pair>)
    ensures TextKeys([p] + rest) <==> p.key.Text? && TextKeys(rest)
  {
    assert p in [p] + rest;
    if TextKeys([p] + rest) { forall q | q in rest ensures q.key.Text? { assert q in [p] + rest; } }
  }

  lemma NamedStep(p: Pair, rest: seq<Pair>)
    requires TextKeys([p] + rest) && TextKeys(rest) && p.key.Text?
    ensures Named([p] + rest) == [Property(p.key.text, p.entry)] + Named(rest)
  {
  }

  lemma RepresentReads(env: Env, c: Cursor, pairs: seq<WPair>, at: nat)
    requires (forall p :: p in pairs ==> Writable(TermsOf(env), p.key) && Writable(TermsOf(env), p.entry)) && KeysOk(pairs)
    requires Room(env, c, if AllTexts(pairs) then |pairs| * env.sizes.index else 0, 0)
    ensures Represent(env, c, PairsOf(TermsOf(env), pairs, at))
         == Ok(Read(if AllTexts(pairs) then Dictionary(Entries(TermsOf(env), pairs, at)) else Unsupported,
                    Moved(c, 0, if AllTexts(pairs) then |pairs| * env.sizes.index else 0, 0)))
  {
    hide Writable, PairsOf, Named, TextKeys, Entries;
    PairsAre(TermsOf(env), pairs, at);
    if AllTexts(pairs) {
      var named := Named(PairsOf(TermsOf(env), pairs, at));
      forall i, j | 0 <= i < j < |named| ensures named[i].name != named[j].name {
        assert pairs[i].key != pairs[j].key;
      }
    }
  }

  lemma WritableItems(e: Terms, w: Wire)
    requires Writable(e, w)
    ensures w.WItems? ==> |w.items| < TOP && forall x :: x in w.items ==> Writable(e, x)
    ensures w.WDictionary? ==> |w.pairs| < TOP && KeysOk(w.pairs) && forall p :: p in w.pairs ==> Writable(e, p.key) && Writable(e, p.entry)
    ensures w.WStrings? ==> |w.texts| < SPAN32 && forall t :: t in w.texts ==> TextOk(e.text, t)
  {
  }

  lemma ShallowItems(e: Terms, w: Wire, depth: nat)
    requires Shallow(e, w, depth)
    ensures depth <= e.depth
    ensures w.WItems? ==> forall x :: x in w.items ==> Shallow(e, x, depth + 1)
    ensures w.WDictionary? ==> forall p :: p in w.pairs ==> Shallow(e, p.key, depth + 1) && Shallow(e, p.entry, depth + 1)
    ensures w.WStrings? && w.texts != [] ==> depth < e.depth
    ensures w.WItems? && w.items != [] ==> depth < e.depth
    ensures w.WDictionary? && w.pairs != [] ==> depth < e.depth
  {
    if w.WItems? && w.items != [] { assert w.items[0] in w.items; }
    if w.WDictionary? && w.pairs != [] { assert w.pairs[0] in w.pairs; }
  }

  /** A written value reads as what it stands for, at any depth that holds it. */
  lemma {:induction false} ValueReads(env: Env, c: Cursor, depth: nat, w: Wire)
    requires Writable(TermsOf(env), w) && At(env, c.pos, Print(TermsOf(env), w)) && Room(env, c, Cost(TermsOf(env), w), Nodes(w)) && Shallow(TermsOf(env), w, depth)
    ensures Gives(ReadValue(env, c, depth), Meaning(TermsOf(env), w, c.pos), c, |Print(TermsOf(env), w)|, Cost(TermsOf(env), w), Nodes(w))
    decreases w, 2
  {
    hide Word, Num, Writable, Contents, Meaning, Cost, Nodes, Decode, FindTag, At, Tag, Shallow;
    ShallowItems(TermsOf(env), w, depth);
    AtBoth(env, c.pos, Num(env.bigEndian, Tag(w), 4), Contents(TermsOf(env), w));
    TagIsSmall(TermsOf(env), w);
    WordReads(env, Moved(c, 0, 0, 1), Tag(w));
    NodesOfLeaf(w);
    DecodedReads(env, Moved(c, 4, 0, 1), depth, w);
  }

  lemma TagIsSmall(e: Terms, w: Wire)
    requires Writable(e, w)
    ensures Tag(w) < SPAN32
  {
  }

  lemma NodesOfLeaf(w: Wire)
    ensures Leaf(w) ==> Nodes(w) == 1
    ensures w.WStrings? ==> Nodes(w) == 1 + |w.texts|
    ensures w.WItems? ==> Nodes(w) == 1 + NodesOfAll(w.items)
    ensures w.WDictionary? ==> Nodes(w) == 1 + NodesOfPairs(w.pairs)
  {
  }

  lemma {:induction false} DecodedReads(env: Env, c: Cursor, depth: nat, w: Wire)
    requires Writable(TermsOf(env), w) && c.pos >= 4 && At(env, c.pos, Contents(TermsOf(env), w)) && depth <= env.limits.depth
    requires Room(env, c, Cost(TermsOf(env), w), Nodes(w) - 1) && Shallow(TermsOf(env), w, depth)
    ensures FindTag(env, Tag(w)).Some?
    ensures Gives(Decode(env, c, depth, FindTag(env, Tag(w)).value), Meaning(TermsOf(env), w, c.pos - 4), c, |Contents(TermsOf(env), w)|, Cost(TermsOf(env), w), Nodes(w) - 1)
    decreases w, 1
  {
    if Leaf(w) {
      LeafDecoded(env, c, depth, w);
    } else {
      hide Word, Num, Writable, At, Shallow, Leaf, DecodeItems, DecodeDictionary, DecodeStrings, Meanings, PrintAll, PrintPairs, PrintTexts;
      if w.WItems? { ItemsRead(env, c, depth, w); } else if w.WDictionary? { DictionaryReads(env, c, depth, w); } else { StringsDecoded(env, c, depth, w); }
    }
  }

  lemma LeafDecoded(env: Env, c: Cursor, depth: nat, w: Wire)
    requires Leaf(w) && Writable(TermsOf(env), w) && c.pos >= 4 && At(env, c.pos, Contents(TermsOf(env), w)) && depth <= env.limits.depth
    requires Room(env, c, Cost(TermsOf(env), w), Nodes(w) - 1)
    ensures FindTag(env, Tag(w)).Some?
    ensures Gives(Decode(env, c, depth, FindTag(env, Tag(w)).value), Meaning(TermsOf(env), w, c.pos - 4), c, |Contents(TermsOf(env), w)|, Cost(TermsOf(env), w), Nodes(w) - 1)
  {
    hide Writable, At, Contents, Meaning, Cost, Nodes, FindTag, Tag, DecodeLeaf;
    NodesOfLeaf(w);
    LeafReads(env, c, w);
  }

  lemma StringsDecoded(env: Env, c: Cursor, depth: nat, w: Wire)
    requires w.WStrings? && Writable(TermsOf(env), w) && c.pos >= 4 && At(env, c.pos, Contents(TermsOf(env), w)) && depth <= env.limits.depth
    requires Room(env, c, Cost(TermsOf(env), w), Nodes(w) - 1) && Shallow(TermsOf(env), w, depth)
    ensures FindTag(env, Tag(w)) == Some(StringsTag)
    ensures Gives(DecodeStrings(env, c, depth), Meaning(TermsOf(env), w, c.pos - 4), c, |Contents(TermsOf(env), w)|, Cost(TermsOf(env), w), Nodes(w) - 1)
  {
    hide DecodeStrings, At, PrintTexts, TextsCost, TextOk, Texts;
    WritableItems(TermsOf(env), w);
    ShallowItems(TermsOf(env), w, depth);
    StringsRead(env, c, depth, w.texts);
  }

  lemma {:induction false} ValuesRead(env: Env, c: Cursor, depth: nat, ws: seq<Wire>)
    requires (forall w :: w in ws ==> Writable(TermsOf(env), w) && Shallow(TermsOf(env), w, depth)) && At(env, c.pos, PrintAll(TermsOf(env), ws))
    requires Room(env, c, CostOfAll(TermsOf(env), ws), NodesOfAll(ws))
    ensures Gives(Values(env, c, depth, |ws|), Meanings(TermsOf(env), ws, c.pos), c, |PrintAll(TermsOf(env), ws)|, CostOfAll(TermsOf(env), ws), NodesOfAll(ws))
    decreases ws, 0
  {
    hide ReadValue, Writable, Shallow, At, Print, Meaning, Cost, Nodes;
    if ws != [] {
      AtBoth(env, c.pos, Print(TermsOf(env), ws[0]), PrintAll(TermsOf(env), ws[1..]));
      ValueReads(env, c, depth, ws[0]);
      ValuesRead(env, ReadValue(env, c, depth).value.at, depth, ws[1..]);
    }
  }

  lemma {:induction false} ItemsRead(env: Env, c: Cursor, depth: nat, w: Wire)
    requires w.WItems? && Writable(TermsOf(env), w) && c.pos >= 4 && At(env, c.pos, Contents(TermsOf(env), w)) && depth <= env.limits.depth
    requires Room(env, c, Cost(TermsOf(env), w), Nodes(w) - 1) && Shallow(TermsOf(env), w, depth)
    ensures FindTag(env, Tag(w)) == Some(ItemsTag)
    ensures Gives(DecodeItems(env, c, depth), Meaning(TermsOf(env), w, c.pos - 4), c, |Contents(TermsOf(env), w)|, Cost(TermsOf(env), w), Nodes(w) - 1)
    decreases w, 0
  {
    hide DecodeItems, Num, At, PrintAll, CostOfAll, Meanings, Shallow;
    WritableItems(TermsOf(env), w);
    ShallowItems(TermsOf(env), w, depth);
    ItemsBody(env, c, depth, w.shared, w.items);
  }

  lemma {:induction false} ItemsBody(env: Env, c: Cursor, depth: nat, shared: bool, items: seq<Wire>)
    requires |items| < TOP && (forall w :: w in items ==> Writable(TermsOf(env), w) && Shallow(TermsOf(env), w, depth + 1))
    requires depth <= env.limits.depth && (items != [] ==> depth < env.limits.depth)
    requires At(env, c.pos, Num(env.bigEndian, |items| + (if shared then TOP else 0), 4) + PrintAll(TermsOf(env), items))
    requires Room(env, c, |items| * env.sizes.value + CostOfAll(TermsOf(env), items), NodesOfAll(items))
    ensures Gives(DecodeItems(env, c, depth), Items(Meanings(TermsOf(env), items, c.pos + 4)), c, 4 + |PrintAll(TermsOf(env), items)|,
                  |items| * env.sizes.value + CostOfAll(TermsOf(env), items), NodesOfAll(items))
    decreases items, 1
  {
    hide Values, SharedCount, Num, At, PrintAll, CostOfAll, Meanings, Writable, Shallow;
    SharedCountReads(env, c, |items|, shared, 4, PrintAll(TermsOf(env), items));
    ValuesRead(env, Moved(c, 4, |items| * env.sizes.value, 0), depth + 1, items);
  }

  lemma {:induction false} PairsRead(env: Env, c: Cursor, depth: nat, pairs: seq<WPair>)
    requires forall p :: p in pairs ==> Writable(TermsOf(env), p.key) && Writable(TermsOf(env), p.entry) && Shallow(TermsOf(env), p.key, depth) && Shallow(TermsOf(env), p.entry, depth)
    requires At(env, c.pos, PrintPairs(TermsOf(env), pairs)) && Room(env, c, CostOfPairs(TermsOf(env), pairs), NodesOfPairs(pairs))
    ensures Gives(Pairs(env, c, depth, |pairs|), PairsOf(TermsOf(env), pairs, c.pos), c, |PrintPairs(TermsOf(env), pairs)|, CostOfPairs(TermsOf(env), pairs), NodesOfPairs(pairs))
    decreases pairs, 0
  {
    hide ReadValue, Writable, Shallow, At, PrintPair, PairOf, CostOfPair, NodesOfPair;
    if pairs != [] {
      AtBoth(env, c.pos, PrintPair(TermsOf(env), pairs[0]), PrintPairs(TermsOf(env), pairs[1..]));
      PairReads(env, c, depth, pairs[0]);
      var key := ReadValue(env, c, depth).value.at;
      PairsRead(env, ReadValue(env, key, depth).value.at, depth, pairs[1..]);
    }
  }

  lemma {:induction false} PairReads(env: Env, c: Cursor, depth: nat, p: WPair)
    requires Writable(TermsOf(env), p.key) && Writable(TermsOf(env), p.entry) && Shallow(TermsOf(env), p.key, depth) && Shallow(TermsOf(env), p.entry, depth)
    requires At(env, c.pos, PrintPair(TermsOf(env), p)) && Room(env, c, CostOfPair(TermsOf(env), p), NodesOfPair(p))
    ensures ReadValue(env, c, depth).Ok?
    ensures var key := ReadValue(env, c, depth).value;
            var entry := ReadValue(env, key.at, depth);
            entry.Ok? && Gives(Ok(Read(Pair(key.value, entry.value.value), entry.value.at)), PairOf(TermsOf(env), p, c.pos), c,
                               |PrintPair(TermsOf(env), p)|, CostOfPair(TermsOf(env), p), NodesOfPair(p))
    decreases p
  {
    hide ReadValue, Writable, Shallow, At, Print, Meaning, Cost, Nodes;
    AtBoth(env, c.pos, Print(TermsOf(env), p.key), Print(TermsOf(env), p.entry));
    ValueReads(env, c, depth, p.key);
    ValueReads(env, ReadValue(env, c, depth).value.at, depth, p.entry);
  }

  lemma {:induction false} DictionaryReads(env: Env, c: Cursor, depth: nat, w: Wire)
    requires w.WDictionary? && Writable(TermsOf(env), w) && c.pos >= 4 && At(env, c.pos, Contents(TermsOf(env), w)) && depth <= env.limits.depth
    requires Room(env, c, Cost(TermsOf(env), w), Nodes(w) - 1) && Shallow(TermsOf(env), w, depth)
    ensures FindTag(env, Tag(w)) == Some(DictionaryTag)
    ensures Gives(DecodeDictionary(env, c, depth), Meaning(TermsOf(env), w, c.pos - 4), c, |Contents(TermsOf(env), w)|, Cost(TermsOf(env), w), Nodes(w) - 1)
    decreases w, 0
  {
    hide DecodeDictionary, Num, At, PrintPairs, CostOfPairs, Entries, AllTexts, KeysOk, Shallow;
    WritableItems(TermsOf(env), w);
    ShallowItems(TermsOf(env), w, depth);
    DictionaryBody(env, c, depth, w.shared, w.pairs);
  }

  /** What a dictionary costs beside its children. */
  function PairsCost(e: Terms, pairs: seq<WPair>): nat
  {
    |pairs| * e.sizes.property + |pairs| * e.sizes.value
  }

  function IndexCost(e: Terms, pairs: seq<WPair>): nat
  {
    if AllTexts(pairs) then |pairs| * e.sizes.index else 0
  }

  lemma {:induction false} DictionaryBody(env: Env, c: Cursor, depth: nat, shared: bool, pairs: seq<WPair>)
    requires |pairs| < TOP && KeysOk(pairs) && depth <= env.limits.depth && (pairs != [] ==> depth < env.limits.depth)
    requires forall p :: p in pairs ==>
      Writable(TermsOf(env), p.key) && Writable(TermsOf(env), p.entry) && Shallow(TermsOf(env), p.key, depth + 1) && Shallow(TermsOf(env), p.entry, depth + 1)
    requires At(env, c.pos, Num(env.bigEndian, |pairs| + (if shared then TOP else 0), 4) + PrintPairs(TermsOf(env), pairs))
    requires Room(env, c, PairsCost(TermsOf(env), pairs) + CostOfPairs(TermsOf(env), pairs) + IndexCost(TermsOf(env), pairs), NodesOfPairs(pairs))
    ensures Gives(DecodeDictionary(env, c, depth),
                  if AllTexts(pairs) then Dictionary(Entries(TermsOf(env), pairs, c.pos + 4)) else Unsupported, c, 4 + |PrintPairs(TermsOf(env), pairs)|,
                  PairsCost(TermsOf(env), pairs) + CostOfPairs(TermsOf(env), pairs) + IndexCost(TermsOf(env), pairs), NodesOfPairs(pairs))
    decreases pairs, 1
  {
    hide Pairs, SharedCount, Represent, Num, At, PrintPairs, CostOfPairs, Entries, PairsOf, AllTexts, KeysOk, Writable, Shallow;
    SharedCountReads(env, c, |pairs|, shared, 8, PrintPairs(TermsOf(env), pairs));
    var paid := Moved(c, 4, PairsCost(TermsOf(env), pairs), 0);
    PairsRead(env, paid, depth + 1, pairs);
    var read := Pairs(env, paid, depth + 1, |pairs|).value.at;
    RepresentReads(env, read, pairs, paid.pos);
  }
}
