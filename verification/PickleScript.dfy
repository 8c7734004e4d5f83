/**
 Pickles written in every way the instructions allow: short and long operands, containers collected from a
 mark, filled one by one or in a batch, values kept in the memo and recalled. Each such script has a meaning,
 and the machine that runs its code pushes that meaning.
 */
module PickleScript {
  import opened Bytes
  import opened PickleValues
  import opened Pickle
  import Decimal
  import D = PickleDump

  /** How a container is put together: collected from a mark, or empty first and then filled. */
  datatype Style = Collected | OneByOne | Batched

  /** Where a value is kept: in the next slot, or in a slot named with one byte or with four. */
  datatype Keeping = Next | Short(slot: nat) | Long(slot: nat)

  datatype Script =
    | PNothing
    | PBoolean(flag: bool)
    | PByte(small: nat)
    | PWord(small: nat)
    | PInteger(number: int)
    | PLong(width: nat, number: int)
    | PDecimal(negative: bool, magnitude: nat, suffix: bool)
    | PFloat(bits: nat)
    | PText(opcode: byte, data: seq<byte>)
    | PBytes(opcode: byte, data: seq<byte>)
    | PList(style: Style, kept: bool, items: seq<Script>)
    | PTuple(counted: bool, items: seq<Script>)
    | PDict(style: Style, kept: bool, pairs: seq<PPair>)
    | PKeep(what: Script, keeping: Keeping)
    | PRecall(long: bool, slot: nat)
    | PFrame(noise: seq<byte>, what: Script)

  /** A key, by the opcode of a text, and the value behind it. */
  datatype PPair = PPair(opcode: byte, key: seq<byte>, value: Script)

  // ---- what can be written

  /** SHORT_BINSTRING and SHORT_BINUNICODE have a one-byte length, BINSTRING and BINUNICODE a longer one. */
  predicate TextOk(opcode: byte, data: seq<byte>)
  {
    if opcode == 0x55 || opcode == 0x8C then |data| < 256 else (opcode == 0x54 || opcode == 0x58) && |data| < SPAN32
  }

  predicate BytesOk(opcode: byte, data: seq<byte>)
  {
    if opcode == 0x43 then |data| < 256 else opcode == 0x42 && |data| < SPAN32
  }

  predicate KeepingOk(k: Keeping)
  {
    match k
    case Next => true
    case Short(slot) => slot < 256
    case Long(slot) => slot < SPAN32
  }

  /** The number fits two's complement of that many bytes. */
  predicate InWidth(number: int, width: nat)
  {
    0 <= 2 * number + Pow256(width) && 2 * number < Pow256(width)
  }

  predicate Valid(s: Script)
  {
    match s
    case PByte(small) => small < 256
    case PWord(small) => small < 0x1_0000
    case PInteger(number) => -0x8000_0000 <= number < 0x8000_0000
    case PLong(width, number) => width <= 8 && InWidth(number, width)
    case PDecimal(negative, magnitude, _) => if negative then magnitude <= MAX64 else magnitude < MAX64
    case PFloat(bits) => bits < SPAN64
    case PText(opcode, data) => TextOk(opcode, data)
    case PBytes(opcode, data) => BytesOk(opcode, data)
    case PList(_, _, items) => forall x :: x in items ==> Valid(x)
    case PTuple(counted, items) => (counted ==> |items| <= 3) && forall x :: x in items ==> Valid(x)
    case PDict(_, _, pairs) => forall p :: p in pairs ==> TextOk(p.opcode, p.key) && Valid(p.value)
    case PKeep(what, keeping) => KeepingOk(keeping) && Valid(what)
    case PRecall(long, slot) => slot < if long then SPAN32 else 256
    case PFrame(noise, what) => (|noise| == 1 || |noise| == 8) && Valid(what)
    case _ => true
  }

  // ---- the code

  function Counted(opcode: byte, short: bool, data: seq<byte>): seq<byte>
  {
    [opcode] + (LittleEndian(|data|, if short then 1 else 4) + data)
  }

  function TextCode(opcode: byte, data: seq<byte>): seq<byte>
  {
    Counted(opcode, opcode == 0x55 || opcode == 0x8C, data)
  }

  function LongBits(width: nat, number: int): nat
    requires InWidth(number, width)
  {
    if number < 0 then number + Pow256(width) else number
  }

  function DecimalLine(negative: bool, magnitude: nat, suffix: bool): seq<byte>
  {
    (if negative then [0x2D] else []) + Decimal.Digits(magnitude) + (if suffix then [0x4C] else [])
  }

  function KeepCode(k: Keeping): seq<byte>
  {
    match k
    case Next => [0x94]
    case Short(slot) => [0x71] + LittleEndian(slot, 1)
    case Long(slot) => [0x72] + LittleEndian(slot, 4)
  }

  function Early(kept: bool): seq<byte>
  {
    if kept then [0x94] else []
  }

  function Code(s: Script): seq<byte>
    requires Valid(s)
    decreases s
  {
    match s
    case PNothing => [0x4E]
    case PBoolean(flag) => [if flag then 0x88 else 0x89]
    case PByte(small) => [0x4B] + LittleEndian(small, 1)
    case PWord(small) => [0x4D] + LittleEndian(small, 2)
    case PInteger(number) => [0x4A] + LittleEndian(if number < 0 then number + SPAN32 else number, 4)
    case PLong(width, number) => [0x8A] + ([width] + LittleEndian(LongBits(width, number), width))
    case PDecimal(negative, magnitude, suffix) => [0x49] + (DecimalLine(negative, magnitude, suffix) + [10])
    case PFloat(bits) => [0x47] + BigEndian(bits, 8)
    case PText(opcode, data) => TextCode(opcode, data)
    case PBytes(opcode, data) => Counted(opcode, opcode == 0x43, data)
    case PList(style, kept, items) => (
      match style
      case Collected => [0x28] + (CodeAll(items) + [0x6C])
      case OneByOne => [0x5D] + (Early(kept) + CodeEach(items))
      case Batched => [0x5D] + (Early(kept) + ([0x28] + (CodeAll(items) + [0x65]))))
    case PTuple(counted, items) =>
      if !counted then [0x28] + (CodeAll(items) + [0x74])
      else CodeAll(items) + [if items == [] then 0x29 else 0x84 + |items|]
    case PDict(style, kept, pairs) => (
      match style
      case Collected => [0x28] + (CodePairs(pairs) + [0x64])
      case OneByOne => [0x7D] + (Early(kept) + CodeEachPair(pairs))
      case Batched => [0x7D] + (Early(kept) + ([0x28] + (CodePairs(pairs) + [0x75]))))
    case PKeep(what, keeping) => Code(what) + KeepCode(keeping)
    case PRecall(long, slot) => if long then [0x6A] + LittleEndian(slot, 4) else [0x68] + LittleEndian(slot, 1)
    case PFrame(noise, what) => ([if |noise| == 1 then 0x80 else 0x95] + noise) + Code(what)
  }

  function CodeAll(items: seq<Script>): seq<byte>
    requires forall x :: x in items ==> Valid(x)
    decreases items
  {
    if items == [] then [] else Code(items[0]) + CodeAll(items[1..])
  }

  /** Each item is appended as soon as it is there. */
  function CodeEach(items: seq<Script>): seq<byte>
    requires forall x :: x in items ==> Valid(x)
    decreases items
  {
    if items == [] then [] else (Code(items[0]) + [0x61]) + CodeEach(items[1..])
  }

  function CodePair(p: PPair): seq<byte>
    requires Valid(p.value)
    decreases p
  {
    TextCode(p.opcode, p.key) + Code(p.value)
  }

  function CodePairs(pairs: seq<PPair>): seq<byte>
    requires forall p :: p in pairs ==> TextOk(p.opcode, p.key) && Valid(p.value)
    decreases pairs
  {
    if pairs == [] then [] else CodePair(pairs[0]) + CodePairs(pairs[1..])
  }

  function CodeEachPair(pairs: seq<PPair>): seq<byte>
    requires forall p :: p in pairs ==> TextOk(p.opcode, p.key) && Valid(p.value)
    decreases pairs
  {
    if pairs == [] then [] else (CodePair(pairs[0]) + [0x73]) + CodeEachPair(pairs[1..])
  }

  // ---- the meaning

  /** A value and the memo behind it, slot by slot. */
  datatype Loaded<T> = Loaded(value: T, memo: seq<Value>)

  /** A value is kept in a slot that exists or is the next one. */
  ghost function Keep(memo: seq<Value>, keeping: Keeping, v: Value): Option<seq<Value>>
  {
    var slot := match keeping case Next => |memo| case Short(n) => n case Long(n) => n;
    if slot == |memo| then Some(memo + [v]) else if slot < |memo| then Some(memo[slot := v]) else None
  }

  function Negated(negative: bool, magnitude: nat): int
  {
    if negative then -(magnitude as int) else magnitude
  }

  /** No value is as deep as the limit. */
  predicate Flat(vs: seq<Value>)
  {
    forall v :: v in vs ==> Depth(v) < MAX_DEPTH
  }

  /** The entries that pairs leave, the last of equal keys winning. */
  function Fill(pairs: seq<PPair>, vs: seq<Value>): map<seq<byte>, Value>
    requires |pairs| == |vs|
  {
    if pairs == [] then map[]
    else Fill(pairs[..|pairs| - 1], vs[..|vs| - 1])[pairs[|pairs| - 1].key := vs[|vs| - 1]]
  }

  /** An empty container that is kept goes into the memo empty. */
  ghost function Kept(memo: seq<Value>, style: Style, kept: bool, empty: Value): seq<Value>
  {
    if style.Collected? || !kept then memo else memo + [empty]
  }

  ghost function Load(s: Script, memo: seq<Value>): (r: Option<Loaded<Value>>)
    ensures r.Some? ==> |memo| <= |r.value.memo|
    decreases s
  {
    match s
    case PNothing => Some(Loaded(Nothing, memo))
    case PBoolean(flag) => Some(Loaded(Boolean(flag), memo))
    case PByte(small) => Some(Loaded(Integer(small), memo))
    case PWord(small) => Some(Loaded(Integer(small), memo))
    case PInteger(number) => Some(Loaded(Integer(number), memo))
    case PLong(_, number) => Some(Loaded(Integer(number), memo))
    case PDecimal(negative, magnitude, _) => Some(Loaded(Integer(Negated(negative, magnitude)), memo))
    case PFloat(bits) => Some(Loaded(Float(bits), memo))
    case PText(_, data) => Some(Loaded(Text(data), memo))
    case PBytes(_, data) => Some(Loaded(Value.Bytes(data), memo))
    case PList(style, kept, items) => (
      match LoadAll(items, Kept(memo, style, kept, List([], 1)))
      case None => None
      case Some(r) => if Flat(r.value) then Some(Loaded(List(r.value, Height(Elements(r.value))), r.memo)) else None)
    case PTuple(_, items) => (
      match LoadAll(items, memo)
      case None => None
      case Some(r) => if Flat(r.value) then Some(Loaded(Tuple(r.value, Height(Elements(r.value))), r.memo)) else None)
    case PDict(style, kept, pairs) => (
      match LoadPairs(pairs, Kept(memo, style, kept, Dict(map[], 1)))
      case None => None
      case Some(r) =>
        if Flat(r.value)
        then Some(Loaded(Dict(Fill(pairs, r.value), Height(Fill(pairs, r.value).Values)), r.memo)) else None)
    case PKeep(what, keeping) => (
      match Load(what, memo)
      case None => None
      case Some(r) =>
        match Keep(r.memo, keeping, r.value)
        case None => None
        case Some(next) => Some(Loaded(r.value, next)))
    case PRecall(_, slot) => if slot < |memo| then Some(Loaded(memo[slot], memo)) else None
    case PFrame(_, what) => Load(what, memo)
  }

  ghost function LoadAll(items: seq<Script>, memo: seq<Value>): (r: Option<Loaded<seq<Value>>>)
    ensures r.Some? ==> |memo| <= |r.value.memo|
    decreases items
  {
    if items == [] then Some(Loaded([], memo))
    else match Load(items[0], memo)
      case None => None
      case Some(first) =>
        match LoadAll(items[1..], first.memo)
        case None => None
        case Some(rest) => Some(Loaded([first.value] + rest.value, rest.memo))
  }

  ghost function LoadPairs(pairs: seq<PPair>, memo: seq<Value>): (r: Option<Loaded<seq<Value>>>)
    ensures r.Some? ==> |memo| <= |r.value.memo| && |r.value.value| == |pairs|
    decreases pairs
  {
    if pairs == [] then Some(Loaded([], memo))
    else match LoadPair(pairs[0], memo)
      case None => None
      case Some(first) =>
        match LoadPairs(pairs[1..], first.memo)
        case None => None
        case Some(rest) => Some(Loaded([first.value] + rest.value, rest.memo))
  }

  ghost function LoadPair(p: PPair, memo: seq<Value>): (r: Option<Loaded<Value>>)
    ensures r.Some? ==> |memo| <= |r.value.memo|
    decreases p
  {
    Load(p.value, memo)
  }

  // ---- scalars

  lemma OperandOf(data: seq<byte>, at: nat, n: nat, width: nat)
    requires n < Pow256(width) && D.At(data, at, LittleEndian(n, width))
    ensures Operand(data, at, width) == Some(n)
  {
    hide Unsigned, LittleEndian, Pow256;
    UnsignedOfBytes(n, width);
  }

  lemma StringOf(data: seq<byte>, at: nat, text: seq<byte>, width: nat)
    requires |text| < Pow256(width) && D.At(data, at, LittleEndian(|text|, width) + text)
    ensures StringAt(data, at, width) == Some(text)
  {
    hide LittleEndian, Pow256, Operand, StringAt, D.At;
    D.AtSplit(data, at, LittleEndian(|text|, width), text);
    OperandOf(data, at, |text|, width);
    StringBehind(data, at, text, width);
  }

  lemma StringBehind(data: seq<byte>, at: nat, text: seq<byte>, width: nat)
    requires Operand(data, at, width) == Some(|text|) && D.At(data, at + width, text)
    ensures StringAt(data, at, width) == Some(text)
  {
    hide Operand;
  }

  lemma Widths()
    ensures Pow256(1) == 256 && Pow256(2) == 0x1_0000 && Pow256(4) == SPAN32 && Pow256(8) == SPAN64
  {
    Powers();
  }

  lemma CodedText(data: seq<byte>, pos: nat, opcode: byte, text: seq<byte>)
    requires TextOk(opcode, text) && D.At(data, pos, TextCode(opcode, text))
    ensures Fetch(data, pos) == Some(Fetched(Push(Text(text)), pos + |TextCode(opcode, text)|))
  {
    hide LittleEndian, StringAt, Pow256;
    Widths();
    var width := if opcode == 0x55 || opcode == 0x8C then 1 else 4;
    D.AtSplit(data, pos, [opcode], LittleEndian(|text|, width) + text);
    D.FirstByte(data, pos, [opcode]);
    StringOf(data, pos + 1, text, width);
  }

  lemma CodedBytes(data: seq<byte>, pos: nat, opcode: byte, bytes: seq<byte>)
    requires BytesOk(opcode, bytes) && D.At(data, pos, Counted(opcode, opcode == 0x43, bytes))
    ensures Fetch(data, pos) == Some(Fetched(Push(Value.Bytes(bytes)), pos + |Counted(opcode, opcode == 0x43, bytes)|))
  {
    hide LittleEndian, StringAt, Pow256;
    Widths();
    var width := if opcode == 0x43 then 1 else 4;
    D.AtSplit(data, pos, [opcode], LittleEndian(|bytes|, width) + bytes);
    D.FirstByte(data, pos, [opcode]);
    StringOf(data, pos + 1, bytes, width);
  }

  lemma CodedNumber(data: seq<byte>, pos: nat, opcode: byte, bits: nat, width: nat)
    requires (opcode == 0x4B && width == 1) || (opcode == 0x4D && width == 2) || (opcode == 0x4A && width == 4)
    requires bits < Pow256(width) && D.At(data, pos, [opcode] + LittleEndian(bits, width))
    ensures Fetch(data, pos) == Some(Fetched(Push(Integer(if width == 4 then Signed32(bits) else bits)), pos + 1 + width))
  {
    hide LittleEndian, Operand, Pow256;
    D.AtSplit(data, pos, [opcode], LittleEndian(bits, width));
    D.FirstByte(data, pos, [opcode]);
    OperandOf(data, pos + 1, bits, width);
  }

  lemma LongReads(width: nat, number: int)
    requires InWidth(number, width)
    ensures TwosComplement(LittleEndian(LongBits(width, number), width)) == number
  {
    hide Unsigned, LittleEndian, Pow256;
    var bytes := LittleEndian(LongBits(width, number), width);
    UnsignedOfBytes(LongBits(width, number), width);
    if width > 0 { TopByteDecides(bytes); } else { Powers(); }
  }

  lemma CodedLong(data: seq<byte>, pos: nat, width: nat, number: int)
    requires width <= 8 && InWidth(number, width)
    requires D.At(data, pos, [0x8A] + ([width] + LittleEndian(LongBits(width, number), width)))
    ensures Fetch(data, pos) == Some(Fetched(Push(Integer(number)), pos + 2 + width))
  {
    hide LittleEndian, TwosComplement, Pow256, LongBits;
    D.AtSplit(data, pos, [0x8A], [width] + LittleEndian(LongBits(width, number), width));
    D.FirstByte(data, pos, [0x8A]);
    D.AtSplit(data, pos + 1, [width], LittleEndian(LongBits(width, number), width));
    D.FirstByte(data, pos + 1, [width]);
    LongReads(width, number);
  }

  lemma CodedFloat(data: seq<byte>, pos: nat, bits: nat)
    requires bits < SPAN64 && D.At(data, pos, [0x47] + BigEndian(bits, 8))
    ensures Fetch(data, pos) == Some(Fetched(Push(Float(bits)), pos + 9))
  {
    hide BigEndian, Unsigned, Reversed, Pow256;
    D.AtSplit(data, pos, [0x47], BigEndian(bits, 8));
    D.FirstByte(data, pos, [0x47]);
    Widths();
    UnsignedOfReversed(bits, 8);
  }

  // ---- decimal lines

  lemma {:induction false} DigitsGrow(a: seq<byte>, d: byte, so: nat)
    requires (forall i :: 0 <= i < |a| ==> IsDigit(a[i])) && IsDigit(d)
    ensures Digits(a + [d], so) == 10 * Digits(a, so) + (d - 0x30)
    decreases |a|
  {
    if a == [] {
      assert a + [d] == [d] && [d][1..] == [];
    } else {
      assert (a + [d])[1..] == a[1..] + [d];
      DigitsGrow(a[1..], d, 10 * so + (a[0] - 0x30));
    }
  }

  lemma {:induction false} DigitsOfNumeral(n: nat)
    ensures Digits(Decimal.Digits(n), 0) == n
    decreases n
  {
    var all := Decimal.Digits(n);
    if n >= 10 {
      DigitsOfNumeral(n / 10);
      DigitsGrow(Decimal.Digits(n / 10), 48 + n % 10, 0);
    } else {
      assert all == [] + [48 + n];
      DigitsGrow([], 48 + n, 0);
    }
  }

  lemma LineReads(negative: bool, magnitude: nat, suffix: bool)
    requires if negative then magnitude <= MAX64 else magnitude < MAX64
    ensures IntegerLine(DecimalLine(negative, magnitude, suffix)) == Some(Negated(negative, magnitude))
    ensures forall i :: 0 <= i < |DecimalLine(negative, magnitude, suffix)| ==> DecimalLine(negative, magnitude, suffix)[i] != 10
  {
    hide Decimal.Digits, Digits;
    var numeral, line := Decimal.Digits(magnitude), DecimalLine(negative, magnitude, suffix);
    var signed := (if negative then [0x2D] else []) + numeral;
    DigitsOfNumeral(magnitude);
    assert Decimal.IsDigit(numeral[0]) && Decimal.IsDigit(numeral[|numeral| - 1]);
    if suffix { assert line[..|line| - 1] == signed; } else { assert line == signed; }
    assert negative ==> signed[1..] == numeral;
    assert !negative ==> signed == numeral;
  }

  lemma {:induction false} LineEndIs(data: seq<byte>, at: nat, end: nat)
    requires at <= end < |data| && data[end] == 10 && forall i :: at <= i < end ==> data[i] != 10
    ensures LineEnd(data, at) == end
    decreases end - at
  {
    if at < end { LineEndIs(data, at + 1, end); }
  }

  lemma CodedDecimal(data: seq<byte>, pos: nat, negative: bool, magnitude: nat, suffix: bool)
    requires if negative then magnitude <= MAX64 else magnitude < MAX64
    requires D.At(data, pos, [0x49] + (DecimalLine(negative, magnitude, suffix) + [10]))
    ensures Fetch(data, pos) == Some(Fetched(Push(Integer(Negated(negative, magnitude))), pos + |DecimalLine(negative, magnitude, suffix)| + 2))
  {
    hide DecimalLine, IntegerLine, LineEnd;
    var line := DecimalLine(negative, magnitude, suffix);
    D.AtSplit(data, pos, [0x49], line + [10]);
    D.FirstByte(data, pos, [0x49]);
    D.AtSplit(data, pos + 1, line, [10]);
    D.FirstByte(data, pos + 1 + |line|, [10]);
    LineReads(negative, magnitude, suffix);
    forall i | pos + 1 <= i < pos + 1 + |line| ensures data[i] != 10 {
      assert data[pos + 1..pos + 1 + |line|][i - pos - 1] == data[i];
    }
    LineEndIs(data, pos + 1, pos + 1 + |line|);
  }

  // ---- single instructions

  /** The machine's memo, slot by slot. */
  function MemoOf(memo: seq<Value>): (m: map<nat, Value>)
  {
    map i: nat | i < |memo| :: memo[i]
  }

  lemma MemoSize(memo: seq<Value>)
    ensures |MemoOf(memo)| == |memo|
    decreases |memo|
  {
    if memo != [] {
      var init, last := memo[..|memo| - 1], |memo| - 1;
      MemoSize(init);
      assert MemoOf(memo) == MemoOf(init)[last := memo[last]];
    }
  }

  lemma MemoKeeps(memo: seq<Value>, keeping: Keeping, v: Value)
    requires Keep(memo, keeping, v).Some?
    ensures var slot := match keeping case Next => |memo| case Short(n) => n case Long(n) => n;
            MemoOf(Keep(memo, keeping, v).value) == MemoOf(memo)[slot := v]
  {
  }

  function Pushed(m: Machine, vs: seq<Value>, memo: seq<Value>): Machine
  {
    Machine(m.stack + vs, m.marks, MemoOf(memo))
  }

  lemma Steps(data: seq<byte>, pos: nat, m: Machine, op: Op, next: nat, after: Machine)
    requires pos < |data| && Fetch(data, pos) == Some(Fetched(op, next)) && Execute(op, m) == Continue(after)
    ensures Run(data, pos, m) == Run(data, next, after)
  {
    hide Fetch, Execute;
  }

  lemma PlainStep(data: seq<byte>, pos: nat, m: Machine, code: byte, op: Op, after: Machine)
    requires D.At(data, pos, [code]) && Plain(code) == Some(op) && Execute(op, m) == Continue(after)
    ensures Run(data, pos, m) == Run(data, pos + 1, after)
  {
    hide WithOperand, Execute;
    D.FirstByte(data, pos, [code]);
    Steps(data, pos, m, op, pos + 1, after);
  }

  lemma PushStep(data: seq<byte>, pos: nat, m: Machine, v: Value, next: nat, memo: seq<Value>)
    requires pos < |data| && Fetch(data, pos) == Some(Fetched(Push(v), next)) && m.memo == MemoOf(memo)
    ensures Run(data, pos, m) == Run(data, next, Pushed(m, [v], memo))
  {
    hide Fetch;
    Steps(data, pos, m, Push(v), next, Pushed(m, [v], memo));
  }

  /** The codes of values without children push them. */
  predicate Scalar(s: Script)
  {
    !s.PList? && !s.PTuple? && !s.PDict? && !s.PKeep? && !s.PRecall? && !s.PFrame?
  }

  ghost predicate ScalarFetched(data: seq<byte>, pos: nat, s: Script, memo: seq<Value>)
    requires Valid(s)
  {
    && Load(s, memo).Some? && Load(s, memo).value.memo == memo && |Code(s)| > 0 && pos < |data|
    && Fetch(data, pos) == Some(Fetched(Push(Load(s, memo).value.value), pos + |Code(s)|))
  }

  lemma ScalarIsFetched(data: seq<byte>, pos: nat, s: Script, memo: seq<Value>)
    requires Scalar(s) && Valid(s) && D.At(data, pos, Code(s))
    ensures ScalarFetched(data, pos, s, memo)
  {
    hide ScalarFetched, Valid, D.At, Code;
    if s.PNothing? || s.PBoolean? || s.PText? || s.PBytes? || s.PFloat? {
      PlainIsFetched(data, pos, s, memo);
    } else {
      NumberIsFetched(data, pos, s, memo);
    }
  }

  lemma PlainIsFetched(data: seq<byte>, pos: nat, s: Script, memo: seq<Value>)
    requires s.PNothing? || s.PBoolean? || s.PText? || s.PBytes? || s.PFloat?
    requires Valid(s) && D.At(data, pos, Code(s))
    ensures ScalarFetched(data, pos, s, memo)
  {
    hide LittleEndian, Fetch, Counted, BigEndian, Pow256;
    match s
    case PNothing => OneByte(data, pos, 0x4E, Push(Nothing));
    case PBoolean(flag) => OneByte(data, pos, if flag then 0x88 else 0x89, Push(Boolean(flag)));
    case PFloat(bits) => CodedFloat(data, pos, bits);
    case PText(opcode, text) => CodedText(data, pos, opcode, text); CountedSize(opcode, opcode == 0x55 || opcode == 0x8C, text);
    case PBytes(opcode, bytes) => CodedBytes(data, pos, opcode, bytes); CountedSize(opcode, opcode == 0x43, bytes);
  }

  lemma NumberIsFetched(data: seq<byte>, pos: nat, s: Script, memo: seq<Value>)
    requires s.PByte? || s.PWord? || s.PInteger? || s.PLong? || s.PDecimal?
    requires Valid(s) && D.At(data, pos, Code(s))
    ensures ScalarFetched(data, pos, s, memo)
  {
    hide LittleEndian, Fetch, DecimalLine, Pow256, LongBits;
    Widths();
    match s
    case PByte(small) => CodedNumber(data, pos, 0x4B, small, 1);
    case PWord(small) => CodedNumber(data, pos, 0x4D, small, 2);
    case PInteger(number) => CodedNumber(data, pos, 0x4A, if number < 0 then number + SPAN32 else number, 4);
    case PLong(width, number) => CodedLong(data, pos, width, number);
    case PDecimal(negative, magnitude, suffix) => CodedDecimal(data, pos, negative, magnitude, suffix);
  }

  lemma CountedSize(opcode: byte, short: bool, data: seq<byte>)
    ensures |Counted(opcode, short, data)| > 0
  {
  }

  lemma OneByte(data: seq<byte>, pos: nat, code: byte, op: Op)
    requires D.At(data, pos, [code]) && Plain(code) == Some(op)
    ensures Fetch(data, pos) == Some(Fetched(op, pos + 1))
  {
    hide WithOperand;
    D.FirstByte(data, pos, [code]);
  }

  // ---- the memo

  lemma MemoizeRuns(data: seq<byte>, pos: nat, m: Machine, memo: seq<Value>)
    requires D.At(data, pos, [0x94]) && m.stack != [] && m.memo == MemoOf(memo) && |memo| < SPAN32
    ensures Run(data, pos, m) == Run(data, pos + 1, m.(memo := MemoOf(memo + [Top(m.stack)])))
  {
    MemoSize(memo);
    MemoKeeps(memo, Next, Top(m.stack));
    PlainStep(data, pos, m, 0x94, Memoize, m.(memo := MemoOf(memo + [Top(m.stack)])));
  }

  lemma SlotIsFetched(data: seq<byte>, pos: nat, code: byte, slot: nat, width: nat)
    requires (code == 0x71 && width == 1) || (code == 0x72 && width == 4) || (code == 0x68 && width == 1) || (code == 0x6A && width == 4)
    requires slot < Pow256(width) && D.At(data, pos, [code] + LittleEndian(slot, width))
    ensures Fetch(data, pos) == Some(Fetched(if code == 0x71 || code == 0x72 then Put(slot) else Get(slot), pos + 1 + width))
  {
    hide LittleEndian, Operand, Pow256;
    D.AtSplit(data, pos, [code], LittleEndian(slot, width));
    D.FirstByte(data, pos, [code]);
    OperandOf(data, pos + 1, slot, width);
  }

  lemma PutRuns(data: seq<byte>, pos: nat, m: Machine, code: byte, slot: nat, width: nat)
    requires (code == 0x71 && width == 1) || (code == 0x72 && width == 4)
    requires slot < Pow256(width) && D.At(data, pos, [code] + LittleEndian(slot, width)) && m.stack != []
    ensures Run(data, pos, m) == Run(data, pos + 1 + width, m.(memo := m.memo[slot := Top(m.stack)]))
  {
    hide LittleEndian, Fetch, Pow256;
    SlotIsFetched(data, pos, code, slot, width);
    Steps(data, pos, m, Put(slot), pos + 1 + width, m.(memo := m.memo[slot := Top(m.stack)]));
  }

  lemma KeepRuns(data: seq<byte>, pos: nat, m: Machine, memo: seq<Value>, keeping: Keeping)
    requires KeepingOk(keeping) && D.At(data, pos, KeepCode(keeping)) && m.stack != [] && m.memo == MemoOf(memo)
    requires Keep(memo, keeping, Top(m.stack)).Some? && |Keep(memo, keeping, Top(m.stack)).value| < SPAN32
    ensures Run(data, pos, m) == Run(data, pos + |KeepCode(keeping)|, m.(memo := MemoOf(Keep(memo, keeping, Top(m.stack)).value)))
  {
    hide LittleEndian, Run, Pow256, D.At, MemoOf;
    Widths();
    MemoKeeps(memo, keeping, Top(m.stack));
    match keeping
    case Next => MemoizeRuns(data, pos, m, memo);
    case Short(slot) => PutRuns(data, pos, m, 0x71, slot, 1);
    case Long(slot) => PutRuns(data, pos, m, 0x72, slot, 4);
  }

  lemma RecallRuns(data: seq<byte>, pos: nat, m: Machine, memo: seq<Value>, long: bool, slot: nat)
    requires slot < |memo| && slot < (if long then SPAN32 else 256) && m.memo == MemoOf(memo)
    requires D.At(data, pos, Code(PRecall(long, slot)))
    ensures Run(data, pos, m) == Run(data, pos + |Code(PRecall(long, slot))|, Pushed(m, [memo[slot]], memo))
  {
    hide LittleEndian, Fetch, Pow256;
    Widths();
    SlotIsFetched(data, pos, if long then 0x6A else 0x68, slot, if long then 4 else 1);
    Steps(data, pos, m, Get(slot), pos + if long then 5 else 2, Pushed(m, [memo[slot]], memo));
  }

  lemma FrameRuns(data: seq<byte>, pos: nat, m: Machine, noise: seq<byte>)
    requires (|noise| == 1 || |noise| == 8) && D.At(data, pos, [if |noise| == 1 then 0x80 else 0x95] + noise)
    ensures Run(data, pos, m) == Run(data, pos + 1 + |noise|, m)
  {
    hide Run, Execute;
    var code: byte := if |noise| == 1 then 0x80 else 0x95;
    D.AtSplit(data, pos, [code], noise);
    D.FirstByte(data, pos, [code]);
    assert Fetch(data, pos) == Some(Fetched(Skip, pos + 1 + |noise|));
    SkipDoesNothing(m);
    Steps(data, pos, m, Skip, pos + 1 + |noise|, m);
  }

  lemma SkipDoesNothing(m: Machine)
    ensures Execute(Skip, m) == Continue(m)
  {
  }

  // ---- containers

  lemma BuildsFlat(v: Value)
    requires Container(v) && forall c :: c in Children(v) ==> Depth(c) < MAX_DEPTH
    ensures Build(v) == Some(v.(depth := Height(Children(v))))
  {
    var d := Height(Children(v));
    assert IsHeight(Children(v), d);
  }

  lemma ListIsBuilt(vs: seq<Value>)
    requires Flat(vs)
    ensures Build(List(vs, 0)) == Some(List(vs, Height(Elements(vs))))
    ensures Build(Tuple(vs, 0)) == Some(Tuple(vs, Height(Elements(vs))))
  {
    hide Height;
    BuildsFlat(List(vs, 0));
    BuildsFlat(Tuple(vs, 0));
  }

  lemma EmptyHeights()
    ensures Height(Elements([])) == 1 && Height(Fill([], []).Values) == 1
  {
    assert Elements([]) == {} && Fill([], []).Values == {};
  }

  lemma {:induction false} FillHasValues(pairs: seq<PPair>, vs: seq<Value>)
    requires |pairs| == |vs|
    ensures forall v :: v in Fill(pairs, vs).Values ==> v in vs
    decreases |pairs|
  {
    if pairs != [] {
      var (ps, init) := (pairs[..|pairs| - 1], vs[..|vs| - 1]);
      FillHasValues(ps, init);
      forall v | v in Fill(pairs, vs).Values ensures v in vs {
        if v != vs[|vs| - 1] { assert v in Fill(ps, init).Values; }
      }
    }
  }

  lemma DictIsBuilt(pairs: seq<PPair>, vs: seq<Value>)
    requires |pairs| == |vs| && Flat(vs)
    ensures Build(Dict(Fill(pairs, vs), 0)) == Some(Dict(Fill(pairs, vs), Height(Fill(pairs, vs).Values)))
  {
    hide Height;
    FillHasValues(pairs, vs);
    BuildsFlat(Dict(Fill(pairs, vs), 0));
  }

  /** The items above a fresh mark. */
  lemma Marked(m: Machine, vs: seq<Value>, memo: seq<Value>)
    ensures PopToMark(Pushed(m.(marks := m.marks + [|m.stack|]), vs, memo)) == Some((vs, m.(memo := MemoOf(memo))))
  {
  }

  /** What a value's keys and values look like on the stack. */
  function Interleave(pairs: seq<PPair>, vs: seq<Value>): (r: seq<Value>)
    requires |pairs| == |vs|
    ensures |r| == 2 * |pairs|
  {
    if pairs == [] then [] else Interleave(pairs[..|pairs| - 1], vs[..|vs| - 1]) + [Text(pairs[|pairs| - 1].key), vs[|vs| - 1]]
  }

  lemma {:induction false} AssignedIsFill(pairs: seq<PPair>, vs: seq<Value>)
    requires |pairs| == |vs|
    ensures Assigned(map[], Interleave(pairs, vs), |pairs|) == Some(Fill(pairs, vs))
    decreases |pairs|
  {
    if pairs != [] {
      var (ps, init) := (pairs[..|pairs| - 1], vs[..|vs| - 1]);
      AssignedIsFill(ps, init);
      D.AssignedPrefix(map[], Interleave(ps, init), [Text(pairs[|pairs| - 1].key), vs[|vs| - 1]], |ps|);
    }
  }

  lemma {:induction false} InterleavedShallow(pairs: seq<PPair>, vs: seq<Value>, n: nat)
    requires |pairs| == |vs| && Flat(vs) && n <= |pairs|
    ensures Shallow(Interleave(pairs, vs), n)
    decreases n
  {
    if n > 0 {
      InterleavedShallow(pairs, vs, n - 1);
      InterleavedAt(pairs, vs, n - 1);
    }
  }

  lemma {:induction false} InterleavedAt(pairs: seq<PPair>, vs: seq<Value>, i: nat)
    requires |pairs| == |vs| && i < |pairs|
    ensures Interleave(pairs, vs)[2 * i + 1] == vs[i]
    decreases |pairs|
  {
    if i < |pairs| - 1 { InterleavedAt(pairs[..|pairs| - 1], vs[..|vs| - 1], i); }
  }

  lemma InterleaveFront(p: PPair, v: Value, pairs: seq<PPair>, vs: seq<Value>)
    requires |pairs| == |vs|
    ensures Interleave([p] + pairs, [v] + vs) == [Text(p.key), v] + Interleave(pairs, vs)
    decreases |pairs|
  {
    if pairs == [] {
      assert [p] + pairs == [p] && [v] + vs == [v];
      assert Interleave([p], [v]) == Interleave([], []) + [Text(p.key), v];
    } else {
      var (ps, init) := (pairs[..|pairs| - 1], vs[..|vs| - 1]);
      assert ([p] + pairs)[..|pairs|] == [p] + ps && ([v] + vs)[..|vs|] == [v] + init;
      InterleaveFront(p, v, ps, init);
    }
  }

  // ---- the closing instructions

  lemma ListCollects(m: Machine, vs: seq<Value>, memo: seq<Value>)
    requires Flat(vs)
    ensures Execute(MakeList, Pushed(m.(marks := m.marks + [|m.stack|]), vs, memo))
         == Continue(Pushed(m, [List(vs, Height(Elements(vs)))], memo))
    ensures Execute(MakeTuple, Pushed(m.(marks := m.marks + [|m.stack|]), vs, memo))
         == Continue(Pushed(m, [Tuple(vs, Height(Elements(vs)))], memo))
  {
    hide Height, Build;
    Marked(m, vs, memo);
    ListIsBuilt(vs);
  }

  lemma ListTakes(m: Machine, vs: seq<Value>, memo: seq<Value>, empty: Value)
    requires Flat(vs) && empty == List([], 1)
    ensures var filled := m.(stack := m.stack + [empty]);
            Execute(Appends, Pushed(filled.(marks := filled.marks + [|filled.stack|]), vs, memo))
            == Continue(Pushed(m, [List(vs, Height(Elements(vs)))], memo))
  {
    hide Height, Build, PopToMark, MemoOf, Flat, Children;
    Marked(m.(stack := m.stack + [empty]), vs, memo);
    ListIsBuilt(vs);
    assert [] + vs == vs;
    assert Under(m.stack + [empty], 1) == m.stack;
  }

  lemma TupleCounts(m: Machine, vs: seq<Value>, memo: seq<Value>)
    requires Flat(vs)
    ensures Execute(TupleOf(|vs|), Pushed(m, vs, memo)) == Continue(Pushed(m, [Tuple(vs, Height(Elements(vs)))], memo))
  {
    hide Height, Build;
    ListIsBuilt(vs);
    var s := m.stack + vs;
    assert s[|s| - |vs|..] == vs && Under(s, |vs|) == m.stack;
  }

  lemma DictCollects(m: Machine, pairs: seq<PPair>, vs: seq<Value>, memo: seq<Value>)
    requires |pairs| == |vs| && Flat(vs)
    ensures Execute(MakeDict, Pushed(m.(marks := m.marks + [|m.stack|]), Interleave(pairs, vs), memo))
         == Continue(Pushed(m, [Dict(Fill(pairs, vs), Height(Fill(pairs, vs).Values))], memo))
  {
    hide Height, Build, Fill, Interleave, Assigned, PopToMark, MemoOf, Flat, Children;
    Marked(m, Interleave(pairs, vs), memo);
    AssignedIsFill(pairs, vs);
    DictIsBuilt(pairs, vs);
  }

  lemma DictTakes(m: Machine, pairs: seq<PPair>, vs: seq<Value>, memo: seq<Value>, empty: Value)
    requires |pairs| == |vs| && Flat(vs) && empty == Dict(map[], 1)
    ensures var filled := m.(stack := m.stack + [empty]);
            Execute(SetItems, Pushed(filled.(marks := filled.marks + [|filled.stack|]), Interleave(pairs, vs), memo))
            == Continue(Pushed(m, [Dict(Fill(pairs, vs), Height(Fill(pairs, vs).Values))], memo))
  {
    hide Height, Build, Fill, Interleave, Assigned, Shallow, PopToMark, MemoOf, Flat, Children;
    Marked(m.(stack := m.stack + [empty]), Interleave(pairs, vs), memo);
    AssignedIsFill(pairs, vs);
    InterleavedShallow(pairs, vs, |pairs|);
    DictIsBuilt(pairs, vs);
    assert Under(m.stack + [empty], 1) == m.stack;
  }

  lemma OneAppends(m: Machine, done: seq<Value>, v: Value)
    requires Flat(done + [v])
    ensures Execute(Append, m.(stack := m.stack + [List(done, Height(Elements(done)))] + [v]))
         == Continue(m.(stack := m.stack + [List(done + [v], Height(Elements(done + [v])))]))
  {
    hide Height, Build;
    ListIsBuilt(done + [v]);
    var s := m.stack + [List(done, Height(Elements(done)))] + [v];
    assert Under(s, 2) == m.stack;
  }

  lemma OneSets(m: Machine, pairs: seq<PPair>, vs: seq<Value>, p: PPair, v: Value)
    requires |pairs| == |vs| && Flat(vs + [v])
    ensures var before := Dict(Fill(pairs, vs), Height(Fill(pairs, vs).Values));
            Execute(SetItem, m.(stack := m.stack + [before] + [Text(p.key), v]))
            == Continue(m.(stack := m.stack + [Dict(Fill(pairs + [p], vs + [v]), Height(Fill(pairs + [p], vs + [v]).Values))]))
  {
    hide Height, Build;
    DictIsBuilt(pairs + [p], vs + [v]);
    assert (pairs + [p])[..|pairs|] == pairs && (vs + [v])[..|vs|] == vs;
    var s := m.stack + [Dict(Fill(pairs, vs), Height(Fill(pairs, vs).Values))] + [Text(p.key), v];
    assert Under(s, 3) == m.stack;
  }

  // ---- scripts

  /** The code of a script pushes its meaning and leaves the memo it says. */
  lemma {:induction false} ScriptRuns(data: seq<byte>, pos: nat, m: Machine, memo: seq<Value>, s: Script)
    requires Valid(s) && D.At(data, pos, Code(s)) && m.memo == MemoOf(memo)
    requires Load(s, memo).Some? && |Load(s, memo).value.memo| < SPAN32
    ensures Run(data, pos, m) == Run(data, pos + |Code(s)|, Pushed(m, [Load(s, memo).value.value], Load(s, memo).value.memo))
    decreases s, 1
  {
    if Scalar(s) {
      hide Valid, Code, Load, Run, Fetch, D.At, MemoOf;
      ScalarIsFetched(data, pos, s, memo);
      PushStep(data, pos, m, Load(s, memo).value.value, pos + |Code(s)|, memo);
    } else {
      hide Valid, Code, Load, Run, D.At, MemoOf, Pushed;
      match s
      case PList(_, _, _) => ListRuns(data, pos, m, memo, s);
      case PTuple(_, _) => TupleRuns(data, pos, m, memo, s);
      case PDict(_, _, _) => DictRuns(data, pos, m, memo, s);
      case PKeep(_, _) => KeptRuns(data, pos, m, memo, s);
      case PRecall(_, _) => RecalledRuns(data, pos, m, memo, s);
      case PFrame(_, _) => FramedRuns(data, pos, m, memo, s);
    }
  }

  lemma RecalledRuns(data: seq<byte>, pos: nat, m: Machine, memo: seq<Value>, s: Script)
    requires s.PRecall? && Valid(s) && D.At(data, pos, Code(s)) && m.memo == MemoOf(memo) && Load(s, memo).Some?
    ensures Run(data, pos, m) == Run(data, pos + |Code(s)|, Pushed(m, [Load(s, memo).value.value], Load(s, memo).value.memo))
  {
    hide Run, Code, MemoOf;
    RecallRuns(data, pos, m, memo, s.long, s.slot);
  }

  lemma {:induction false} FramedRuns(data: seq<byte>, pos: nat, m: Machine, memo: seq<Value>, s: Script)
    requires s.PFrame? && Valid(s) && D.At(data, pos, Code(s)) && m.memo == MemoOf(memo)
    requires Load(s, memo).Some? && |Load(s, memo).value.memo| < SPAN32
    ensures Run(data, pos, m) == Run(data, pos + |Code(s)|, Pushed(m, [Load(s, memo).value.value], Load(s, memo).value.memo))
    decreases s, 0
  {
    hide Run, MemoOf, D.At, Pushed;
    var prefix: seq<byte> := [if |s.noise| == 1 then 0x80 else 0x95] + s.noise;
    D.AtSplit(data, pos, prefix, Code(s.what));
    FrameRuns(data, pos, m, s.noise);
    ScriptRuns(data, pos + |prefix|, m, memo, s.what);
  }

  lemma {:induction false} KeptRuns(data: seq<byte>, pos: nat, m: Machine, memo: seq<Value>, s: Script)
    requires s.PKeep? && Valid(s) && D.At(data, pos, Code(s)) && m.memo == MemoOf(memo)
    requires Load(s, memo).Some? && |Load(s, memo).value.memo| < SPAN32
    ensures Run(data, pos, m) == Run(data, pos + |Code(s)|, Pushed(m, [Load(s, memo).value.value], Load(s, memo).value.memo))
    decreases s, 0
  {
    hide Run, MemoOf, D.At, KeepCode, KeepingOk;
    D.AtSplit(data, pos, Code(s.what), KeepCode(s.keeping));
    var r := Load(s.what, memo).value;
    ScriptRuns(data, pos, m, memo, s.what);
    KeepRuns(data, pos + |Code(s.what)|, Pushed(m, [r.value], r.memo), r.memo, s.keeping);
  }

  lemma {:induction false} ItemsRun(data: seq<byte>, pos: nat, m: Machine, memo: seq<Value>, items: seq<Script>)
    requires (forall x :: x in items ==> Valid(x)) && D.At(data, pos, CodeAll(items)) && m.memo == MemoOf(memo)
    requires LoadAll(items, memo).Some? && |LoadAll(items, memo).value.memo| < SPAN32
    ensures Run(data, pos, m) == Run(data, pos + |CodeAll(items)|, Pushed(m, LoadAll(items, memo).value.value, LoadAll(items, memo).value.memo))
    decreases items, 0
  {
    hide Run, MemoOf, D.At, Code, Load, Valid;
    if items == [] {
      assert Pushed(m, [], memo) == m;
    } else {
      D.AtSplit(data, pos, Code(items[0]), CodeAll(items[1..]));
      var first := Load(items[0], memo).value;
      ScriptRuns(data, pos, m, memo, items[0]);
      ItemsRun(data, pos + |Code(items[0])|, Pushed(m, [first.value], first.memo), first.memo, items[1..]);
      var rest := LoadAll(items[1..], first.memo).value;
      assert m.stack + [first.value] + rest.value == m.stack + ([first.value] + rest.value);
    }
  }

  // ---- lists and tuples

  /** An empty container, kept at once or not. */
  lemma StartRuns(data: seq<byte>, pos: nat, m: Machine, memo: seq<Value>, code: byte, empty: Value, kept: bool)
    requires (code == 0x5D && empty == List([], 1)) || (code == 0x7D && empty == Dict(map[], 1))
    requires D.At(data, pos, [code] + Early(kept)) && m.memo == MemoOf(memo) && (kept ==> |memo| < SPAN32)
    ensures Run(data, pos, m) == Run(data, pos + 1 + |Early(kept)|, Pushed(m, [empty], if kept then memo + [empty] else memo))
  {
    hide Run, MemoOf, D.At, Fetch;
    D.AtSplit(data, pos, [code], Early(kept));
    OneByte(data, pos, code, Push(empty));
    InsideByte(data, pos, code);
    PushStep(data, pos, m, empty, pos + 1, memo);
    if kept { MemoizeRuns(data, pos + 1, Pushed(m, [empty], memo), memo); }
  }

  lemma InsideByte(data: seq<byte>, pos: nat, code: byte)
    requires D.At(data, pos, [code])
    ensures pos < |data|
  {
  }

  /** A mark, items, and the instruction that collects them. */
  lemma {:induction false} CollectedRuns(data: seq<byte>, pos: nat, m: Machine, memo: seq<Value>, items: seq<Script>, closer: byte)
    requires closer == 0x6C || closer == 0x74
    requires (forall x :: x in items ==> Valid(x)) && D.At(data, pos, [0x28] + (CodeAll(items) + [closer])) && m.memo == MemoOf(memo)
    requires LoadAll(items, memo).Some? && |LoadAll(items, memo).value.memo| < SPAN32 && Flat(LoadAll(items, memo).value.value)
    ensures var (vs, after) := (LoadAll(items, memo).value.value, LoadAll(items, memo).value.memo);
            var whole := if closer == 0x6C then List(vs, Height(Elements(vs))) else Tuple(vs, Height(Elements(vs)));
            Run(data, pos, m) == Run(data, pos + 2 + |CodeAll(items)|, Pushed(m, [whole], after))
    decreases items, 1
  {
    hide Run, MemoOf, D.At, CodeAll, LoadAll, Execute, Height, Valid, Flat;
    D.AtSplit(data, pos, [0x28], CodeAll(items) + [closer]);
    D.AtSplit(data, pos + 1, CodeAll(items), [closer]);
    D.MarkRuns(data, pos, m);
    var marked := m.(marks := m.marks + [|m.stack|]);
    var (vs, after) := (LoadAll(items, memo).value.value, LoadAll(items, memo).value.memo);
    ItemsRun(data, pos + 1, marked, memo, items);
    ListCollects(m, vs, after);
    var whole := if closer == 0x6C then List(vs, Height(Elements(vs))) else Tuple(vs, Height(Elements(vs)));
    PlainStep(data, pos + 1 + |CodeAll(items)|, Pushed(marked, vs, after), closer, if closer == 0x6C then MakeList else MakeTuple,
              Pushed(m, [whole], after));
  }

  /** A batch of items for the empty list below the mark. */
  lemma {:induction false} BatchRuns(data: seq<byte>, pos: nat, m: Machine, memo: seq<Value>, items: seq<Script>)
    requires (forall x :: x in items ==> Valid(x)) && D.At(data, pos, [0x28] + (CodeAll(items) + [0x65])) && m.memo == MemoOf(memo)
    requires LoadAll(items, memo).Some? && |LoadAll(items, memo).value.memo| < SPAN32 && Flat(LoadAll(items, memo).value.value)
    ensures var (vs, after) := (LoadAll(items, memo).value.value, LoadAll(items, memo).value.memo);
            Run(data, pos, Pushed(m, [List([], 1)], memo))
            == Run(data, pos + 2 + |CodeAll(items)|, Pushed(m, [List(vs, Height(Elements(vs)))], after))
    decreases items, 1
  {
    hide Run, MemoOf, D.At, CodeAll, LoadAll, Execute, Height, Valid, Flat;
    D.AtSplit(data, pos, [0x28], CodeAll(items) + [0x65]);
    D.AtSplit(data, pos + 1, CodeAll(items), [0x65]);
    var filled := Pushed(m, [List([], 1)], memo);
    D.MarkRuns(data, pos, filled);
    var marked := filled.(marks := filled.marks + [|filled.stack|]);
    var (vs, after) := (LoadAll(items, memo).value.value, LoadAll(items, memo).value.memo);
    ItemsRun(data, pos + 1, marked, memo, items);
    ListTakes(m, vs, after, List([], 1));
    PlainStep(data, pos + 1 + |CodeAll(items)|, Pushed(marked, vs, after), 0x65, Appends, Pushed(m, [List(vs, Height(Elements(vs)))], after));
  }

  lemma FlatParts(a: seq<Value>, b: seq<Value>)
    requires Flat(a + b)
    ensures Flat(a) && Flat(b)
  {
    forall v | v in a ensures Depth(v) < MAX_DEPTH { assert v in a + b; }
    forall v | v in b ensures Depth(v) < MAX_DEPTH { assert v in a + b; }
  }

  /** Items appended one by one to a list that already holds some. */
  lemma {:induction false} EachRuns(data: seq<byte>, pos: nat, m: Machine, memo: seq<Value>, done: seq<Value>, items: seq<Script>)
    requires (forall x :: x in items ==> Valid(x)) && D.At(data, pos, CodeEach(items)) && m.memo == MemoOf(memo)
    requires LoadAll(items, memo).Some? && |LoadAll(items, memo).value.memo| < SPAN32 && Flat(done + LoadAll(items, memo).value.value)
    ensures var (vs, after) := (LoadAll(items, memo).value.value, LoadAll(items, memo).value.memo);
            Run(data, pos, Pushed(m, [List(done, Height(Elements(done)))], memo))
            == Run(data, pos + |CodeEach(items)|, Pushed(m, [List(done + vs, Height(Elements(done + vs)))], after))
    decreases items
  {
    hide Run, MemoOf, D.At, Code, Load, Execute, Height, Valid;
    var start := Pushed(m, [List(done, Height(Elements(done)))], memo);
    if items == [] {
      assert done + [] == done;
    } else {
      var first := Load(items[0], memo).value;
      var rest := LoadAll(items[1..], first.memo).value;
      D.AtSplit(data, pos, Code(items[0]) + [0x61], CodeEach(items[1..]));
      D.AtSplit(data, pos, Code(items[0]), [0x61]);
      ScriptRuns(data, pos, start, memo, items[0]);
      assert done + ([first.value] + rest.value) == (done + [first.value]) + rest.value;
      FlatParts(done + [first.value], rest.value);
      OneAppends(m.(memo := MemoOf(first.memo)), done, first.value);
      PlainStep(data, pos + |Code(items[0])|, Pushed(start, [first.value], first.memo), 0x61, Append,
                Pushed(m, [List(done + [first.value], Height(Elements(done + [first.value])))], first.memo));
      EachRuns(data, pos + |Code(items[0])| + 1, m.(memo := MemoOf(first.memo)), first.memo, done + [first.value], items[1..]);
    }
  }

  lemma ListParts(s: Script, memo: seq<Value>)
    requires s.PList? && Valid(s) && Load(s, memo).Some?
    ensures forall x :: x in s.items ==> Valid(x)
    ensures var start := Kept(memo, s.style, s.kept, List([], 1));
            && LoadAll(s.items, start).Some? && Flat(LoadAll(s.items, start).value.value)
            && Load(s, memo).value == Loaded(List(LoadAll(s.items, start).value.value, Height(Elements(LoadAll(s.items, start).value.value))),
                                             LoadAll(s.items, start).value.memo)
  {
    hide Height, Code;
  }

  lemma ListCode(s: Script)
    requires s.PList? && Valid(s)
    ensures forall x :: x in s.items ==> Valid(x)
    ensures s.style.Collected? ==> Code(s) == [0x28] + (CodeAll(s.items) + [0x6C])
    ensures s.style.OneByOne? ==> Code(s) == [0x5D] + Early(s.kept) + CodeEach(s.items)
    ensures s.style.Batched? ==> Code(s) == [0x5D] + Early(s.kept) + ([0x28] + (CodeAll(s.items) + [0x65]))
  {
    hide CodeAll, CodeEach, Early;
    var head, each, batch := Early(s.kept), CodeEach(s.items), [0x28] + (CodeAll(s.items) + [0x65]);
    assert [0x5D] + (head + each) == [0x5D] + head + each;
    assert [0x5D] + (head + batch) == [0x5D] + head + batch;
  }

  lemma {:induction false} ListRuns(data: seq<byte>, pos: nat, m: Machine, memo: seq<Value>, s: Script)
    requires s.PList?
    requires Valid(s) && D.At(data, pos, Code(s)) && m.memo == MemoOf(memo)
    requires Load(s, memo).Some? && |Load(s, memo).value.memo| < SPAN32
    ensures Run(data, pos, m) == Run(data, pos + |Code(s)|, Pushed(m, [Load(s, memo).value.value], Load(s, memo).value.memo))
    decreases s, 0
  {
    hide Run, MemoOf, D.At, Code, Load, CodeAll, CodeEach, LoadAll, Height, Valid, Flat, Early;
    ListParts(s, memo);
    ListCode(s);
    var start := Kept(memo, s.style, s.kept, List([], 1));
    if s.style.Collected? {
      CollectedRuns(data, pos, m, memo, s.items, 0x6C);
    } else {
      var body := if s.style.OneByOne? then CodeEach(s.items) else [0x28] + (CodeAll(s.items) + [0x65]);
      D.AtSplit(data, pos, [0x5D] + Early(s.kept), body);
      StartRuns(data, pos, m, memo, 0x5D, List([], 1), s.kept);
      var at := pos + 1 + |Early(s.kept)|;
      if s.style.OneByOne? {
        EmptyHeights();
        assert [] + LoadAll(s.items, start).value.value == LoadAll(s.items, start).value.value;
        EachRuns(data, at, m.(memo := MemoOf(start)), start, [], s.items);
      } else {
        BatchRuns(data, at, m.(memo := MemoOf(start)), start, s.items);
      }
    }
  }

  lemma TupleParts(s: Script, memo: seq<Value>)
    requires s.PTuple? && Valid(s) && Load(s, memo).Some?
    ensures (forall x :: x in s.items ==> Valid(x)) && (s.counted ==> |s.items| <= 3)
    ensures LoadAll(s.items, memo).Some? && Flat(LoadAll(s.items, memo).value.value)
    ensures Load(s, memo).value == Loaded(Tuple(LoadAll(s.items, memo).value.value, Height(Elements(LoadAll(s.items, memo).value.value))),
                                          LoadAll(s.items, memo).value.memo)
    ensures !s.counted ==> Code(s) == [0x28] + (CodeAll(s.items) + [0x74])
    ensures s.counted ==> Code(s) == CodeAll(s.items) + [if s.items == [] then 0x29 else 0x84 + |s.items|]
  {
    hide Height;
  }

  lemma {:induction false} LoadAllCount(items: seq<Script>, memo: seq<Value>)
    ensures LoadAll(items, memo).Some? ==> |LoadAll(items, memo).value.value| == |items|
    decreases items
  {
    hide Load;
    if items != [] && Load(items[0], memo).Some? { LoadAllCount(items[1..], Load(items[0], memo).value.memo); }
  }

  lemma {:induction false} TupleRuns(data: seq<byte>, pos: nat, m: Machine, memo: seq<Value>, s: Script)
    requires s.PTuple?
    requires Valid(s) && D.At(data, pos, Code(s)) && m.memo == MemoOf(memo)
    requires Load(s, memo).Some? && |Load(s, memo).value.memo| < SPAN32
    ensures Run(data, pos, m) == Run(data, pos + |Code(s)|, Pushed(m, [Load(s, memo).value.value], Load(s, memo).value.memo))
    decreases s, 0
  {
    hide Run, MemoOf, D.At, Code, Load, CodeAll, LoadAll, Height, Valid, Flat;
    TupleParts(s, memo);
    if !s.counted {
      CollectedRuns(data, pos, m, memo, s.items, 0x74);
    } else {
      CountedRuns(data, pos, m, memo, s.items);
    }
  }

  lemma {:induction false} CountedRuns(data: seq<byte>, pos: nat, m: Machine, memo: seq<Value>, items: seq<Script>)
    requires |items| <= 3 && (forall x :: x in items ==> Valid(x)) && m.memo == MemoOf(memo)
    requires D.At(data, pos, CodeAll(items) + [if items == [] then 0x29 else 0x84 + |items|])
    requires LoadAll(items, memo).Some? && |LoadAll(items, memo).value.memo| < SPAN32 && Flat(LoadAll(items, memo).value.value)
    ensures var (vs, after) := (LoadAll(items, memo).value.value, LoadAll(items, memo).value.memo);
            Run(data, pos, m) == Run(data, pos + |CodeAll(items)| + 1, Pushed(m, [Tuple(vs, Height(Elements(vs)))], after))
    decreases items, 1
  {
    hide Run, MemoOf, D.At, CodeAll, LoadAll, Height, Valid, Flat, Execute;
    var closer: byte := if items == [] then 0x29 else 0x84 + |items|;
    var (vs, after) := (LoadAll(items, memo).value.value, LoadAll(items, memo).value.memo);
    D.AtSplit(data, pos, CodeAll(items), [closer]);
    ItemsRun(data, pos, m, memo, items);
    LoadAllCount(items, memo);
    TupleCounts(m, vs, after);
    if items == [] {
      EmptyTuple(m, vs, after);
      PlainStep(data, pos + |CodeAll(items)|, Pushed(m, vs, after), 0x29, Push(Tuple([], 1)), Pushed(m, [Tuple(vs, Height(Elements(vs)))], after));
    } else {
      PlainStep(data, pos + |CodeAll(items)|, Pushed(m, vs, after), closer, TupleOf(|vs|), Pushed(m, [Tuple(vs, Height(Elements(vs)))], after));
    }
  }

  lemma EmptyTuple(m: Machine, vs: seq<Value>, memo: seq<Value>)
    requires vs == []
    ensures Execute(Push(Tuple([], 1)), Pushed(m, vs, memo)) == Continue(Pushed(m, [Tuple(vs, Height(Elements(vs)))], memo))
  {
    EmptyHeights();
    assert m.stack + vs + [Tuple([], 1)] == m.stack + [Tuple([], 1)];
  }

  // ---- dictionaries

  lemma {:induction false} PairsRun(data: seq<byte>, pos: nat, m: Machine, memo: seq<Value>, pairs: seq<PPair>)
    requires (forall p :: p in pairs ==> TextOk(p.opcode, p.key) && Valid(p.value)) && D.At(data, pos, CodePairs(pairs)) && m.memo == MemoOf(memo)
    requires LoadPairs(pairs, memo).Some? && |LoadPairs(pairs, memo).value.memo| < SPAN32
    ensures Run(data, pos, m)
         == Run(data, pos + |CodePairs(pairs)|, Pushed(m, Interleave(pairs, LoadPairs(pairs, memo).value.value), LoadPairs(pairs, memo).value.memo))
    decreases pairs, 0
  {
    hide Run, MemoOf, D.At, CodePair, LoadPair, Valid, TextOk, Interleave;
    if pairs == [] {
      NoPairs();
      assert Pushed(m, [], memo) == m;
    } else {
      var first := LoadPair(pairs[0], memo).value;
      D.AtSplit(data, pos, CodePair(pairs[0]), CodePairs(pairs[1..]));
      PairRuns(data, pos, m, memo, pairs[0]);
      PairsRun(data, pos + |CodePair(pairs[0])|, Pushed(m, [Text(pairs[0].key), first.value], first.memo), first.memo, pairs[1..]);
      var rest := LoadPairs(pairs[1..], first.memo).value;
      InterleaveFront(pairs[0], first.value, pairs[1..], rest.value);
      assert [pairs[0]] + pairs[1..] == pairs;
      assert m.stack + [Text(pairs[0].key), first.value] + Interleave(pairs[1..], rest.value)
          == m.stack + ([Text(pairs[0].key), first.value] + Interleave(pairs[1..], rest.value));
    }
  }

  lemma NoPairs()
    ensures Interleave([], []) == []
  {
  }

  lemma {:induction false} PairRuns(data: seq<byte>, pos: nat, m: Machine, memo: seq<Value>, p: PPair)
    requires TextOk(p.opcode, p.key) && Valid(p.value) && D.At(data, pos, CodePair(p)) && m.memo == MemoOf(memo)
    requires LoadPair(p, memo).Some? && |LoadPair(p, memo).value.memo| < SPAN32
    ensures Run(data, pos, m)
         == Run(data, pos + |CodePair(p)|, Pushed(m, [Text(p.key), LoadPair(p, memo).value.value], LoadPair(p, memo).value.memo))
    decreases p
  {
    hide Run, MemoOf, D.At, Code, Load, Valid, TextOk, Fetch, TextCode;
    D.AtSplit(data, pos, TextCode(p.opcode, p.key), Code(p.value));
    CodedText(data, pos, p.opcode, p.key);
    TextInside(data, pos, p.opcode, p.key);
    PushStep(data, pos, m, Text(p.key), pos + |TextCode(p.opcode, p.key)|, memo);
    var keyed := Pushed(m, [Text(p.key)], memo);
    ScriptRuns(data, pos + |TextCode(p.opcode, p.key)|, keyed, memo, p.value);
    assert m.stack + [Text(p.key)] + [Load(p.value, memo).value.value] == m.stack + [Text(p.key), Load(p.value, memo).value.value];
  }

  lemma TextInside(data: seq<byte>, pos: nat, opcode: byte, text: seq<byte>)
    requires D.At(data, pos, TextCode(opcode, text))
    ensures pos < |data|
  {
  }

  /** Pairs set one by one in a dictionary that already holds some. */
  lemma {:induction false} EachPairRuns(data: seq<byte>, pos: nat, m: Machine, memo: seq<Value>, done: seq<PPair>, had: seq<Value>, pairs: seq<PPair>)
    requires |done| == |had| && (forall p :: p in pairs ==> TextOk(p.opcode, p.key) && Valid(p.value))
    requires D.At(data, pos, CodeEachPair(pairs)) && m.memo == MemoOf(memo)
    requires LoadPairs(pairs, memo).Some? && |LoadPairs(pairs, memo).value.memo| < SPAN32 && Flat(had + LoadPairs(pairs, memo).value.value)
    ensures var (vs, after) := (LoadPairs(pairs, memo).value.value, LoadPairs(pairs, memo).value.memo);
            Run(data, pos, Pushed(m, [Filled(done, had)], memo)) == Run(data, pos + |CodeEachPair(pairs)|, Pushed(m, [Filled(done + pairs, had + vs)], after))
    decreases pairs
  {
    hide Run, MemoOf, D.At, CodePair, LoadPair, Execute, Filled, Valid, TextOk;
    var start := Pushed(m, [Filled(done, had)], memo);
    if pairs == [] {
      assert done + pairs == done && had + [] == had;
    } else {
      var p, first := pairs[0], LoadPair(pairs[0], memo).value;
      var rest := LoadPairs(pairs[1..], first.memo).value;
      D.AtSplit(data, pos, CodePair(p) + [0x73], CodeEachPair(pairs[1..]));
      D.AtSplit(data, pos, CodePair(p), [0x73]);
      PairRuns(data, pos, start, memo, p);
      assert had + ([first.value] + rest.value) == (had + [first.value]) + rest.value;
      FlatParts(had + [first.value], rest.value);
      SetFills(m.(memo := MemoOf(first.memo)), done, had, p, first.value);
      PlainStep(data, pos + |CodePair(p)|, Pushed(start, [Text(p.key), first.value], first.memo), 0x73, SetItem,
                Pushed(m, [Filled(done + [p], had + [first.value])], first.memo));
      EachPairRuns(data, pos + |CodePair(p)| + 1, m.(memo := MemoOf(first.memo)), first.memo, done + [p], had + [first.value], pairs[1..]);
      assert done + [p] + pairs[1..] == done + pairs;
    }
  }

  ghost function Filled(pairs: seq<PPair>, vs: seq<Value>): Value
    requires |pairs| == |vs|
  {
    Dict(Fill(pairs, vs), Height(Fill(pairs, vs).Values))
  }

  lemma SetFills(m: Machine, pairs: seq<PPair>, vs: seq<Value>, p: PPair, v: Value)
    requires |pairs| == |vs| && Flat(vs + [v])
    ensures Execute(SetItem, m.(stack := m.stack + [Filled(pairs, vs)] + [Text(p.key), v]))
         == Continue(m.(stack := m.stack + [Filled(pairs + [p], vs + [v])]))
  {
    hide Execute;
    OneSets(m, pairs, vs, p, v);
  }

  lemma {:induction false} DictCollectedRuns(data: seq<byte>, pos: nat, m: Machine, memo: seq<Value>, pairs: seq<PPair>)
    requires (forall p :: p in pairs ==> TextOk(p.opcode, p.key) && Valid(p.value)) && m.memo == MemoOf(memo)
    requires D.At(data, pos, [0x28] + (CodePairs(pairs) + [0x64]))
    requires LoadPairs(pairs, memo).Some? && |LoadPairs(pairs, memo).value.memo| < SPAN32 && Flat(LoadPairs(pairs, memo).value.value)
    ensures var (vs, after) := (LoadPairs(pairs, memo).value.value, LoadPairs(pairs, memo).value.memo);
            Run(data, pos, m) == Run(data, pos + 2 + |CodePairs(pairs)|, Pushed(m, [Filled(pairs, vs)], after))
    decreases pairs, 1
  {
    hide Run, MemoOf, D.At, CodePairs, LoadPairs, Execute, Height, Fill, Interleave, Valid, TextOk, Flat;
    D.AtSplit(data, pos, [0x28], CodePairs(pairs) + [0x64]);
    D.AtSplit(data, pos + 1, CodePairs(pairs), [0x64]);
    D.MarkRuns(data, pos, m);
    var marked := m.(marks := m.marks + [|m.stack|]);
    var (vs, after) := (LoadPairs(pairs, memo).value.value, LoadPairs(pairs, memo).value.memo);
    PairsRun(data, pos + 1, marked, memo, pairs);
    DictCollects(m, pairs, vs, after);
    PlainStep(data, pos + 1 + |CodePairs(pairs)|, Pushed(marked, Interleave(pairs, vs), after), 0x64, MakeDict, Pushed(m, [Filled(pairs, vs)], after));
  }

  lemma {:induction false} DictBatchRuns(data: seq<byte>, pos: nat, m: Machine, memo: seq<Value>, pairs: seq<PPair>)
    requires (forall p :: p in pairs ==> TextOk(p.opcode, p.key) && Valid(p.value)) && m.memo == MemoOf(memo)
    requires D.At(data, pos, [0x28] + (CodePairs(pairs) + [0x75]))
    requires LoadPairs(pairs, memo).Some? && |LoadPairs(pairs, memo).value.memo| < SPAN32 && Flat(LoadPairs(pairs, memo).value.value)
    ensures var (vs, after) := (LoadPairs(pairs, memo).value.value, LoadPairs(pairs, memo).value.memo);
            Run(data, pos, Pushed(m, [Dict(map[], 1)], memo)) == Run(data, pos + 2 + |CodePairs(pairs)|, Pushed(m, [Filled(pairs, vs)], after))
    decreases pairs, 1
  {
    hide Run, MemoOf, D.At, CodePairs, LoadPairs, Execute, Height, Fill, Interleave, Valid, TextOk, Flat;
    D.AtSplit(data, pos, [0x28], CodePairs(pairs) + [0x75]);
    D.AtSplit(data, pos + 1, CodePairs(pairs), [0x75]);
    var filled := Pushed(m, [Dict(map[], 1)], memo);
    D.MarkRuns(data, pos, filled);
    var marked := filled.(marks := filled.marks + [|filled.stack|]);
    var (vs, after) := (LoadPairs(pairs, memo).value.value, LoadPairs(pairs, memo).value.memo);
    PairsRun(data, pos + 1, marked, memo, pairs);
    DictTakes(m, pairs, vs, after, Dict(map[], 1));
    PlainStep(data, pos + 1 + |CodePairs(pairs)|, Pushed(marked, Interleave(pairs, vs), after), 0x75, SetItems, Pushed(m, [Filled(pairs, vs)], after));
  }

  lemma DictParts(s: Script, memo: seq<Value>)
    requires s.PDict? && Valid(s) && Load(s, memo).Some?
    ensures forall p :: p in s.pairs ==> TextOk(p.opcode, p.key) && Valid(p.value)
    ensures var start := Kept(memo, s.style, s.kept, Dict(map[], 1));
            && LoadPairs(s.pairs, start).Some? && Flat(LoadPairs(s.pairs, start).value.value)
            && Load(s, memo).value == Loaded(Filled(s.pairs, LoadPairs(s.pairs, start).value.value), LoadPairs(s.pairs, start).value.memo)
  {
    hide Height, Fill, Code;
  }

  lemma DictCode(s: Script)
    requires s.PDict? && Valid(s)
    ensures forall p :: p in s.pairs ==> TextOk(p.opcode, p.key) && Valid(p.value)
    ensures s.style.Collected? ==> Code(s) == [0x28] + (CodePairs(s.pairs) + [0x64])
    ensures s.style.OneByOne? ==> Code(s) == [0x7D] + Early(s.kept) + CodeEachPair(s.pairs)
    ensures s.style.Batched? ==> Code(s) == [0x7D] + Early(s.kept) + ([0x28] + (CodePairs(s.pairs) + [0x75]))
  {
    hide CodePairs, CodeEachPair, Early, TextOk;
    var head, each, batch := Early(s.kept), CodeEachPair(s.pairs), [0x28] + (CodePairs(s.pairs) + [0x75]);
    assert [0x7D] + (head + each) == [0x7D] + head + each;
    assert [0x7D] + (head + batch) == [0x7D] + head + batch;
  }

  lemma FilledNothing()
    ensures Filled([], []) == Dict(map[], 1)
  {
    EmptyHeights();
  }

  lemma {:induction false} DictRuns(data: seq<byte>, pos: nat, m: Machine, memo: seq<Value>, s: Script)
    requires s.PDict?
    requires Valid(s) && D.At(data, pos, Code(s)) && m.memo == MemoOf(memo)
    requires Load(s, memo).Some? && |Load(s, memo).value.memo| < SPAN32
    ensures Run(data, pos, m) == Run(data, pos + |Code(s)|, Pushed(m, [Load(s, memo).value.value], Load(s, memo).value.memo))
    decreases s, 0
  {
    hide Run, MemoOf, D.At, Code, Load, CodePairs, CodeEachPair, LoadPairs, Filled, Valid, TextOk, Flat, Early;
    DictParts(s, memo);
    DictCode(s);
    var start := Kept(memo, s.style, s.kept, Dict(map[], 1));
    if s.style.Collected? {
      DictCollectedRuns(data, pos, m, memo, s.pairs);
    } else {
      var body := if s.style.OneByOne? then CodeEachPair(s.pairs) else [0x28] + (CodePairs(s.pairs) + [0x75]);
      D.AtSplit(data, pos, [0x7D] + Early(s.kept), body);
      StartRuns(data, pos, m, memo, 0x7D, Dict(map[], 1), s.kept);
      var at := pos + 1 + |Early(s.kept)|;
      if s.style.OneByOne? {
        FilledNothing();
        assert [] + LoadPairs(s.pairs, start).value.value == LoadPairs(s.pairs, start).value.value && [] + s.pairs == s.pairs;
        EachPairRuns(data, at, m.(memo := MemoOf(start)), start, [], [], s.pairs);
      } else {
        DictBatchRuns(data, at, m.(memo := MemoOf(start)), start, s.pairs);
      }
    }
  }

  /** A script written as a pickle loads to its meaning, however it was written. */
  lemma ScriptLoads(s: Script)
    requires Valid(s) && Load(s, []).Some? && |Load(s, []).value.memo| < SPAN32
    ensures Run(Code(s) + [0x2E], 0, EMPTY) == Some(Load(s, []).value.value)
  {
    hide Code, Load, Valid, Run;
    var data, at := Code(s) + [0x2E], |Code(s)|;
    assert D.At(data, 0, Code(s)) && MemoOf([]) == map[];
    ScriptRuns(data, 0, EMPTY, [], s);
    var v := Load(s, []).value.value;
    assert EMPTY.stack + [v] == [v];
    StopRunsOver(data, at, v, MemoOf(Load(s, []).value.memo));
  }

  lemma StopRunsOver(data: seq<byte>, at: nat, v: Value, memo: map<nat, Value>)
    requires at < |data| && data[at] == 0x2E
    ensures Run(data, at, Machine([v], [], memo)) == Some(v)
  {
    hide WithOperand;
    assert Fetch(data, at) == Some(Fetched(Stop, at + 1));
  }
}
