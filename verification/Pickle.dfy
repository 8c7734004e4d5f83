/**
 The pickle virtual machine: a value stack, a stack of marks and a memo. The reference machine below
 measures every container afresh and copies nothing; the reader keeps cached depths and clones.
 */
module Pickle {
  import opened Bytes
  import opened PickleValues

  // ---- operands

  /** The signed value of a little-endian two's complement integer of any length. */
  function TwosComplement(bytes: seq<byte>): int
  {
    if bytes == [] then 0
    else if bytes[|bytes| - 1] >= 128 then Unsigned(bytes) - Pow256(|bytes|)
    else Unsigned(bytes)
  }

  lemma Powers()
    ensures Pow256(0) == 1 && Pow256(1) == 0x100 && Pow256(2) == 0x1_0000 && Pow256(3) == 0x100_0000
    ensures Pow256(4) == SPAN32 && Pow256(5) == 0x100_0000_0000 && Pow256(6) == 0x1_0000_0000_0000
    ensures Pow256(7) == 0x100_0000_0000_0000 && Pow256(8) == SPAN64
  {
    assert Pow256(2) == 0x1_0000;
    assert Pow256(4) == SPAN32;
    assert Pow256(6) == 0x1_0000_0000_0000;
  }

  /** The last byte decides which half of its range an unsigned value lies in. */
  lemma {:induction false} TopByteDecides(bytes: seq<byte>)
    requires bytes != []
    ensures Unsigned(bytes) < Pow256(|bytes|)
    ensures bytes[|bytes| - 1] >= 128 <==> 2 * Unsigned(bytes) >= Pow256(|bytes|)
    decreases |bytes|
  {
    if |bytes| > 1 {
      TopByteDecides(bytes[1..]);
      TopStep(bytes[0], Unsigned(bytes[1..]), Pow256(|bytes| - 1));
      EvenPower(|bytes| - 1);
    } else {
      assert bytes[1..] == [];
    }
  }

  lemma TopStep(low: byte, high: nat, p: nat)
    requires high < p
    ensures low as int + 256 * high < 256 * p
    ensures p % 2 == 0 ==> (2 * (low as int + 256 * high) >= 256 * p <==> 2 * high >= p)
  {
  }

  lemma EvenPower(n: nat)
    requires n > 0
    ensures Pow256(n) % 2 == 0
  {
  }

  /** The first newline at or after `at`, or the end of the data. */
  function LineEnd(data: seq<byte>, at: nat): (end: nat)
    requires at <= |data|
    ensures at <= end <= |data| && (end < |data| ==> data[end] == 10)
    ensures forall i :: at <= i < end ==> data[i] != 10
    decreases |data| - at
  {
    if at == |data| || data[at] == 10 then at else LineEnd(data, at + 1)
  }

  predicate IsDigit(b: byte)
  {
    0x30 <= b <= 0x39
  }

  /** The decimal digits a line starts with, after what has been read of them. */
  function Digits(line: seq<byte>, so: nat): nat
    decreases |line|
  {
    if line == [] || !IsDigit(line[0]) then so else Digits(line[1..], 10 * so + (line[0] - 0x30))
  }

  /** `std::stoll`: white space, a sign, at least one digit, and a value that fits 64 bits. */
  function ParseInteger(line: seq<byte>): Option<int>
    decreases |line|
  {
    if line != [] && (line[0] == 0x20 || 9 <= line[0] <= 13) then ParseInteger(line[1..])
    else
      var signed := line != [] && (line[0] == 0x2B || line[0] == 0x2D);
      var digits := if signed then line[1..] else line;
      if digits == [] || !IsDigit(digits[0]) then None
      else
        var n: int := Digits(digits, 0);
        var value: int := if signed && line[0] == 0x2D then -n else n;
        if -MAX64 <= value < MAX64 then Some(value) else None
  }

  /** The argument of INT: the line up to the newline, without a trailing `L`. */
  function IntegerLine(line: seq<byte>): Option<int>
  {
    if line == [] then None
    else ParseInteger(if line[|line| - 1] == 0x4C then line[..|line| - 1] else line)
  }

  // ---- instructions

  datatype Op =
    | Mark | Stop | Push(v: Value) | Append | Appends | MakeList | MakeTuple | TupleOf(count: nat)
    | MakeDict | SetItem | SetItems | Put(id: nat) | Get(id: nat) | Memoize | Skip

  datatype Fetched = Fetched(op: Op, next: nat)

  function Operand(data: seq<byte>, at: nat, width: nat): Option<nat>
  {
    if at + width > |data| then None else Some(Unsigned(data[at..at + width]))
  }

  function StringAt(data: seq<byte>, at: nat, width: nat): Option<seq<byte>>
  {
    var length := Operand(data, at, width);
    if length.None? || at + width + length.value > |data| then None
    else Some(data[at + width..at + width + length.value])
  }

  function FetchText(data: seq<byte>, at: nat, width: nat): Option<Fetched>
  {
    match StringAt(data, at, width)
    case None => None
    case Some(s) => Some(Fetched(Push(Text(s)), at + width + |s|))
  }

  function FetchBytes(data: seq<byte>, at: nat, width: nat): Option<Fetched>
  {
    match StringAt(data, at, width)
    case None => None
    case Some(s) => Some(Fetched(Push(Value.Bytes(s)), at + width + |s|))
  }

  function FetchNumber(data: seq<byte>, at: nat, width: nat): Option<Fetched>
  {
    match Operand(data, at, width)
    case None => None
    case Some(n) => Some(Fetched(Push(Integer(if width == 4 then Signed32(n) else n)), at + width))
  }

  function FetchPut(data: seq<byte>, at: nat, width: nat): Option<Fetched>
  {
    match Operand(data, at, width)
    case None => None
    case Some(n) => Some(Fetched(Put(n), at + width))
  }

  function FetchGet(data: seq<byte>, at: nat, width: nat): Option<Fetched>
  {
    match Operand(data, at, width)
    case None => None
    case Some(n) => Some(Fetched(Get(n), at + width))
  }

  function FetchSkip(data: seq<byte>, at: nat, width: nat): Option<Fetched>
  {
    if at + width > |data| then None else Some(Fetched(Skip, at + width))
  }

  function FetchLine(data: seq<byte>, at: nat): Option<Fetched>
    requires at <= |data|
  {
    var end := LineEnd(data, at);
    if end == |data| then None
    else match IntegerLine(data[at..end])
      case None => None
      case Some(n) => Some(Fetched(Push(Integer(n)), end + 1))
  }

  function FetchFloat(data: seq<byte>, at: nat): Option<Fetched>
  {
    if at + 8 > |data| then None
    else Some(Fetched(Push(Float(Unsigned(Reversed(data[at..at + 8])))), at + 8))
  }

  function FetchLong(data: seq<byte>, at: nat): Option<Fetched>
  {
    if at >= |data| || data[at] > 8 || at + 1 + data[at] as nat > |data| then None
    else
      var n: nat := data[at];
      Some(Fetched(Push(Integer(TwosComplement(data[at + 1..at + 1 + n]))), at + 1 + n))
  }

  /** Instructions without an operand. */
  function Plain(code: byte): Option<Op>
  {
    match code
    case 0x28 => Some(Mark)
    case 0x2E => Some(Stop)
    case 0x4E => Some(Push(Nothing))
    case 0x88 => Some(Push(Boolean(true)))
    case 0x89 => Some(Push(Boolean(false)))
    case 0x5D => Some(Push(List([], 1)))
    case 0x61 => Some(Append)
    case 0x65 => Some(Appends)
    case 0x6C => Some(MakeList)
    case 0x29 => Some(Push(Tuple([], 1)))
    case 0x74 => Some(MakeTuple)
    case 0x85 => Some(TupleOf(1))
    case 0x86 => Some(TupleOf(2))
    case 0x87 => Some(TupleOf(3))
    case 0x7D => Some(Push(Dict(map[], 1)))
    case 0x64 => Some(MakeDict)
    case 0x73 => Some(SetItem)
    case 0x75 => Some(SetItems)
    case 0x94 => Some(Memoize)
    case _ => None
  }

  function WithOperand(code: byte, data: seq<byte>, at: nat): Option<Fetched>
    requires at <= |data|
  {
    match code
    case 0x49 => FetchLine(data, at)
    case 0x4A => FetchNumber(data, at, 4)
    case 0x4B => FetchNumber(data, at, 1)
    case 0x4D => FetchNumber(data, at, 2)
    case 0x47 => FetchFloat(data, at)
    case 0x8A => FetchLong(data, at)
    case 0x55 => FetchText(data, at, 1)
    case 0x54 => FetchText(data, at, 4)
    case 0x8C => FetchText(data, at, 1)
    case 0x58 => FetchText(data, at, 4)
    case 0x43 => FetchBytes(data, at, 1)
    case 0x42 => FetchBytes(data, at, 4)
    case 0x71 => FetchPut(data, at, 1)
    case 0x72 => FetchPut(data, at, 4)
    case 0x68 => FetchGet(data, at, 1)
    case 0x6A => FetchGet(data, at, 4)
    case 0x80 => FetchSkip(data, at, 1)
    case 0x95 => FetchSkip(data, at, 8)
    case _ => None
  }

  /** The instruction at `pos`, and where the next one starts. */
  function Fetch(data: seq<byte>, pos: nat): (r: Option<Fetched>)
    requires pos < |data|
    ensures r.Some? ==> pos < r.value.next <= |data|
  {
    var code := data[pos];
    match Plain(code)
    case Some(op) => Some(Fetched(op, pos + 1))
    case None => WithOperand(code, data, pos + 1)
  }

  // ---- the reference machine

  datatype Machine = Machine(stack: seq<Value>, marks: seq<nat>, memo: map<nat, Value>)

  datatype Effect = Continue(m: Machine) | Stopped(v: Value) | Failed

  function Top(s: seq<Value>): Value
    requires s != []
  {
    s[|s| - 1]
  }

  function Under(s: seq<Value>, n: nat): seq<Value>
    requires n <= |s|
  {
    s[..|s| - n]
  }

  /** The values above the last mark, and the machine without them and it. */
  function PopToMark(m: Machine): Option<(seq<Value>, Machine)>
  {
    if m.marks == [] then None
    else
      var at := m.marks[|m.marks| - 1];
      if at > |m.stack| then None
      else Some((m.stack[at..], m.(stack := m.stack[..at], marks := m.marks[..|m.marks| - 1])))
  }

  /** The entries after the first `n` key and value pairs; a key that is not text has no meaning. */
  function Assigned(base: map<seq<byte>, Value>, items: seq<Value>, n: nat): Option<map<seq<byte>, Value>>
    requires 2 * n <= |items|
    decreases n
  {
    if n == 0 then Some(base)
    else match Assigned(base, items, n - 1)
      case None => None
      case Some(entries) =>
        if items[2 * n - 2].Text? then Some(entries[items[2 * n - 2].data := items[2 * n - 1]]) else None
  }

  ghost function PushBuilt(m: Machine, below: seq<Value>, v: Value): Effect
    requires Container(v)
  {
    match Build(v)
    case None => Failed
    case Some(built) => Continue(m.(stack := below + [built]))
  }

  /** Each value of the first `n` pairs may still gain a level. */
  predicate Shallow(items: seq<Value>, n: nat)
    requires 2 * n <= |items|
    decreases n
  {
    n == 0 || (Shallow(items, n - 1) && Depth(items[2 * n - 1]) < MAX_DEPTH)
  }

  ghost function Execute(op: Op, m: Machine): Effect
  {
    var s := m.stack;
    match op
    case Mark => Continue(m.(marks := m.marks + [|s|]))
    case Stop => if |s| != 1 then Failed else Stopped(s[0])
    case Push(v) => Continue(m.(stack := s + [v]))
    case Append =>
      if |s| < 2 || !s[|s| - 2].List? then Failed
      else PushBuilt(m, Under(s, 2), List(s[|s| - 2].items + [Top(s)], 0))
    case Appends => (
      match PopToMark(m)
      case None => Failed
      case Some((items, rest)) =>
        if rest.stack == [] || !Top(rest.stack).List? then Failed
        else PushBuilt(rest, Under(rest.stack, 1), List(Top(rest.stack).items + items, 0)))
    case MakeList => (
      match PopToMark(m)
      case None => Failed
      case Some((items, rest)) => PushBuilt(rest, rest.stack, List(items, 0)))
    case MakeTuple => (
      match PopToMark(m)
      case None => Failed
      case Some((items, rest)) => PushBuilt(rest, rest.stack, Tuple(items, 0)))
    case TupleOf(n) =>
      if |s| < n then Failed else PushBuilt(m, Under(s, n), Tuple(s[|s| - n..], 0))
    case MakeDict => (
      match PopToMark(m)
      case None => Failed
      case Some((items, rest)) =>
        if |items| % 2 != 0 then Failed
        else match Assigned(map[], items, |items| / 2)
          case None => Failed
          case Some(entries) => PushBuilt(rest, rest.stack, Dict(entries, 0)))
    case SetItem =>
      if |s| < 3 || !s[|s| - 3].Dict? || !s[|s| - 2].Text? then Failed
      else PushBuilt(m, Under(s, 3), Dict(s[|s| - 3].entries[s[|s| - 2].data := Top(s)], 0))
    case SetItems => (
      match PopToMark(m)
      case None => Failed
      case Some((items, rest)) =>
        if |items| % 2 != 0 || rest.stack == [] || !Top(rest.stack).Dict? || !Shallow(items, |items| / 2) then Failed
        else match Assigned(Top(rest.stack).entries, items, |items| / 2)
          case None => Failed
          case Some(entries) => PushBuilt(rest, Under(rest.stack, 1), Dict(entries, 0)))
    case Put(id) => if s == [] then Failed else Continue(m.(memo := m.memo[id := Top(s)]))
    case Get(id) => if id !in m.memo then Failed else Continue(m.(stack := s + [m.memo[id]]))
    case Memoize =>
      if s == [] then Failed else Continue(m.(memo := m.memo[|m.memo| % SPAN32 := Top(s)]))
    case Skip => Continue(m)
  }

  /** Runs to STOP; running off the data or any failure has no value. */
  ghost function Run(data: seq<byte>, pos: nat, m: Machine): Option<Value>
    decreases |data| - pos
  {
    if pos >= |data| then None
    else match Fetch(data, pos)
      case None => None
      case Some(f) =>
        match Execute(f.op, m)
        case Failed => None
        case Stopped(v) => Some(v)
        case Continue(next) => Run(data, f.next, next)
  }

  const EMPTY := Machine([], [], map[])

  // ---- what every reachable machine keeps

  /** Everything on the stack and in the memo is measured and within the nesting limit. */
  ghost predicate Healthy(m: Machine)
  {
    AllSound(m.stack) && forall id :: id in m.memo ==> Sound(m.memo[id])
  }

  lemma EmptyIsMeasured()
    ensures Sound(List([], 1)) && Sound(Tuple([], 1)) && Sound(Dict(map[], 1))
    ensures Build(List([], 0)) == Some(List([], 1)) && Build(Tuple([], 0)) == Some(Tuple([], 1))
    ensures Build(Dict(map[], 0)) == Some(Dict(map[], 1))
  {
    assert Children(List([], 1)) == {} && Children(Tuple([], 1)) == {} && Children(Dict(map[], 1)) == {};
    BuildFrom(List([], 0), 1);
    BuildFrom(Tuple([], 0), 1);
    BuildFrom(Dict(map[], 0), 1);
  }

  lemma FetchedIsSound(data: seq<byte>, pos: nat)
    requires pos < |data|
    ensures var f := Fetch(data, pos); f.Some? && f.value.op.Push? ==> Sound(f.value.op.v)
  {
    hide Height, Unsigned, TwosComplement, LineEnd, IntegerLine, Reversed, StringAt, Operand;
    EmptyIsMeasured();
  }

  lemma {:induction false} AssignedValues(base: map<seq<byte>, Value>, items: seq<Value>, n: nat)
    requires 2 * n <= |items| && Assigned(base, items, n).Some?
    ensures forall v :: v in Assigned(base, items, n).value.Values
              ==> v in base.Values || exists i :: 0 <= i < n && v == items[2 * i + 1]
    decreases n
  {
    if n > 0 {
      AssignedValues(base, items, n - 1);
      var before := Assigned(base, items, n - 1).value;
      forall v | v in Assigned(base, items, n).value.Values
        ensures v in base.Values || exists i :: 0 <= i < n && v == items[2 * i + 1]
      {
        if v !in before.Values { assert v == items[2 * (n - 1) + 1]; }
      }
    }
  }

  lemma AssignedIsMeasured(base: Value, items: seq<Value>)
    requires base.Dict? && Measured(base) && AllSound(items) && |items| % 2 == 0
    ensures var r := Assigned(base.entries, items, |items| / 2);
            r.Some? ==> forall c :: c in r.value.Values ==> Measured(c)
  {
    var r, n := Assigned(base.entries, items, |items| / 2), |items| / 2;
    if r.Some? {
      AssignedValues(base.entries, items, n);
      forall c | c in r.value.Values ensures Measured(c) {
        if c in base.entries.Values {
          assert c in Children(base);
        } else {
          var i :| 0 <= i < n && c == items[2 * i + 1];
          assert items[2 * i + 1] in items;
        }
      }
    }
  }

  lemma PushBuiltIsHealthy(m: Machine, below: seq<Value>, v: Value)
    requires Healthy(m) && AllSound(below) && Container(v) && forall c :: c in Children(v) ==> Measured(c)
    ensures PushBuilt(m, below, v).Continue? ==> Healthy(PushBuilt(m, below, v).m)
  {
    hide Height, Build, Sound;
    BuiltIsSound(v);
  }

  lemma ItemsAreMeasured(v: Value, items: seq<Value>)
    requires (v.List? || v.Tuple?) && v.items == items && AllSound(items)
    ensures forall c :: c in Children(v) ==> Measured(c)
  {
  }

  lemma GrownIsMeasured(target: Value, items: seq<Value>)
    requires target.List? && Sound(target) && AllSound(items)
    ensures forall c :: c in Children(List(target.items + items, 0)) ==> Measured(c)
  {
    forall c | c in Children(List(target.items + items, 0)) ensures Measured(c) {
      if c in target.items { assert c in Children(target); }
    }
  }

  lemma TopIsSound(s: seq<Value>, n: nat)
    requires AllSound(s) && 0 < n <= |s|
    ensures Sound(s[|s| - n]) && AllSound(Under(s, n)) && AllSound(s[|s| - n..])
  {
  }

  lemma PopIsHealthy(m: Machine)
    requires Healthy(m)
    ensures var p := PopToMark(m); p.Some? ==> AllSound(p.value.0) && Healthy(p.value.1)
  {
    hide Sound;
  }

  /** One instruction keeps every value measured, exact and within the limit. */
  lemma ExecuteKeepsHealthy(op: Op, m: Machine)
    requires Healthy(m) && (op.Push? ==> Sound(op.v))
    ensures var e := Execute(op, m);
            (e.Continue? ==> Healthy(e.m)) && (e.Stopped? ==> Sound(e.v))
  {
    hide Sound, Build, Measured, PushBuilt, AllSound;
    PopIsHealthy(m);
    match op
    case Append => AppendKeepsHealthy(m);
    case Appends => AppendsKeepsHealthy(m);
    case MakeList => MakeKeepsHealthy(m);
    case MakeTuple => MakeKeepsHealthy(m);
    case TupleOf(n) => TupleKeepsHealthy(m, n);
    case MakeDict => DictKeepsHealthy(m);
    case SetItem => SetKeepsHealthy(m);
    case SetItems => SetsKeepsHealthy(m);
    case _ => SimpleKeepsHealthy(op, m);
  }

  lemma SimpleKeepsHealthy(op: Op, m: Machine)
    requires Healthy(m) && (op.Push? ==> Sound(op.v))
    requires op.Mark? || op.Stop? || op.Push? || op.Put? || op.Get? || op.Memoize? || op.Skip?
    ensures var e := Execute(op, m);
            (e.Continue? ==> Healthy(e.m)) && (e.Stopped? ==> Sound(e.v))
  {
    hide Sound;
  }

  lemma AppendKeepsHealthy(m: Machine)
    requires Healthy(m)
    ensures var e := Execute(Append, m); !e.Stopped? && (e.Continue? ==> Healthy(e.m))
  {
    hide Sound, Build, Measured;
    var s := m.stack;
    if |s| >= 2 && s[|s| - 2].List? {
      TopIsSound(s, 2);
      TopIsSound(s, 1);
      GrownIsMeasured(s[|s| - 2], [Top(s)]);
      PushBuiltIsHealthy(m, Under(s, 2), List(s[|s| - 2].items + [Top(s)], 0));
    }
  }

  lemma AppendsKeepsHealthy(m: Machine)
    requires Healthy(m)
    ensures var e := Execute(Appends, m); !e.Stopped? && (e.Continue? ==> Healthy(e.m))
  {
    hide Sound, Build, Measured, PopToMark;
    PopIsHealthy(m);
    match PopToMark(m)
    case None =>
    case Some((items, rest)) =>
      if rest.stack != [] && Top(rest.stack).List? {
        TopIsSound(rest.stack, 1);
        GrownIsMeasured(Top(rest.stack), items);
        PushBuiltIsHealthy(rest, Under(rest.stack, 1), List(Top(rest.stack).items + items, 0));
      }
  }

  lemma MakeKeepsHealthy(m: Machine)
    requires Healthy(m)
    ensures forall op: Op | op == MakeList || op == MakeTuple ::
              var e := Execute(op, m); !e.Stopped? && (e.Continue? ==> Healthy(e.m))
  {
    hide Sound, Build, Measured, PopToMark;
    PopIsHealthy(m);
    match PopToMark(m)
    case None =>
    case Some((items, rest)) =>
      ItemsAreMeasured(List(items, 0), items);
      PushBuiltIsHealthy(rest, rest.stack, List(items, 0));
      ItemsAreMeasured(Tuple(items, 0), items);
      PushBuiltIsHealthy(rest, rest.stack, Tuple(items, 0));
  }

  lemma TupleKeepsHealthy(m: Machine, n: nat)
    requires Healthy(m)
    ensures var e := Execute(TupleOf(n), m); !e.Stopped? && (e.Continue? ==> Healthy(e.m))
  {
    hide Sound, Build, Measured;
    var s := m.stack;
    if |s| >= n {
      assert AllSound(Under(s, n)) && AllSound(s[|s| - n..]);
      ItemsAreMeasured(Tuple(s[|s| - n..], 0), s[|s| - n..]);
      PushBuiltIsHealthy(m, Under(s, n), Tuple(s[|s| - n..], 0));
    }
  }

  lemma DictKeepsHealthy(m: Machine)
    requires Healthy(m)
    ensures var e := Execute(MakeDict, m); !e.Stopped? && (e.Continue? ==> Healthy(e.m))
  {
    hide Sound, Build, Measured, PopToMark, Assigned;
    PopIsHealthy(m);
    EmptyIsMeasured();
    match PopToMark(m)
    case None =>
    case Some((items, rest)) =>
      if |items| % 2 == 0 && Assigned(map[], items, |items| / 2).Some? {
        SoundIsMeasured(Dict(map[], 1));
        AssignedIsMeasured(Dict(map[], 1), items);
        PushBuiltIsHealthy(rest, rest.stack, Dict(Assigned(map[], items, |items| / 2).value, 0));
      }
  }

  lemma SoundIsMeasured(v: Value)
    ensures Sound(v) ==> Measured(v)
  {
  }

  lemma SetKeepsHealthy(m: Machine)
    requires Healthy(m)
    ensures var e := Execute(SetItem, m); !e.Stopped? && (e.Continue? ==> Healthy(e.m))
  {
    hide Sound, Build, Measured;
    var s := m.stack;
    if |s| >= 3 && s[|s| - 3].Dict? && s[|s| - 2].Text? {
      TopIsSound(s, 3);
      TopIsSound(s, 1);
      ReplacedIsMeasured(s[|s| - 3], s[|s| - 2].data, Top(s));
      PushBuiltIsHealthy(m, Under(s, 3), Dict(s[|s| - 3].entries[s[|s| - 2].data := Top(s)], 0));
    }
  }

  lemma ReplacedIsMeasured(target: Value, key: seq<byte>, child: Value)
    requires target.Dict? && Sound(target) && Sound(child)
    ensures forall c :: c in target.entries[key := child].Values ==> Measured(c)
  {
    ReplacedValues(target.entries, key, child);
    forall c | c in target.entries[key := child].Values ensures Measured(c) {
      if c in target.entries.Values { assert c in Children(target); }
    }
  }

  lemma SetsKeepsHealthy(m: Machine)
    requires Healthy(m)
    ensures var e := Execute(SetItems, m); !e.Stopped? && (e.Continue? ==> Healthy(e.m))
  {
    hide Sound, Build, Measured, PopToMark, Assigned, Shallow;
    PopIsHealthy(m);
    match PopToMark(m)
    case None =>
    case Some((items, rest)) =>
      if |items| % 2 == 0 && rest.stack != [] && Top(rest.stack).Dict? {
        var entries := Assigned(Top(rest.stack).entries, items, |items| / 2);
        if entries.Some? {
          TopIsSound(rest.stack, 1);
          SoundIsMeasured(Top(rest.stack));
          AssignedIsMeasured(Top(rest.stack), items);
          PushBuiltIsHealthy(rest, Under(rest.stack, 1), Dict(entries.value, 0));
        }
      }
  }

  /** Whatever a program yields is exactly measured and nests at most 64 containers. */
  lemma {:induction false} RunIsSound(data: seq<byte>, pos: nat, m: Machine)
    requires Healthy(m)
    ensures Run(data, pos, m).Some? ==> Sound(Run(data, pos, m).value)
    decreases |data| - pos
  {
    hide Sound, Healthy, Fetch, Execute;
    if pos < |data| && Fetch(data, pos).Some? {
      var f := Fetch(data, pos).value;
      FetchedIsSound(data, pos);
      ExecuteKeepsHealthy(f.op, m);
      if Execute(f.op, m).Continue? { RunIsSound(data, f.next, Execute(f.op, m).m); }
    }
  }
}
