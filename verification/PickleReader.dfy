/** The pickle reader: operands are read through a cursor, and instructions change the stack in place. */
module PickleReader {
  import opened Bytes
  import opened PickleValues
  import opened Pickle

  /** Folds the bytes of LONG1 from the last to the first, then extends the sign. */
  method DecodeLong(bytes: seq<byte>) returns (value: int)
    requires 0 < |bytes| <= 8
    ensures value == TwosComplement(bytes)
  {
    var bits: nat, n := 0, |bytes|;
    while n > 0
      invariant 0 <= n <= |bytes| && bits == Unsigned(bytes[n..])
    {
      n := n - 1;
      assert bytes[n..][1..] == bytes[n + 1..];
      bits := 256 * bits + bytes[n];
    }
    assert bytes[0..] == bytes;
    TopByteDecides(bytes);
    Powers();
    if |bytes| < 8 && bytes[|bytes| - 1] >= 128 {
      bits := bits + (SPAN64 - Pow256(|bytes|));
    }
    value := Signed64(bits);
  }

  lemma {:induction false} AssignedStops(base: map<seq<byte>, Value>, items: seq<Value>, n: nat, m: nat)
    requires n <= m && 2 * m <= |items| && Assigned(base, items, n).None?
    ensures Assigned(base, items, m).None?
    decreases m
  {
    if n < m { AssignedStops(base, items, n, m - 1); }
  }

  lemma {:induction false} ShallowStops(items: seq<Value>, n: nat, m: nat)
    requires n <= m && 2 * m <= |items| && !Shallow(items, n)
    ensures !Shallow(items, m)
    decreases m
  {
    if n < m { ShallowStops(items, n, m - 1); }
  }

  /** Every key is text and every value may still gain a level. */
  method Admits(ghost base: map<seq<byte>, Value>, items: seq<Value>) returns (ok: bool)
    requires |items| % 2 == 0
    ensures ok <==> Shallow(items, |items| / 2) && Assigned(base, items, |items| / 2).Some?
  {
    var n := 0;
    while 2 * n < |items|
      invariant 2 * n <= |items| && Assigned(base, items, n).Some? && Shallow(items, n)
    {
      n := n + 1;
      if !items[2 * n - 2].Text? {
        AssignedStops(base, items, n, |items| / 2);
        return false;
      }
      var depth := CheckedChildDepth(items[2 * n - 1]);
      if depth.None? {
        ShallowStops(items, n, |items| / 2);
        return false;
      }
    }
    return true;
  }

  /** Setting admitted pairs one at a time never fails, and measures what setting them together would. */
  method SetAll(target: Value, items: seq<Value>) returns (r: Value)
    requires target.Dict? && Sound(target) && AllSound(items) && |items| % 2 == 0 && Shallow(items, |items| / 2)
    requires Assigned(target.entries, items, |items| / 2).Some?
    ensures Build(Dict(Assigned(target.entries, items, |items| / 2).value, 0)) == Some(r)
  {
    hide Sound, Build;
    r := target;
    BuildSound(target);
    var n := 0;
    while 2 * n < |items|
      invariant 2 * n <= |items| && r.Dict? && Sound(r) && Build(Dict(r.entries, 0)) == Some(r)
      invariant Assigned(target.entries, items, n) == Some(r.entries)
    {
      n := n + 1;
      var key, child := items[2 * n - 2], items[2 * n - 1];
      assert child in items && key.Text? by {
        if !key.Text? { AssignedStops(target.entries, items, n, |items| / 2); }
      }
      assert Depth(child) < MAX_DEPTH by {
        if !Shallow(items, n) { ShallowStops(items, n, |items| / 2); }
      }
      var next := Set(r, key.data, child);
      SetIsSound(r, key.data, child);
      r := next.value;
    }
  }

  lemma BuildSound(v: Value)
    requires v.Dict? && Sound(v)
    ensures Build(Dict(v.entries, 0)) == Some(v)
  {
    BuildMeasured(v);
    CacheIsIgnored(v);
  }

  lemma SetIsSound(target: Value, key: seq<byte>, child: Value)
    requires target.Dict? && Sound(target) && Sound(child) && Depth(child) < MAX_DEPTH
    ensures var b := Build(Dict(target.entries[key := child], 0));
            b.Some? ==> b.value.Dict? && b.value.entries == target.entries[key := child] && Sound(b.value)
  {
    ReplacedIsMeasured(target, key, child);
    BuiltIsSound(Dict(target.entries[key := child], 0));
  }

  datatype Progress = Going | Done(v: Value) | Broken

  class Parser {
    const data: seq<byte>
    var pos: nat
    var stack: seq<Value>
    var marks: seq<nat>
    var memo: map<nat, Value>

    constructor (bytes: seq<byte>)
      ensures data == bytes && pos == 0 && State() == EMPTY && Ready()
    {
      data := bytes;
      pos, stack, marks, memo := 0, [], [], map[];
    }

    function State(): Machine
      reads this`stack, this`marks, this`memo
    {
      Machine(stack, marks, memo)
    }

    ghost predicate Ready()
      reads this`stack, this`marks, this`memo
    {
      Healthy(State())
    }

    // ---- operands

    method ReadUnsigned(width: nat) returns (r: Option<nat>)
      requires pos <= |data|
      modifies this`pos
      ensures r == Operand(data, old(pos), width)
      ensures pos == if r.Some? then old(pos) + width else old(pos)
    {
      if pos + width > |data| { return None; }
      r := Some(Unsigned(data[pos..pos + width]));
      pos := pos + width;
    }

    method ReadString(length: nat) returns (r: Option<seq<byte>>)
      requires pos <= |data|
      modifies this`pos
      ensures r == if old(pos) + length > |data| then None else Some(data[old(pos)..old(pos) + length])
      ensures pos == if r.Some? then old(pos) + length else old(pos)
    {
      if pos + length > |data| { return None; }
      r := Some(data[pos..pos + length]);
      pos := pos + length;
    }

    method ReadCounted(width: nat) returns (r: Option<seq<byte>>)
      requires pos <= |data|
      modifies this`pos
      ensures r == StringAt(data, old(pos), width)
      ensures r.Some? ==> pos == old(pos) + width + |r.value| <= |data|
    {
      hide Unsigned;
      var length := ReadUnsigned(width);
      if length.None? { return None; }
      r := ReadString(length.value);
    }

    method ReadLine() returns (r: Option<seq<byte>>)
      requires pos <= |data|
      modifies this`pos
      ensures var end := LineEnd(data, old(pos));
              r == if end == |data| then None else Some(data[old(pos)..end])
      ensures r.Some? ==> pos == LineEnd(data, old(pos)) + 1 <= |data|
    {
      var start := pos;
      while pos < |data| && data[pos] != 10
        invariant start <= pos <= |data| && LineEnd(data, pos) == LineEnd(data, start)
        decreases |data| - pos
      {
        pos := pos + 1;
      }
      if pos >= |data| { return None; }
      r := Some(data[start..pos]);
      pos := pos + 1;
    }

    method FetchLongOp() returns (r: Option<Op>)
      requires pos <= |data|
      modifies this`pos
      ensures var f := FetchLong(data, old(pos));
              (r.Some? <==> f.Some?) && (r.Some? ==> f.value == Fetched(r.value, pos))
    {
      if pos >= |data| { return None; }
      var length: nat := data[pos];
      pos := pos + 1;
      if length == 0 { return Some(Push(Integer(0))); }
      if length > 8 { return None; }
      var bytes := ReadString(length);
      if bytes.None? { return None; }
      var value := DecodeLong(bytes.value);
      return Some(Push(Integer(value)));
    }

    /** The instructions with an operand, read through the cursor. */
    method FetchOperand(code: byte) returns (r: Option<Op>)
      requires pos <= |data|
      modifies this`pos
      ensures var f := WithOperand(code, data, old(pos));
              (r.Some? <==> f.Some?) && (r.Some? ==> f.value == Fetched(r.value, pos))
    {
      hide Unsigned, LineEnd, TwosComplement, IntegerLine, StringAt, Operand, Reversed, Signed32;
      match code
      case 0x49 => r := IntegerOp();
      case 0x4A => r := NumberOp(4);
      case 0x4B => r := NumberOp(1);
      case 0x4D => r := NumberOp(2);
      case 0x47 => r := FloatOp();
      case 0x8A => r := FetchLongOp();
      case 0x55 => r := TextOp(1);
      case 0x54 => r := TextOp(4);
      case 0x8C => r := TextOp(1);
      case 0x58 => r := TextOp(4);
      case 0x43 => r := BytesOp(1);
      case 0x42 => r := BytesOp(4);
      case 0x71 => r := PutOp(1);
      case 0x72 => r := PutOp(4);
      case 0x68 => r := GetOp(1);
      case 0x6A => r := GetOp(4);
      case 0x80 => r := SkipOp(1);
      case 0x95 => r := SkipOp(8);
      case _ => r := None;
    }

    method IntegerOp() returns (r: Option<Op>)
      requires pos <= |data|
      modifies this`pos
      ensures var f := FetchLine(data, old(pos));
              (r.Some? <==> f.Some?) && (r.Some? ==> f.value == Fetched(r.value, pos))
    {
      hide LineEnd;
      var line := ReadLine();
      if line.None? || line.value == [] { return None; }
      var text := line.value;
      if text[|text| - 1] == 0x4C { text := text[..|text| - 1]; }
      var value := ParseInteger(text);
      if value.None? { return None; }
      return Some(Push(Integer(value.value)));
    }

    method NumberOp(width: nat) returns (r: Option<Op>)
      requires pos <= |data|
      modifies this`pos
      ensures var f := FetchNumber(data, old(pos), width);
              (r.Some? <==> f.Some?) && (r.Some? ==> f.value == Fetched(r.value, pos))
    {
      var n := ReadUnsigned(width);
      if n.None? { return None; }
      return Some(Push(Integer(if width == 4 then Signed32(n.value) else n.value)));
    }

    method FloatOp() returns (r: Option<Op>)
      requires pos <= |data|
      modifies this`pos
      ensures var f := FetchFloat(data, old(pos));
              (r.Some? <==> f.Some?) && (r.Some? ==> f.value == Fetched(r.value, pos))
    {
      var bytes := ReadString(8);
      if bytes.None? { return None; }
      return Some(Push(Float(Unsigned(Reversed(bytes.value)))));
    }

    method TextOp(width: nat) returns (r: Option<Op>)
      requires pos <= |data|
      modifies this`pos
      ensures var f := FetchText(data, old(pos), width);
              (r.Some? <==> f.Some?) && (r.Some? ==> f.value == Fetched(r.value, pos))
    {
      hide StringAt;
      var s := ReadCounted(width);
      if s.None? { return None; }
      return Some(Push(Text(s.value)));
    }

    method BytesOp(width: nat) returns (r: Option<Op>)
      requires pos <= |data|
      modifies this`pos
      ensures var f := FetchBytes(data, old(pos), width);
              (r.Some? <==> f.Some?) && (r.Some? ==> f.value == Fetched(r.value, pos))
    {
      hide StringAt;
      var s := ReadCounted(width);
      if s.None? { return None; }
      return Some(Push(Value.Bytes(s.value)));
    }

    method PutOp(width: nat) returns (r: Option<Op>)
      requires pos <= |data|
      modifies this`pos
      ensures var f := FetchPut(data, old(pos), width);
              (r.Some? <==> f.Some?) && (r.Some? ==> f.value == Fetched(r.value, pos))
    {
      var n := ReadUnsigned(width);
      if n.None? { return None; }
      return Some(Put(n.value));
    }

    method GetOp(width: nat) returns (r: Option<Op>)
      requires pos <= |data|
      modifies this`pos
      ensures var f := FetchGet(data, old(pos), width);
              (r.Some? <==> f.Some?) && (r.Some? ==> f.value == Fetched(r.value, pos))
    {
      var n := ReadUnsigned(width);
      if n.None? { return None; }
      return Some(Get(n.value));
    }

    method SkipOp(width: nat) returns (r: Option<Op>)
      requires pos <= |data|
      modifies this`pos
      ensures var f := FetchSkip(data, old(pos), width);
              (r.Some? <==> f.Some?) && (r.Some? ==> f.value == Fetched(r.value, pos))
    {
      var n := ReadUnsigned(width);
      if n.None? { return None; }
      return Some(Skip);
    }

    // ---- instructions

    method PopMarked() returns (r: Option<seq<Value>>)
      modifies this`stack, this`marks
      ensures var p := PopToMark(old(State()));
              && (r.Some? <==> p.Some?) && (r.Some? ==> p.value == (r.value, State()))
    {
      if marks == [] { return None; }
      var at := marks[|marks| - 1];
      if at > |stack| { return None; }
      marks := marks[..|marks| - 1];
      var items, i := [], at;
      while i < |stack|
        invariant at <= i <= |stack| && items == stack[at..i]
      {
        items := items + [stack[i]];
        i := i + 1;
      }
      assert stack[at..i] == stack[at..];
      stack := stack[..at];
      return Some(items);
    }

    /** Pushes a new container, or passes its refusal on. */
    method PushNew(v: Option<Value>, ghost shape: Value) returns (ok: bool)
      requires Container(shape) && v == Build(shape)
      modifies this`stack
      ensures PushBuilt(old(State()), old(stack), shape) == if ok then Continue(State()) else Failed
    {
      if v.None? { return false; }
      stack := stack + [v.value];
      return true;
    }

    method DoAppend() returns (ok: bool)
      requires Ready()
      modifies this`stack
      ensures Execute(Append, old(State())) == if ok then Continue(State()) else Failed
    {
      hide Sound, Build;
      if |stack| < 2 { return false; }
      TopIsSound(stack, 2);
      var item := stack[|stack| - 1];
      stack := stack[..|stack| - 1];
      var target := stack[|stack| - 1];
      if !target.List? { return false; }
      var grown := PickleValues.Append(target, item);
      if grown.None? { return false; }
      stack := stack[|stack| - 1 := grown.value];
      assert stack == Under(old(stack), 2) + [grown.value];
      return true;
    }

    method DoAppends() returns (ok: bool)
      requires Ready()
      modifies this`stack, this`marks
      ensures Execute(Appends, old(State())) == if ok then Continue(State()) else Failed
    {
      hide Sound, Build, PopToMark;
      PopIsHealthy(State());
      var items := PopMarked();
      if items.None? || stack == [] { return false; }
      TopIsSound(stack, 1);
      var target := stack[|stack| - 1];
      if !target.List? { return false; }
      var grown := AppendAll(target, items.value);
      if grown.None? { return false; }
      ghost var before := stack;
      stack := stack[|stack| - 1 := grown.value];
      assert stack == Under(before, 1) + [grown.value];
      return true;
    }

    method DoMakeList() returns (ok: bool)
      modifies this`stack, this`marks
      ensures Execute(MakeList, old(State())) == if ok then Continue(State()) else Failed
    {
      hide Build, PopToMark;
      var items := PopMarked();
      if items.None? { return false; }
      var v := NewList(items.value);
      ok := PushNew(v, List(items.value, 0));
    }

    method DoMakeTuple() returns (ok: bool)
      modifies this`stack, this`marks
      ensures Execute(MakeTuple, old(State())) == if ok then Continue(State()) else Failed
    {
      hide Build, PopToMark;
      var items := PopMarked();
      if items.None? { return false; }
      var v := NewTuple(items.value);
      ok := PushNew(v, Tuple(items.value, 0));
    }

    /** TUPLE1 to TUPLE3 take their items off the stack one by one, the last first. */
    method DoTupleOf(n: nat) returns (ok: bool)
      modifies this`stack
      ensures Execute(TupleOf(n), old(State())) == if ok then Continue(State()) else Failed
    {
      hide Build;
      if |stack| < n { return false; }
      var items, taken := [], 0;
      while taken < n
        invariant taken <= n && |stack| == |old(stack)| - taken && stack == Under(old(stack), taken)
        invariant items == old(stack)[|old(stack)| - taken..]
      {
        items := [stack[|stack| - 1]] + items;
        stack := stack[..|stack| - 1];
        taken := taken + 1;
      }
      var v := NewTuple(items);
      ok := PushNew(v, Tuple(items, 0));
    }

    method DoMakeDict() returns (ok: bool)
      modifies this`stack, this`marks
      ensures Execute(MakeDict, old(State())) == if ok then Continue(State()) else Failed
    {
      hide Build, PopToMark;
      var items := PopMarked();
      if items.None? || |items.value| % 2 != 0 { return false; }
      var s := items.value;
      var entries: map<seq<byte>, Value>, n := map[], 0;
      while 2 * n < |s|
        invariant 2 * n <= |s| && Assigned(map[], s, n) == Some(entries)
      {
        n := n + 1;
        if !s[2 * n - 2].Text? {
          AssignedStops(map[], s, n, |s| / 2);
          return false;
        }
        entries := entries[s[2 * n - 2].data := s[2 * n - 1]];
      }
      var v := NewDict(entries);
      ok := PushNew(v, Dict(entries, 0));
    }

    method DoSetItem() returns (ok: bool)
      requires Ready()
      modifies this`stack
      ensures Execute(SetItem, old(State())) == if ok then Continue(State()) else Failed
    {
      hide Sound, Build;
      if |stack| < 3 { return false; }
      TopIsSound(stack, 3);
      var child, key := stack[|stack| - 1], stack[|stack| - 2];
      stack := stack[..|stack| - 2];
      var target := stack[|stack| - 1];
      if !target.Dict? || !key.Text? { return false; }
      var changed := Set(target, key.data, child);
      if changed.None? { return false; }
      stack := stack[|stack| - 1 := changed.value];
      assert stack == Under(old(stack), 3) + [changed.value];
      return true;
    }

    method DoSetItems() returns (ok: bool)
      requires Ready()
      modifies this`stack, this`marks
      ensures Execute(SetItems, old(State())) == if ok then Continue(State()) else Failed
    {
      hide Sound, Build, PopToMark, Shallow;
      PopIsHealthy(State());
      var items := PopMarked();
      if items.None? || |items.value| % 2 != 0 || stack == [] { return false; }
      TopIsSound(stack, 1);
      var target := stack[|stack| - 1];
      if !target.Dict? { return false; }
      var admitted := Admits(target.entries, items.value);
      if !admitted { return false; }
      var changed := SetAll(target, items.value);
      ghost var before := stack;
      stack := stack[|stack| - 1 := changed];
      assert stack == Under(before, 1) + [changed];
      return true;
    }

    /** Copies the top of the stack into the memo. */
    method Remember(id: nat) returns (ok: bool)
      requires Ready()
      modifies this`memo
      ensures Execute(Put(id), old(State())) == if ok then Continue(State()) else Failed
    {
      hide Sound;
      if stack == [] { return false; }
      TopIsSound(stack, 1);
      var copy := Clone(stack[|stack| - 1]);
      memo := memo[id := copy.value];
      return true;
    }

    method Recall(id: nat) returns (ok: bool)
      requires Ready()
      modifies this`stack
      ensures Execute(Get(id), old(State())) == if ok then Continue(State()) else Failed
    {
      hide Sound;
      if id !in memo { return false; }
      var copy := Clone(memo[id]);
      stack := stack + [copy.value];
      return true;
    }

    /** Carries out one fetched instruction. */
    method Perform(op: Op) returns (r: Progress)
      requires Ready() && (op.Push? ==> Sound(op.v))
      modifies this`stack, this`marks, this`memo
      ensures Execute(op, old(State())) == match r
                case Going => Continue(State())
                case Done(v) => Stopped(v)
                case Broken => Failed
      ensures r.Going? ==> Ready()
      ensures r.Done? ==> Sound(r.v)
    {
      hide Healthy, Sound, PushBuilt, PopToMark, Assigned, Shallow;
      ExecuteKeepsHealthy(op, State());
      if op.Stop? {
        return if |stack| == 1 then Done(stack[0]) else Broken;
      }
      var ok := true;
      match op {
        case Mark => marks := marks + [|stack|];
        case Push(v) => stack := stack + [v];
        case Append => ok := DoAppend();
        case Appends => ok := DoAppends();
        case MakeList => ok := DoMakeList();
        case MakeTuple => ok := DoMakeTuple();
        case TupleOf(n) => ok := DoTupleOf(n);
        case MakeDict => ok := DoMakeDict();
        case SetItem => ok := DoSetItem();
        case SetItems => ok := DoSetItems();
        case Put(id) => ok := Remember(id);
        case Get(id) => ok := Recall(id);
        case Memoize => ok := Remember(|memo| % SPAN32);
        case Skip =>
      }
      return if ok then Going else Broken;
    }

    /** One opcode: read it with its operand, then carry it out. */
    method ParseValue() returns (r: Progress)
      requires pos < |data| && Ready()
      modifies this
      ensures old(pos) < pos <= |data| || r.Broken?
      ensures r.Going? ==> Ready() && Run(data, old(pos), old(State())) == Run(data, pos, State())
      ensures r.Done? ==> Run(data, old(pos), old(State())) == Some(r.v)
      ensures r.Broken? ==> Run(data, old(pos), old(State())).None?
    {
      hide Healthy, Sound, Execute, Plain, WithOperand;
      FetchedIsSound(data, pos);
      var code := data[pos];
      pos := pos + 1;
      var op := Plain(code);
      if op.None? { op := FetchOperand(code); }
      if op.None? { return Broken; }
      r := Perform(op.value);
    }

    /** Runs the program; it yields exactly what the reference machine yields. */
    method Parse() returns (r: Option<Value>)
      requires pos <= |data| && Ready()
      modifies this
      ensures r == Run(data, old(pos), old(State()))
      ensures r.Some? ==> Sound(r.value) && Within(r.value, MAX_DEPTH)
    {
      hide Healthy, Fetch, Execute, Sound;
      ghost var result := Run(data, pos, State());
      RunIsSound(data, pos, State());
      while pos < |data|
        invariant pos <= |data| && Ready() && Run(data, pos, State()) == result
        decreases |data| - pos
      {
        var step := ParseValue();
        match step {
          case Going =>
          case Done(v) => SoundIsShallow(v); return Some(v);
          case Broken => return None;
        }
      }
      return None;
    }
  }

  lemma SoundIsShallow(v: Value)
    requires Sound(v)
    ensures Within(v, MAX_DEPTH)
  {
    CachedDepthIsExact(v, MAX_DEPTH);
  }

  /** Loads a pickle from the start of its data. */
  method Loads(data: seq<byte>) returns (r: Option<Value>)
    ensures r == Run(data, 0, EMPTY)
    ensures r.Some? ==> Within(r.value, MAX_DEPTH)
  {
    var parser := new Parser(data);
    r := parser.Parse();
  }
}
