/** Writing values as pickles, and the exact nesting at which the reader stops taking them back. */
module PickleDump {
  import opened Bytes
  import opened PickleValues
  import opened Pickle

  /** Numbers fit 64 bits, and strings and keys have 32-bit lengths. */
  ghost predicate Storable(v: Value)
    decreases v
  {
    && (v.Integer? ==> -MAX64 <= v.number < MAX64)
    && (v.Float? ==> v.bits < SPAN64)
    && (v.Bytes? || v.Text? ==> |v.data| < SPAN32)
    && (v.Dict? ==> forall k :: k in v.entries ==> |k| < SPAN32)
    && forall c :: c in Children(v) ==> Storable(c)
  }

  ghost function KeyOrder(keys: set<seq<byte>>): (r: seq<seq<byte>>)
    ensures forall k :: k in keys <==> k in r
    decreases keys
  {
    if keys == {} then []
    else
      var k :| k in keys;
      KeyOrder(keys - {k}) + [k]
  }

  ghost function Keys(v: Value): seq<seq<byte>>
    requires v.Dict?
  {
    KeyOrder(v.entries.Keys)
  }

  ghost function Count(v: Value): nat
    requires Container(v)
  {
    if v.Dict? then |Keys(v)| else |v.items|
  }

  ghost function Child(v: Value, n: nat): (c: Value)
    requires Container(v) && n < Count(v)
    ensures c in Children(v) && c < v
  {
    if v.Dict? then
      assert Keys(v)[n] in v.entries;
      v.entries[Keys(v)[n]]
    else
      v.items[n]
  }

  function TextCode(s: seq<byte>): seq<byte>
  {
    [0x58] + (LittleEndian(|s|, 4) + s)
  }

  function Closer(v: Value): byte
    requires Container(v)
  {
    if v.List? then 0x6C else if v.Tuple? then 0x74 else 0x64
  }

  function Wrapped(number: int): nat
    requires -MAX64 <= number < MAX64
  {
    if number < 0 then number + SPAN64 else number
  }

  function ScalarCode(v: Value): seq<byte>
    requires !Container(v) && (v.Integer? ==> -MAX64 <= v.number < MAX64)
  {
    match v
    case Nothing => [0x4E]
    case Boolean(flag) => [if flag then 0x88 else 0x89]
    case Integer(number) => [0x8A, 8] + LittleEndian(Wrapped(number), 8)
    case Float(bits) => [0x47] + Reversed(LittleEndian(bits, 8))
    case Bytes(data) => [0x42] + (LittleEndian(|data|, 4) + data)
    case Text(data) => TextCode(data)
  }

  /** A container is a mark, its children and the instruction that collects them. */
  ghost function Code(v: Value): seq<byte>
    requires Storable(v)
    decreases v, if Container(v) then Count(v) + 1 else 0
  {
    if Container(v) then [0x28] + (Parts(v, Count(v)) + [Closer(v)]) else ScalarCode(v)
  }

  /** The code of the first `n` children, each behind its key in a dictionary. */
  ghost function Parts(v: Value, n: nat): seq<byte>
    requires Storable(v) && Container(v) && n <= Count(v)
    decreases v, n
  {
    if n == 0 then []
    else if v.Dict? then Parts(v, n - 1) + (TextCode(Keys(v)[n - 1]) + Code(Child(v, n - 1)))
    else Parts(v, n - 1) + Code(Child(v, n - 1))
  }

  /** What the code of the first `n` children leaves on the stack. */
  ghost function Items(v: Value, n: nat): (r: seq<Value>)
    requires Container(v) && n <= Count(v)
    ensures |r| == if v.Dict? then 2 * n else n
    decreases n
  {
    if n == 0 then []
    else if v.Dict? then Items(v, n - 1) + [Text(Keys(v)[n - 1]), Child(v, n - 1)]
    else Items(v, n - 1) + [Child(v, n - 1)]
  }

  // ---- reading the code back

  predicate At(data: seq<byte>, pos: nat, code: seq<byte>)
  {
    pos + |code| <= |data| && data[pos..pos + |code|] == code
  }

  lemma AtSplit(data: seq<byte>, pos: nat, a: seq<byte>, b: seq<byte>)
    requires At(data, pos, a + b)
    ensures At(data, pos, a) && At(data, pos + |a|, b)
  {
    var w := data[pos..pos + |a + b|];
    SliceOfSlice(data, pos, pos + |w|, 0, |a|);
    SliceOfSlice(data, pos, pos + |w|, |a|, |w|);
    assert w[..|a|] == a && w[|a|..] == b;
  }

  lemma SignedOfBytes(number: int)
    requires -MAX64 <= number < MAX64
    ensures TwosComplement(LittleEndian(Wrapped(number), 8)) == number
  {
    hide Unsigned, LittleEndian, Pow256;
    Powers();
    UnsignedOfBytes(Wrapped(number), 8);
    TopByteDecides(LittleEndian(Wrapped(number), 8));
  }

  lemma ReversedTwice(bytes: seq<byte>)
    ensures Reversed(Reversed(bytes)) == bytes
  {
  }

  lemma StringOfCode(data: seq<byte>, at: nat, s: seq<byte>)
    requires |s| < SPAN32 && At(data, at, LittleEndian(|s|, 4) + s)
    ensures StringAt(data, at, 4) == Some(s)
  {
    hide Unsigned, LittleEndian, Pow256;
    hide At, StringAt, Operand;
    AtSplit(data, at, LittleEndian(|s|, 4), s);
    LengthOfCode(data, at, |s|);
    StringBehindLength(data, at, s);
  }

  lemma StringBehindLength(data: seq<byte>, at: nat, s: seq<byte>)
    requires Operand(data, at, 4) == Some(|s|) && At(data, at + 4, s)
    ensures StringAt(data, at, 4) == Some(s)
  {
    hide Unsigned, Operand;
  }

  lemma LengthOfCode(data: seq<byte>, at: nat, n: nat)
    requires n < SPAN32 && At(data, at, LittleEndian(n, 4))
    ensures Operand(data, at, 4) == Some(n)
  {
    hide Unsigned, LittleEndian, Pow256;
    Powers();
    UnsignedOfBytes(n, 4);
  }

  /** Where the operands of the instructions written here are read. */
  lemma Dispatch(data: seq<byte>, pos: nat)
    requires pos < |data|
    ensures data[pos] == 0x58 ==> Fetch(data, pos) == FetchText(data, pos + 1, 4)
    ensures data[pos] == 0x42 ==> Fetch(data, pos) == FetchBytes(data, pos + 1, 4)
    ensures data[pos] == 0x47 ==> Fetch(data, pos) == FetchFloat(data, pos + 1)
    ensures data[pos] == 0x8A ==> Fetch(data, pos) == FetchLong(data, pos + 1)
  {
    hide FetchText, FetchBytes, FetchFloat, FetchLong, FetchNumber, FetchPut, FetchGet, FetchSkip, FetchLine;
  }

  lemma TextIsFetched(data: seq<byte>, pos: nat, s: seq<byte>)
    requires |s| < SPAN32 && At(data, pos, TextCode(s))
    ensures Fetch(data, pos) == Some(Fetched(Push(Text(s)), pos + |TextCode(s)|))
  {
    hide LittleEndian, StringAt, Fetch;
    AtSplit(data, pos, [0x58], LittleEndian(|s|, 4) + s);
    Dispatch(data, pos);
    FirstByte(data, pos, [0x58]);
    StringOfCode(data, pos + 1, s);
  }

  lemma FirstByte(data: seq<byte>, pos: nat, code: seq<byte>)
    requires code != [] && At(data, pos, code)
    ensures pos < |data| && data[pos] == code[0]
  {
    assert data[pos..pos + |code|][0] == data[pos];
  }

  lemma BytesAreFetched(data: seq<byte>, pos: nat, s: seq<byte>)
    requires |s| < SPAN32 && At(data, pos, ScalarCode(Value.Bytes(s)))
    ensures Fetch(data, pos) == Some(Fetched(Push(Value.Bytes(s)), pos + 5 + |s|))
  {
    hide *;
    BytesCode(s);
    AtSplit(data, pos, [0x42], LittleEndian(|s|, 4) + s);
    FirstByte(data, pos, [0x42]);
    Dispatch(data, pos);
    StringOfCode(data, pos + 1, s);
    BytesOfString(data, pos + 1, s);
  }

  lemma BytesCode(s: seq<byte>)
    ensures ScalarCode(Value.Bytes(s)) == [0x42] + (LittleEndian(|s|, 4) + s)
  {
    hide LittleEndian;
  }

  lemma BytesOfString(data: seq<byte>, at: nat, s: seq<byte>)
    requires StringAt(data, at, 4) == Some(s)
    ensures FetchBytes(data, at, 4) == Some(Fetched(Push(Value.Bytes(s)), at + 4 + |s|))
  {
    hide StringAt;
  }

  lemma FloatIsFetched(data: seq<byte>, pos: nat, bits: nat)
    requires bits < SPAN64 && At(data, pos, ScalarCode(Float(bits)))
    ensures Fetch(data, pos) == Some(Fetched(Push(Float(bits)), pos + 9))
  {
    hide LittleEndian, Unsigned, Reversed, Pow256, Fetch;
    AtSplit(data, pos, [0x47], Reversed(LittleEndian(bits, 8)));
    Dispatch(data, pos);
    FirstByte(data, pos, [0x47]);
    ReversedTwice(LittleEndian(bits, 8));
    Powers();
    UnsignedOfBytes(bits, 8);
  }

  lemma IntegerIsFetched(data: seq<byte>, pos: nat, number: int)
    requires -MAX64 <= number < MAX64 && At(data, pos, ScalarCode(Integer(number)))
    ensures Fetch(data, pos) == Some(Fetched(Push(Integer(number)), pos + 10))
  {
    hide LittleEndian, TwosComplement, Wrapped, Fetch;
    AtSplit(data, pos, [0x8A, 8], LittleEndian(Wrapped(number), 8));
    Dispatch(data, pos);
    FirstByte(data, pos, [0x8A, 8]);
    assert data[pos..pos + 2][1] == data[pos + 1];
    SignedOfBytes(number);
  }

  lemma ScalarIsFetched(data: seq<byte>, pos: nat, v: Value)
    requires !Container(v) && Storable(v) && At(data, pos, ScalarCode(v))
    ensures Fetch(data, pos) == Some(Fetched(Push(v), pos + |ScalarCode(v)|))
  {
    hide LittleEndian, Fetch, Reversed, Wrapped;
    match v
    case Text(s) => TextIsFetched(data, pos, s);
    case Bytes(s) => BytesAreFetched(data, pos, s);
    case Float(bits) => FloatIsFetched(data, pos, bits);
    case Integer(number) => IntegerIsFetched(data, pos, number);
    case Nothing => PlainIsFetched(data, pos, v);
    case Boolean(_) => PlainIsFetched(data, pos, v);
  }

  lemma PlainIsFetched(data: seq<byte>, pos: nat, v: Value)
    requires (v.Nothing? || v.Boolean?) && At(data, pos, ScalarCode(v))
    ensures Fetch(data, pos) == Some(Fetched(Push(v), pos + 1))
  {
    hide WithOperand;
    FirstByte(data, pos, ScalarCode(v));
  }

  /** A value pushed on the machine, or nothing where the value nests too deep. */
  ghost function RunPushed(data: seq<byte>, pos: nat, m: Machine, items: seq<Value>, fits: bool): Option<Value>
  {
    if fits then Run(data, pos, m.(stack := m.stack + items)) else None
  }

  /** The first `n` children nest no deeper than the limit. */
  ghost predicate Fit(v: Value, n: nat)
    requires Container(v) && n <= Count(v)
    decreases n
  {
    n == 0 || (Fit(v, n - 1) && Depth(Child(v, n - 1)) <= MAX_DEPTH)
  }

  /** The code of any measured value pushes it when it nests at most 64 deep, and fails otherwise. */
  lemma {:induction false} CodeRuns(data: seq<byte>, pos: nat, m: Machine, v: Value)
    requires Measured(v) && Storable(v) && At(data, pos, Code(v))
    ensures Run(data, pos, m) == RunPushed(data, pos + |Code(v)|, m, [v], Depth(v) <= MAX_DEPTH)
    decreases v, if Container(v) then Count(v) + 1 else 0
  {
    hide Run, Fetch, Parts, ScalarCode, Measured, Storable;
    if !Container(v) {
      ScalarIsFetched(data, pos, v);
      PushRuns(data, pos, m, v, pos + |Code(v)|);
    } else {
      CodeIsFramed(v);
      var marked := m.(marks := m.marks + [|m.stack|]);
      var close := pos + 1 + |Parts(v, Count(v))|;
      AtSplit(data, pos, [0x28], Parts(v, Count(v)) + [Closer(v)]);
      AtSplit(data, pos + 1, Parts(v, Count(v)), [Closer(v)]);
      MarkRuns(data, pos, m);
      PartsRun(data, pos + 1, marked, v, Count(v));
      if Fit(v, Count(v)) {
        CloserRuns(data, close, m, v);
      } else {
        DeepChild(v, Count(v));
      }
    }
  }

  lemma {:induction false} PartsRun(data: seq<byte>, pos: nat, m: Machine, v: Value, n: nat)
    requires Container(v) && n <= Count(v) && Measured(v) && Storable(v) && At(data, pos, Parts(v, n))
    ensures Run(data, pos, m) == RunPushed(data, pos + |Parts(v, n)|, m, Items(v, n), Fit(v, n))
    decreases v, n
  {
    hide Run, Fetch, Code, Measured, Storable, Parts, Items, Fit, At, TextCode, Child;
    PartsStep(v, n);
    if n == 0 {
      assert m.stack + [] == m.stack;
    } else {
      var c := Child(v, n - 1);
      ChildIsStorable(v, c);
      var before := m.(stack := m.stack + Items(v, n - 1));
      var at := pos + |Parts(v, n - 1)|;
      if v.Dict? {
        var key := Keys(v)[n - 1];
        KeyIsStorable(v, key);
        AtSplit(data, pos, Parts(v, n - 1), TextCode(key) + Code(c));
        AtSplit(data, at, TextCode(key), Code(c));
        PartsRun(data, pos, m, v, n - 1);
        TextRuns(data, at, before, key);
        CodeRuns(data, at + |TextCode(key)|, before.(stack := before.stack + [Text(key)]), c);
        Pushes(m.stack, Items(v, n - 1), Text(key), c);
      } else {
        AtSplit(data, pos, Parts(v, n - 1), Code(c));
        PartsRun(data, pos, m, v, n - 1);
        CodeRuns(data, at, before, c);
        assert before.stack + [c] == m.stack + Items(v, n);
      }
    }
  }

  lemma PartsStep(v: Value, n: nat)
    requires Container(v) && n <= Count(v) && Storable(v)
    ensures n == 0 ==> Parts(v, n) == [] && Items(v, n) == [] && Fit(v, n)
    ensures n > 0 ==> (Fit(v, n) <==> Fit(v, n - 1) && Depth(Child(v, n - 1)) <= MAX_DEPTH)
    ensures n > 0 && !v.Dict? ==> Items(v, n) == Items(v, n - 1) + [Child(v, n - 1)]
    ensures n > 0 && v.Dict? ==> Items(v, n) == Items(v, n - 1) + [Text(Keys(v)[n - 1]), Child(v, n - 1)]
    ensures n > 0 ==> Storable(Child(v, n - 1))
    ensures n > 0 && !v.Dict? ==> Parts(v, n) == Parts(v, n - 1) + Code(Child(v, n - 1))
    ensures n > 0 && v.Dict? ==>
      Parts(v, n) == Parts(v, n - 1) + (TextCode(Keys(v)[n - 1]) + Code(Child(v, n - 1)))
  {
    hide Code, Child, KeyOrder, TextCode;
    if n > 0 { StorableChild(v, Child(v, n - 1)); }
  }

  lemma StorableChild(v: Value, c: Value)
    requires Storable(v) && c in Children(v)
    ensures Storable(c)
  {
  }

  lemma TextRuns(data: seq<byte>, pos: nat, m: Machine, key: seq<byte>)
    requires |key| < SPAN32 && At(data, pos, TextCode(key))
    ensures Run(data, pos, m) == Run(data, pos + |TextCode(key)|, m.(stack := m.stack + [Text(key)]))
  {
    hide Fetch, Run;
    TextIsFetched(data, pos, key);
    PushRuns(data, pos, m, Text(key), pos + |TextCode(key)|);
  }

  lemma Pushes(stack: seq<Value>, items: seq<Value>, a: Value, b: Value)
    ensures stack + items + [a] + [b] == stack + (items + [a, b])
  {
  }

  lemma CodeIsFramed(v: Value)
    requires Container(v) && Storable(v)
    ensures Code(v) == [0x28] + (Parts(v, Count(v)) + [Closer(v)])
    ensures |Code(v)| == |Parts(v, Count(v))| + 2
  {
  }

  lemma ChildIsStorable(v: Value, c: Value)
    requires Measured(v) && Storable(v) && c in Children(v)
    ensures Measured(c) && Storable(c)
  {
  }

  lemma KeyIsStorable(v: Value, key: seq<byte>)
    requires v.Dict? && Storable(v) && key in Keys(v)
    ensures |key| < SPAN32
  {
    assert key in v.entries.Keys;
  }

  lemma PushRuns(data: seq<byte>, pos: nat, m: Machine, v: Value, next: nat)
    requires pos < |data| && Fetch(data, pos) == Some(Fetched(Push(v), next))
    ensures Run(data, pos, m) == Run(data, next, m.(stack := m.stack + [v]))
  {
    hide Fetch;
  }

  lemma MarkRuns(data: seq<byte>, pos: nat, m: Machine)
    requires At(data, pos, [0x28])
    ensures Run(data, pos, m) == Run(data, pos + 1, m.(marks := m.marks + [|m.stack|]))
  {
    hide WithOperand, Build;
    assert data[pos..pos + 1][0] == data[pos];
    assert Fetch(data, pos) == Some(Fetched(Mark, pos + 1));
  }

  lemma {:induction false} DeepChild(v: Value, n: nat)
    requires Container(v) && Measured(v) && n <= Count(v) && !Fit(v, n)
    ensures Depth(v) > MAX_DEPTH
    decreases n
  {
    hide Measured;
    if Fit(v, n - 1) {
      DeeperThanChild(v, Child(v, n - 1));
    } else {
      DeepChild(v, n - 1);
    }
  }

  lemma DeeperThanChild(v: Value, c: Value)
    requires Measured(v) && c in Children(v)
    ensures Depth(v) > Depth(c)
  {
  }

  ghost function Collector(v: Value): Op
    requires Container(v)
  {
    if v.List? then MakeList else if v.Tuple? then MakeTuple else MakeDict
  }

  /** The collecting instruction rebuilds the container from its children, if it may nest so deep. */
  lemma CloserRuns(data: seq<byte>, pos: nat, m: Machine, v: Value)
    requires Container(v) && Measured(v) && At(data, pos, [Closer(v)])
    ensures var full := Machine(m.stack + Items(v, Count(v)), m.marks + [|m.stack|], m.memo);
            Run(data, pos, full) == RunPushed(data, pos + 1, m, [v], Depth(v) <= MAX_DEPTH)
  {
    hide Measured, Fetch, Execute, Items, Count;
    FirstByte(data, pos, [Closer(v)]);
    CloserIsFetched(data, pos, v);
    Collects(m, v);
  }

  lemma CloserIsFetched(data: seq<byte>, pos: nat, v: Value)
    requires Container(v) && pos < |data| && data[pos] == Closer(v)
    ensures Fetch(data, pos) == Some(Fetched(Collector(v), pos + 1))
  {
    hide WithOperand;
  }

  lemma Collects(m: Machine, v: Value)
    requires Container(v) && Measured(v)
    ensures Execute(Collector(v), Machine(m.stack + Items(v, Count(v)), m.marks + [|m.stack|], m.memo))
         == if Depth(v) <= MAX_DEPTH then Continue(m.(stack := m.stack + [v])) else Failed
  {
    hide Measured, Build, Items, Count, Assigned;
    var items := Items(v, Count(v));
    assert PopToMark(Machine(m.stack + items, m.marks + [|m.stack|], m.memo)) == Some((items, m));
    BuildMeasured(v);
    CacheIsIgnored(v);
    if v.Dict? { EntriesOfItems(v); } else { AllItems(v); }
  }

  lemma AllItems(v: Value)
    requires v.List? || v.Tuple?
    ensures Items(v, Count(v)) == v.items
  {
    SequenceItems(v, Count(v));
    assert v.items[..Count(v)] == v.items;
  }

  lemma EntriesOfItems(v: Value)
    requires v.Dict?
    ensures var items := Items(v, Count(v));
            |items| % 2 == 0 && Assigned(map[], items, |items| / 2) == Some(v.entries)
  {
    DictItems(v, Count(v));
    AllKeys(v);
  }

  lemma {:induction false} SequenceItems(v: Value, n: nat)
    requires (v.List? || v.Tuple?) && n <= |v.items|
    ensures Items(v, n) == v.items[..n]
    decreases n
  {
    if n > 0 { SequenceItems(v, n - 1); }
  }

  function Restricted(entries: map<seq<byte>, Value>, keys: seq<seq<byte>>): map<seq<byte>, Value>
    requires forall k :: k in keys ==> k in entries
  {
    map k | k in keys :: entries[k]
  }

  lemma {:induction false} DictItems(v: Value, n: nat)
    requires v.Dict? && n <= Count(v)
    ensures forall k :: k in Keys(v)[..n] ==> k in v.entries
    ensures Assigned(map[], Items(v, n), n) == Some(Restricted(v.entries, Keys(v)[..n]))
    decreases n
  {
    hide KeyOrder, Child;
    KeysInEntries(v, n);
    if n > 0 {
      DictItems(v, n - 1);
      AssignedPrefix(map[], Items(v, n - 1), [Text(Keys(v)[n - 1]), Child(v, n - 1)], n - 1);
      RestrictedGrows(v, n);
    }
  }

  lemma KeysInEntries(v: Value, n: nat)
    requires v.Dict? && n <= Count(v)
    ensures forall k :: k in Keys(v)[..n] ==> k in v.entries
  {
    assert forall k :: k in v.entries.Keys <==> k in Keys(v);
  }

  lemma RestrictedGrows(v: Value, n: nat)
    requires v.Dict? && 0 < n <= Count(v)
    requires forall k :: k in Keys(v)[..n] ==> k in v.entries
    ensures forall k :: k in Keys(v)[..n - 1] ==> k in v.entries
    ensures Restricted(v.entries, Keys(v)[..n])
         == Restricted(v.entries, Keys(v)[..n - 1])[Keys(v)[n - 1] := Child(v, n - 1)]
  {
    assert Keys(v)[..n] == Keys(v)[..n - 1] + [Keys(v)[n - 1]];
  }

  lemma {:induction false} AssignedPrefix(base: map<seq<byte>, Value>, items: seq<Value>, more: seq<Value>, n: nat)
    requires 2 * n <= |items|
    ensures Assigned(base, items + more, n) == Assigned(base, items, n)
    decreases n
  {
    if n > 0 { AssignedPrefix(base, items, more, n - 1); }
  }

  lemma AllKeys(v: Value)
    requires v.Dict?
    ensures (forall k :: k in Keys(v)[..Count(v)] ==> k in v.entries)
    ensures Restricted(v.entries, Keys(v)[..Count(v)]) == v.entries
  {
    assert Keys(v)[..Count(v)] == Keys(v);
    assert forall k :: k in v.entries.Keys <==> k in Keys(v);
  }

  /** A value written as a pickle loads back, caches included, exactly when it nests at most 64 deep. */
  lemma DumpedValueLoads(v: Value)
    requires Measured(v) && Storable(v)
    ensures Run(Code(v) + [0x2E], 0, EMPTY) == if Within(v, MAX_DEPTH) then Some(v) else None
  {
    hide Code, Measured, Storable, Run, Within;
    var data, at := Code(v) + [0x2E], |Code(v)|;
    assert At(data, 0, Code(v));
    CodeRuns(data, 0, EMPTY, v);
    CachedDepthIsExact(v, MAX_DEPTH);
    assert EMPTY.stack + [v] == [v];
    StopRuns(data, at, v);
  }

  lemma StopRuns(data: seq<byte>, at: nat, v: Value)
    requires at < |data| && data[at] == 0x2E
    ensures Run(data, at, Machine([v], [], map[])) == Some(v)
  {
    hide WithOperand;
    assert Fetch(data, at) == Some(Fetched(Stop, at + 1));
  }
}
