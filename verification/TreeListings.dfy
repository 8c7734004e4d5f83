/** The listing of removals reads back as the archive's removal records. */
module TreeListings {
  import opened Bytes
  import opened Decimal
  import opened TreePlan
  import opened Manifest
  import opened Placement

  /** A removal record: its index and the path it removes. */
  datatype Removed = Removed(index: nat, path: seq<byte>)

  function ReadRemoved(line: seq<byte>): Option<Removed>
  {
    var fields := TabFields(line);
    if |fields| != 2 || Value(fields[0]) < 0 then None else Some(Removed(Value(fields[0]), Unescape(fields[1])))
  }

  /** Splits a listing into newline-terminated lines and reads each. */
  function ReadRemovals(text: seq<byte>): Option<seq<Removed>>
    decreases |text|
  {
    if text == [] then Some([])
    else
      var end := FindByte(text, NEWLINE, 0);
      if end == |text| then None
      else match ReadRemoved(text[..end])
        case None => None
        case Some(r) =>
          match ReadRemovals(text[end + 1..])
          case None => None
          case Some(rest) => Some([r] + rest)
  }

  /** The removal records from entry `n` on, in archive order. */
  function RemovalsFrom(index: seq<PckEntry>, n: nat): seq<Removed>
    requires n <= |index|
    decreases |index| - n
  {
    if n == |index| then []
    else (if index[n].kind == Removal then [Removed(n, index[n].path)] else []) + RemovalsFrom(index, n + 1)
  }

  function Line(r: Removed): seq<byte>
  {
    Digits(r.index) + [TAB] + EscapeField(r.path) + [NEWLINE]
  }

  function Lines(rs: seq<Removed>): seq<byte>
  {
    if rs == [] then [] else Line(rs[0]) + Lines(rs[1..])
  }

  lemma LineReads(r: Removed, rest: seq<byte>)
    ensures FindByte(Line(r) + rest, NEWLINE, 0) == |Line(r)| - 1
    ensures ReadRemoved((Line(r) + rest)[..|Line(r)| - 1]) == Some(r)
  {
    hide Unescape, EscapeField, Digits, TabFields, FindByte;
    var d, p := Digits(r.index), EscapeField(r.path);
    FieldRoundTrip(r.path);
    ValueOfDigits(r.index);
    assert Plain(d);
    var line, text := d + [TAB] + p, Line(r) + rest;
    assert text == line + [NEWLINE] + rest && |line| == |Line(r)| - 1;
    assert forall i :: 0 <= i < |line| ==> line[i] != NEWLINE;
    FindAfterPlain(text, NEWLINE, 0, |line|);
    FirstField(d, p);
    LastField(p);
    assert text[..|line|] == line;
    assert TabFields(line) == [d, p];
  }

  lemma ReadRemovalsStep(text: seq<byte>, end: nat, r: Removed, rest: seq<Removed>)
    requires end < |text| && FindByte(text, NEWLINE, 0) == end && ReadRemoved(text[..end]) == Some(r)
    requires ReadRemovals(text[end + 1..]) == Some(rest)
    ensures ReadRemovals(text) == Some([r] + rest)
  {
    hide ReadRemoved, FindByte;
  }

  lemma {:induction false} LinesRead(rs: seq<Removed>)
    ensures ReadRemovals(Lines(rs)) == Some(rs)
  {
    if rs != [] {
      var r, tail := rs[0], Lines(rs[1..]);
      LinesRead(rs[1..]);
      hide Line, ReadRemoved, FindByte, ReadRemovals;
      LineReads(r, tail);
      assert (Line(r) + tail)[|Line(r)|..] == tail;
      ReadRemovalsStep(Line(r) + tail, |Line(r)| - 1, r, rs[1..]);
      assert [r] + rs[1..] == rs;
    }
  }

  lemma {:induction false} LinesOfRemovals(index: seq<PckEntry>, n: nat)
    requires n <= |index|
    ensures RemovalLines(index, n) + Lines(RemovalsFrom(index, n)) == RemovalLines(index, |index|)
    decreases |index| - n
  {
    hide Digits, EscapeField;
    if n < |index| {
      LinesOfRemovals(index, n + 1);
      if index[n].kind == Removal {
        var r, rest := Removed(n, index[n].path), RemovalsFrom(index, n + 1);
        assert ([r] + rest)[1..] == rest;
        assert RemovalLines(index, n + 1) == RemovalLines(index, n) + Line(r);
      } else {
        assert [] + RemovalsFrom(index, n + 1) == RemovalsFrom(index, n + 1);
      }
    }
  }

  /** When the archive removes anything, the entry behind the rows of a complete tree lists exactly that, in order. */
  lemma RemovalsAreListed(p: Plan, entries: seq<VirtualEntry>)
    requires Complete(p, entries) && RemovalsFrom(p.index, 0) != []
    ensures var n := |p.raw| + |p.converted|;
            n < |entries| && entries[n].source.None? && ReadRemovals(entries[n].text) == Some(RemovalsFrom(p.index, 0))
  {
    hide NameFor, Renamed, RemovalLines, RemovalsFrom, Render, ReadRemovals, PathKeys, DirKeys, Lines;
    var n := |p.raw| + |p.converted|;
    LinesOfRemovals(p.index, 0);
    NoLines(p.index);
    LinesRead(RemovalsFrom(p.index, 0));
    TreeSize(p, entries);
    var lines := RemovalLines(p.index, |p.index|);
    assert lines != [] by { NothingReads(); }
    NextIsDue(p, entries, n);
    assert entries[..n][..n] == entries[..n];
  }

  lemma NoLines(index: seq<PckEntry>)
    ensures RemovalLines(index, 0) == [] && [] + Lines(RemovalsFrom(index, 0)) == Lines(RemovalsFrom(index, 0))
  {
  }

  lemma NothingReads()
    ensures ReadRemovals([]) == Some([])
  {
  }
}
