/** The name map: one tab-separated, percent-escaped row for every renamed file. */
module Manifest {
  import opened Bytes
  import opened Decimal
  import Utf8

  const TAB: byte := 9
  const NEWLINE: byte := 10
  const PERCENT: byte := 37

  // ---- one field

  predicate Escaped(valid: bool, b: byte)
  {
    b < 0x20 || b == 0x7F || b == PERCENT || (!valid && b >= 0x80)
  }

  function HexDigit(v: int): byte
    requires 0 <= v < 16
  {
    if v < 10 then 48 + v else 55 + v
  }

  /** The value of an upper-case hexadecimal digit, or -1. */
  function HexValue(c: byte): int
  {
    if 48 <= c <= 57 then c - 48 else if 65 <= c <= 70 then c - 55 else -1
  }

  function EscapeByte(valid: bool, b: byte): (r: seq<byte>)
    ensures |r| == if Escaped(valid, b) then 3 else 1
  {
    if Escaped(valid, b) then [PERCENT, HexDigit(b / 16), HexDigit(b % 16)] else [b]
  }

  function EscapeAll(valid: bool, text: seq<byte>): seq<byte>
  {
    if text == [] then [] else EscapeByte(valid, text[0]) + EscapeAll(valid, text[1..])
  }

  /** A field keeps its well-formed UTF-8; a malformed field escapes every high byte as well. */
  function EscapeField(text: seq<byte>): seq<byte>
  {
    EscapeAll(Utf8.WellFormed(text), text)
  }

  /** The reader's inverse: `%` followed by two hexadecimal digits is one byte. */
  function Unescape(field: seq<byte>): seq<byte>
  {
    if field == [] then []
    else if field[0] == PERCENT && 2 < |field| && HexValue(field[1]) >= 0 && HexValue(field[2]) >= 0 then
      [(HexValue(field[1]) * 16 + HexValue(field[2])) as byte] + Unescape(field[3..])
    else [field[0]] + Unescape(field[1..])
  }

  lemma HexRoundTrip(b: byte)
    ensures HexValue(HexDigit(b / 16)) == b / 16 && HexValue(HexDigit(b % 16)) == b % 16
    ensures b / 16 * 16 + b % 16 == b
  {
  }

  lemma UnescapeByte(valid: bool, b: byte, rest: seq<byte>)
    ensures Unescape(EscapeByte(valid, b) + rest) == [b] + Unescape(rest)
  {
    var e := EscapeByte(valid, b);
    HexRoundTrip(b);
    assert (e + rest)[|e|..] == rest;
  }

  lemma {:induction false} UnescapeEscapes(valid: bool, text: seq<byte>)
    ensures Unescape(EscapeAll(valid, text)) == text
  {
    hide Unescape, EscapeByte;
    if text == [] {
      assert Unescape([]) == [] by { UnescapeEmpty(); }
    } else {
      UnescapeByte(valid, text[0], EscapeAll(valid, text[1..]));
      UnescapeEscapes(valid, text[1..]);
      assert [text[0]] + text[1..] == text;
    }
  }

  lemma UnescapeEmpty()
    ensures Unescape([]) == []
  {
  }

  /** An escaped field holds no separator. */
  predicate Plain(text: seq<byte>)
  {
    forall i :: 0 <= i < |text| ==> text[i] != TAB && text[i] != NEWLINE
  }

  lemma {:induction false} EscapedIsPlain(valid: bool, text: seq<byte>)
    ensures Plain(EscapeAll(valid, text))
  {
    if text != [] { EscapedIsPlain(valid, text[1..]); }
  }

  /** Nothing below a space, no DEL: what an escaped field may hold. */
  predicate Printable(text: seq<byte>)
  {
    forall i :: 0 <= i < |text| ==> text[i] >= 0x20 && text[i] != 0x7F
  }

  lemma {:induction false} EscapedIsPrintable(valid: bool, text: seq<byte>)
    ensures Printable(EscapeAll(valid, text))
  {
    if text != [] { EscapedIsPrintable(valid, text[1..]); }
  }

  lemma {:induction false} PrintableStays(text: seq<byte>)
    requires Printable(text) && PERCENT !in text
    ensures EscapeAll(true, text) == text
  {
    if text != [] { PrintableStays(text[1..]); }
  }

  /** A well-formed field of printable bytes without a percent sign is written as it is. */
  lemma PlainFieldStays(text: seq<byte>)
    requires Utf8.WellFormed(text) && Printable(text) && PERCENT !in text
    ensures EscapeField(text) == text
  {
    PrintableStays(text);
  }

  // ---- an escaped field is well-formed UTF-8

  lemma {:induction false} EscapeConcat(valid: bool, a: seq<byte>, b: seq<byte>)
    ensures EscapeAll(valid, a + b) == EscapeAll(valid, a) + EscapeAll(valid, b)
  {
    hide EscapeByte;
    if a == [] {
      assert a + b == b;
    } else {
      assert (a + b)[1..] == a[1..] + b;
      EscapeConcat(valid, a[1..], b);
    }
  }

  lemma {:induction false} HighBytesStay(text: seq<byte>)
    requires forall i :: 0 <= i < |text| ==> text[i] >= 0x80
    ensures EscapeAll(true, text) == text
  {
    if text != [] { HighBytesStay(text[1..]); }
  }

  lemma {:induction false} EncodeConcat(a: seq<int>, b: seq<int>)
    requires Utf8.AllScalar(a) && Utf8.AllScalar(b)
    ensures Utf8.EncodeAll(a + b) == Utf8.EncodeAll(a) + Utf8.EncodeAll(b)
  {
    hide Utf8.Encode;
    if a == [] {
      assert a + b == b;
    } else {
      assert (a + b)[1..] == a[1..] + b;
      EncodeConcat(a[1..], b);
    }
  }

  lemma {:induction false} AsciiIsUtf8(text: seq<byte>)
    requires forall i :: 0 <= i < |text| ==> text[i] < 0x80
    ensures Utf8.AllScalar(text) && Utf8.EncodeAll(text) == text
  {
    if text != [] { AsciiIsUtf8(text[1..]); }
  }

  lemma EscapedCodePoint(cp: int) returns (head: seq<int>)
    requires Utf8.Scalar(cp)
    ensures Utf8.AllScalar(head) && EscapeAll(true, Utf8.Encode(cp)) == Utf8.EncodeAll(head)
  {
    var e := Utf8.Encode(cp);
    if cp < 0x80 {
      head := EscapeByte(true, cp);
      AsciiIsUtf8(head);
      assert e == [cp] && e[1..] == [];
      assert EscapeAll(true, e) == head + EscapeAll(true, []);
    } else {
      head := [cp];
      HighBytesStay(e);
      assert head[1..] == [] && Utf8.EncodeAll(head) == e + [];
    }
  }

  /** Escaping a well-formed text rewrites its ASCII code points and keeps the others. */
  lemma {:induction false} EscapedCodePoints(cps: seq<int>) returns (escaped: seq<int>)
    requires Utf8.AllScalar(cps)
    ensures Utf8.AllScalar(escaped) && EscapeAll(true, Utf8.EncodeAll(cps)) == Utf8.EncodeAll(escaped)
  {
    hide Utf8.Encode, EscapeByte, Utf8.Scalar;
    if cps == [] {
      escaped := [];
    } else {
      var rest := EscapedCodePoints(cps[1..]);
      EscapeConcat(true, Utf8.Encode(cps[0]), Utf8.EncodeAll(cps[1..]));
      var head := EscapedCodePoint(cps[0]);
      EncodeConcat(head, rest);
      escaped := head + rest;
    }
  }

  lemma {:induction false} FullyEscapedIsAscii(text: seq<byte>)
    ensures forall i :: 0 <= i < |EscapeAll(false, text)| ==> EscapeAll(false, text)[i] < 0x80
  {
    if text != [] { FullyEscapedIsAscii(text[1..]); }
  }

  /** Whatever bytes a field has, its escaped form is well-formed UTF-8 and gives the bytes back. */
  lemma FieldRoundTrip(text: seq<byte>)
    ensures Unescape(EscapeField(text)) == text
    ensures Plain(EscapeField(text)) && Printable(EscapeField(text))
    ensures Utf8.WellFormed(EscapeField(text))
  {
    EscapedIsPrintable(Utf8.WellFormed(text), text);
    UnescapeEscapes(Utf8.WellFormed(text), text);
    EscapedIsPlain(Utf8.WellFormed(text), text);
    Utf8.WellFormedIff(text);
    Utf8.WellFormedIff(EscapeField(text));
    if Utf8.WellFormed(text) {
      var cps: seq<int> :| Utf8.AllScalar(cps) && text == Utf8.EncodeAll(cps);
      var escaped := EscapedCodePoints(cps);
    } else {
      FullyEscapedIsAscii(text);
      AsciiIsUtf8(EscapeField(text));
    }
  }

  // ---- the writers

  /** Builds the escaped field byte by byte. */
  method WriteField(text: seq<byte>, valid: bool) returns (field: seq<byte>)
    requires valid == Utf8.WellFormed(text)
    ensures field == EscapeField(text)
  {
    hide EscapeByte, Utf8.WellFormed;
    field := [];
    var i := 0;
    assert text[0..] == text;
    while i < |text|
      invariant i <= |text|
      invariant EscapeAll(valid, text) == field + EscapeAll(valid, text[i..])
    {
      assert text[i..][1..] == text[i + 1..];
      field := field + EscapeByte(valid, text[i]);
      i := i + 1;
    }
  }

  /** The escaped length, counted without building the field. */
  method EscapedFieldSize(text: seq<byte>, valid: bool) returns (size: nat)
    requires valid == Utf8.WellFormed(text)
    ensures size == |EscapeField(text)|
  {
    hide Utf8.WellFormed;
    size := 0;
    var i := 0;
    assert text[0..] == text;
    while i < |text|
      invariant i <= |text|
      invariant |EscapeAll(valid, text)| == size + |EscapeAll(valid, text[i..])|
    {
      assert text[i..][1..] == text[i + 1..];
      size := size + if Escaped(valid, text[i]) then 3 else 1;
      i := i + 1;
    }
  }

  // ---- rows

  datatype Row = Row(index: nat, physical: seq<byte>, presented: seq<byte>)

  function RowText(row: Row): seq<byte>
  {
    Digits(row.index) + [TAB] + EscapeField(row.physical) + [TAB] + EscapeField(row.presented) + [NEWLINE]
  }

  function Render(rows: seq<Row>): seq<byte>
  {
    if rows == [] then [] else RowText(rows[0]) + Render(rows[1..])
  }

  /** The position of the first `c` at or after `at`, or the end. */
  function FindByte(text: seq<byte>, c: byte, at: nat): (i: nat)
    requires at <= |text|
    ensures at <= i <= |text| && (i < |text| ==> text[i] == c)
    decreases |text| - at
  {
    if at == |text| || text[at] == c then at else FindByte(text, c, at + 1)
  }

  /** The fields of a line, separated by tabs. */
  function TabFields(line: seq<byte>): (fields: seq<seq<byte>>)
    ensures |fields| >= 1
    decreases |line|
  {
    var tab := FindByte(line, TAB, 0);
    if tab == |line| then [line] else [line[..tab]] + TabFields(line[tab + 1..])
  }

  function ReadRow(line: seq<byte>): Option<Row>
  {
    var fields := TabFields(line);
    if |fields| != 3 || Value(fields[0]) < 0 then None
    else Some(Row(Value(fields[0]), Unescape(fields[1]), Unescape(fields[2])))
  }

  /** Splits a document into newline-terminated lines and reads each. */
  function ReadRows(text: seq<byte>): Option<seq<Row>>
    decreases |text|
  {
    if text == [] then Some([])
    else
      var end := FindByte(text, NEWLINE, 0);
      if end == |text| then None
      else match ReadRow(text[..end])
        case None => None
        case Some(row) =>
          match ReadRows(text[end + 1..])
          case None => None
          case Some(rest) => Some([row] + rest)
  }

  lemma {:induction false} FindAfterPlain(text: seq<byte>, c: byte, at: nat, stop: nat)
    requires at <= stop < |text| && text[stop] == c
    requires forall i :: at <= i < stop ==> text[i] != c
    ensures FindByte(text, c, at) == stop
    decreases stop - at
  {
    if at < stop { FindAfterPlain(text, c, at + 1, stop); }
  }

  lemma {:induction false} FindNowhere(text: seq<byte>, c: byte, at: nat)
    requires at <= |text| && forall i :: at <= i < |text| ==> text[i] != c
    ensures FindByte(text, c, at) == |text|
    decreases |text| - at
  {
    if at < |text| { FindNowhere(text, c, at + 1); }
  }

  lemma FirstField(field: seq<byte>, rest: seq<byte>)
    requires Plain(field)
    ensures TabFields(field + [TAB] + rest) == [field] + TabFields(rest)
  {
    var line := field + [TAB] + rest;
    FindAfterPlain(line, TAB, 0, |field|);
    assert line[..|field|] == field && line[|field| + 1..] == rest;
  }

  lemma LastField(field: seq<byte>)
    requires Plain(field)
    ensures TabFields(field) == [field]
  {
    FindNowhere(field, TAB, 0);
  }

  /** A row's line reads back as the row. */
  lemma RowRoundTrip(row: Row, rest: seq<byte>)
    ensures var text := RowText(row) + rest;
            && FindByte(text, NEWLINE, 0) == |RowText(row)| - 1
            && ReadRow(text[..|RowText(row)| - 1]) == Some(row)
  {
    hide Unescape, EscapeField, Digits, TabFields, FindByte;
    var (d, p, q) := (Digits(row.index), EscapeField(row.physical), EscapeField(row.presented));
    FieldRoundTrip(row.physical);
    FieldRoundTrip(row.presented);
    ValueOfDigits(row.index);
    assert Plain(d);
    var text := RowText(row) + rest;
    var line := d + [TAB] + (p + [TAB] + q);
    assert text == line + [NEWLINE] + rest && |line| == |RowText(row)| - 1;
    assert forall i :: 0 <= i < |line| ==> line[i] != NEWLINE;
    FindAfterPlain(text, NEWLINE, 0, |line|);
    FirstField(d, p + [TAB] + q);
    FirstField(p, q);
    LastField(q);
    assert text[..|line|] == line;
    assert TabFields(line) == [d, p, q];
  }

  lemma ReadRowsStep(text: seq<byte>, end: nat, row: Row, rest: seq<Row>)
    requires end < |text| && FindByte(text, NEWLINE, 0) == end && ReadRow(text[..end]) == Some(row)
    requires ReadRows(text[end + 1..]) == Some(rest)
    ensures ReadRows(text) == Some([row] + rest)
  {
    hide ReadRow, FindByte;
  }

  /** The manifest gives back every row, in order. */
  lemma {:induction false} ManifestRoundTrip(rows: seq<Row>)
    ensures ReadRows(Render(rows)) == Some(rows)
  {
    if rows == [] {
    } else {
      var row, tail := rows[0], Render(rows[1..]);
      ManifestRoundTrip(rows[1..]);
      hide RowText, ReadRow, FindByte, ReadRows;
      RowRoundTrip(row, tail);
      var end := |RowText(row)| - 1;
      assert (RowText(row) + tail)[end + 1..] == tail;
      ReadRowsStep(RowText(row) + tail, end, row, rows[1..]);
      assert [row] + rows[1..] == rows;
    }
  }

  lemma {:induction false} RenderAppends(rows: seq<Row>, row: Row)
    ensures Render(rows + [row]) == Render(rows) + RowText(row)
  {
    hide RowText;
    if rows == [] {
      assert rows + [row] == [row] && [row][1..] == [];
      assert RowText(row) + [] == RowText(row);
    } else {
      assert (rows + [row])[1..] == rows[1..] + [row];
      RenderAppends(rows[1..], row);
    }
  }

  /** The bytes charged for a row before it is built: exactly its length. */
  method RowBound(row: Row, physicalValid: bool, presentedValid: bool) returns (bound: nat)
    requires physicalValid == Utf8.WellFormed(row.physical) && presentedValid == Utf8.WellFormed(row.presented)
    ensures bound == |RowText(row)|
  {
    var physical := EscapedFieldSize(row.physical, physicalValid);
    var presented := EscapedFieldSize(row.presented, presentedValid);
    var digits := DigitCount(row.index);
    return physical + presented + digits + 3;
  }
}
