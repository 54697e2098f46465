/** Comma-separated values: the quoting of the exporter and, as its partner, a
    reader that follows section 2 of RFC 4180. */
module Csv {
  import opened Wrappers
  import opened Text
  import opened JsonString

  const CRLF: Text := [CR, LF]

  predicate Special(u: CodeUnit) {
    u == QUOTE || u == COMMA || u == CR || u == LF
  }

  function Double(s: Text): Text {
    if s == [] then []
    else if s[0] == QUOTE then [QUOTE, QUOTE] + Double(s[1..])
    else [s[0]] + Double(s[1..])
  }

  function Cell(s: Text): Text {
    if exists i | 0 <= i < |s| :: Special(s[i]) then [QUOTE] + (Double(s) + [QUOTE]) else s
  }

  function Cells(row: seq<Text>): (r: seq<Text>)
    ensures |r| == |row| && forall i | 0 <= i < |row| :: r[i] == Cell(row[i])
  {
    seq(|row|, i requires 0 <= i < |row| => Cell(row[i]))
  }

  function Line(row: seq<Text>): Text {
    Join(Cells(row), [COMMA])
  }

  function Lines(rows: seq<seq<Text>>): (r: seq<Text>)
    ensures |r| == |rows| && forall i | 0 <= i < |rows| :: r[i] == Line(rows[i])
  {
    seq(|rows|, i requires 0 <= i < |rows| => Line(rows[i]))
  }

  function File(rows: seq<seq<Text>>): Text {
    Join(Lines(rows), CRLF)
  }

  // ----- the reader -----

  /** A quoted field after its opening quote; a doubled quote stands for one. */
  function ReadQuoted(t: Text): (r: Option<Parsed<Text>>)
    ensures r.Some? ==> |r.value.rest| < |t|
    decreases |t|
  {
    if t == [] then None
    else if t[0] != QUOTE then
      var more := ReadQuoted(t[1..]);
      if more.None? then None else Some(Parsed([t[0]] + more.value.value, more.value.rest))
    else if |t| > 1 && t[1] == QUOTE then
      var more := ReadQuoted(t[2..]);
      if more.None? then None else Some(Parsed([QUOTE] + more.value.value, more.value.rest))
    else Some(Parsed([], t[1..]))
  }

  function ReadBare(t: Text): (r: Parsed<Text>)
    ensures |r.rest| <= |t|
  {
    if t == [] || Special(t[0]) then Parsed([], t)
    else var more := ReadBare(t[1..]); Parsed([t[0]] + more.value, more.rest)
  }

  function ReadField(t: Text): (r: Option<Parsed<Text>>)
    ensures r.Some? ==> |r.value.rest| <= |t|
  {
    if t != [] && t[0] == QUOTE then ReadQuoted(t[1..]) else Some(ReadBare(t))
  }

  predicate AtBreak(t: Text) {
    CRLF <= t
  }

  /** Fields up to the end of the line or of the file. */
  function ReadRecord(t: Text): (r: Option<Parsed<seq<Text>>>)
    ensures r.Some? ==> |r.value.rest| <= |t|
    decreases |t|
  {
    var f := ReadField(t);
    if f.None? then None
    else if f.value.rest == [] || AtBreak(f.value.rest) then Some(Parsed([f.value.value], f.value.rest))
    else if f.value.rest[0] == COMMA then
      var more := ReadRecord(f.value.rest[1..]);
      if more.None? then None else Some(Parsed([f.value.value] + more.value.value, more.value.rest))
    else None
  }

  /** Records separated by line breaks; the last break is optional. */
  function ReadFile(t: Text): Option<seq<seq<Text>>>
    decreases |t|
  {
    var r := ReadRecord(t);
    if r.None? then None
    else if r.value.rest == [] || r.value.rest == CRLF then Some([r.value.value])
    else if AtBreak(r.value.rest) then
      var more := ReadFile(r.value.rest[2..]);
      if more.None? then None else Some([r.value.value] + more.value)
    else None
  }

  // ----- printing then reading -----

  predicate FieldEnds(rest: Text) {
    rest == [] || rest[0] == COMMA || AtBreak(rest)
  }

  lemma {:induction false} ReadDoubled(s: Text, rest: Text)
    requires FieldEnds(rest)
    ensures ReadQuoted(Double(s) + ([QUOTE] + rest)) == Some(Parsed(s, rest))
    decreases |s|
  {
    var close := [QUOTE] + rest;
    if s == [] {
      assert Double(s) + close == close && close[1..] == rest;
    } else {
      var t := Double(s[1..]) + close;
      ReadDoubled(s[1..], rest);
      assert s == [s[0]] + s[1..];
      if s[0] == QUOTE {
        Assoc([QUOTE, QUOTE], Double(s[1..]), close);
        assert ([QUOTE, QUOTE] + t)[2..] == t;
      } else {
        Assoc([s[0]], Double(s[1..]), close);
        assert ([s[0]] + t)[1..] == t;
      }
    }
  }

  lemma {:induction false} ReadPlainField(s: Text, rest: Text)
    requires FieldEnds(rest) && forall i | 0 <= i < |s| :: !Special(s[i])
    ensures ReadBare(s + rest) == Parsed(s, rest)
    decreases |s|
  {
    if s == [] {
      assert s + rest == rest;
    } else {
      assert (s + rest)[1..] == s[1..] + rest && s == [s[0]] + s[1..];
      ReadPlainField(s[1..], rest);
    }
  }

  lemma ReadCell(s: Text, rest: Text)
    requires FieldEnds(rest)
    ensures ReadField(Cell(s) + rest) == Some(Parsed(s, rest))
  {
    if exists i | 0 <= i < |s| :: Special(s[i]) {
      ReadDoubled(s, rest);
      Assoc(Double(s), [QUOTE], rest);
      var t := Double(s) + ([QUOTE] + rest);
      assert Cell(s) + rest == [QUOTE] + t && ([QUOTE] + t)[1..] == t;
    } else {
      ReadPlainField(s, rest);
      assert s != [] ==> (s + rest)[0] == s[0];
    }
  }

  lemma ReadNextField(cell: Text, s: Text, more: Text, row: seq<Text>, rest: Text)
    requires ReadField(cell + ([COMMA] + more)) == Some(Parsed(s, [COMMA] + more))
    requires ReadRecord(more) == Some(Parsed(row, rest))
    ensures ReadRecord(cell + ([COMMA] + more)) == Some(Parsed([s] + row, rest))
  {
    assert ([COMMA] + more)[1..] == more;
  }

  lemma LineUnfolds(row: seq<Text>, rest: Text)
    requires |row| > 1
    ensures Line(row) + rest == Cell(row[0]) + ([COMMA] + (Line(row[1..]) + rest))
  {
    assert Cells(row)[1..] == Cells(row[1..]);
    Assoc(Cell(row[0]), [COMMA] + Line(row[1..]), rest);
    Assoc([COMMA], Line(row[1..]), rest);
  }

  lemma {:induction false} ReadLine(row: seq<Text>, rest: Text)
    requires row != [] && (rest == [] || AtBreak(rest))
    ensures ReadRecord(Line(row) + rest) == Some(Parsed(row, rest))
    decreases |row|
  {
    if |row| == 1 {
      ReadCell(row[0], rest);
      assert row == [row[0]] && Line(row) == Cell(row[0]);
    } else {
      assert row == [row[0]] + row[1..];
      var more := Line(row[1..]) + rest;
      ReadLine(row[1..], rest);
      ReadCell(row[0], [COMMA] + more);
      ReadNextField(Cell(row[0]), row[0], more, row[1..], rest);
      LineUnfolds(row, rest);
    }
  }

  /** A single empty cell prints as nothing. */
  lemma EmptyLine(row: seq<Text>)
    requires row != []
    ensures Line(row) == [] <==> row == [[]]
  {
    if |row| == 1 {
      assert row == [row[0]];
    } else {
      assert Join(Cells(row), [COMMA]) == Cells(row)[0] + ([COMMA] + Join(Cells(row)[1..], [COMMA]));
    }
  }

  /** A final record that prints as nothing is indistinguishable from the
      optional break at the end of the file. */
  predicate Readable(rows: seq<seq<Text>>) {
    |rows| == 1 || (rows != [] && rows[|rows| - 1] != [[]])
  }

  predicate NoEmptyRow(rows: seq<seq<Text>>) {
    forall i | 0 <= i < |rows| :: rows[i] != []
  }

  function Kept(rows: seq<seq<Text>>): seq<seq<Text>> {
    if Readable(rows) || rows == [] then rows else rows[..|rows| - 1]
  }

  lemma KeptTail(rows: seq<seq<Text>>)
    requires |rows| > 1 && rows[1..] != [[[]]]
    ensures Kept(rows) == [rows[0]] + Kept(rows[1..])
  {
    var tail := rows[1..];
    assert tail[|tail| - 1] == rows[|rows| - 1];
    assert rows == [rows[0]] + tail;
    if |tail| == 1 {
      assert tail == [tail[0]];
    } else {
      assert rows[..|rows| - 1] == [rows[0]] + tail[..|tail| - 1];
    }
  }

  lemma ReadFirstLine(row: seq<Text>, more: Text)
    requires row != []
    ensures ReadFile(Line(row) + (CRLF + more))
         == if more == [] then Some([row])
            else if ReadFile(more).None? then None else Some([row] + ReadFile(more).value)
  {
    var tail := CRLF + more;
    ReadLine(row, tail);
    assert tail[2..] == more;
    assert more == [] <==> tail == CRLF;
  }

  lemma {:induction false} ReadOfFile(rows: seq<seq<Text>>)
    requires rows != [] && NoEmptyRow(rows)
    ensures ReadFile(File(rows)) == Some(Kept(rows))
    decreases |rows|
  {
    if |rows| == 1 {
      ReadLine(rows[0], []);
      assert Line(rows[0]) + [] == Line(rows[0]) && rows == [rows[0]];
    } else {
      assert Lines(rows)[1..] == Lines(rows[1..]);
      ReadFirstLine(rows[0], File(rows[1..]));
      EmptyFile(rows[1..]);
      if rows[1..] == [[[]]] {
        assert rows[..1] == [rows[0]] && rows[1] == rows[1..][0];
      } else {
        ReadOfFile(rows[1..]);
        KeptTail(rows);
      }
    }
  }

  lemma EmptyFile(rows: seq<seq<Text>>)
    requires rows != [] && NoEmptyRow(rows)
    ensures File(rows) == [] <==> rows == [[[]]]
  {
    EmptyLine(rows[0]);
    if |rows| == 1 {
      assert rows == [rows[0]];
    } else {
      assert File(rows) == Lines(rows)[0] + (CRLF + Join(Lines(rows)[1..], CRLF));
    }
  }

  /** A reader of the file gets back exactly the rows that were written, quotes,
      commas and line breaks included, unless a last row of one empty cell
      follows another row. */
  lemma CsvRoundTrip(rows: seq<seq<Text>>)
    requires rows != [] && NoEmptyRow(rows)
    ensures ReadFile(File(rows)) == Some(rows) <==> Readable(rows)
  {
    ReadOfFile(rows);
  }

  // ----- which text is written -----

  function Quotes(s: Text): nat {
    if s == [] then 0 else Quotes(s[1..]) + if s[0] == 34 then 1 else 0
  }

  lemma {:induction false} DoubleLength(s: Text)
    ensures |Double(s)| == |s| + Quotes(s)
  {
    if s != [] { DoubleLength(s[1..]); }
  }

  /** A cell is written as it is unless it contains a quote, a comma or a line break
      character, and only then in quotes. */
  lemma QuotedExactlyWhen(s: Text)
    ensures Cell(s) == s <==> !(exists i :: 0 <= i < |s| && (s[i] == 34 || s[i] == 44 || s[i] == 13 || s[i] == 10))
    ensures Cell(s) != s ==> |Cell(s)| == |s| + Quotes(s) + 2 && Cell(s)[0] == 34 && Cell(s)[|Cell(s)| - 1] == 34
  {
    DoubleLength(s);
    if i :| 0 <= i < |s| && Special(s[i]) {
      assert Cell(s) == [QUOTE] + (Double(s) + [QUOTE]);
    }
  }

  /** Cells are joined by commas, and rows by a carriage return and a line feed, with
      nothing after the last. */
  lemma FileForm(rows: seq<seq<Text>>) returns (lines: seq<Text>)
    ensures File(rows) == Join(lines, Lit("\r\n")) && |lines| == |rows|
    ensures forall i | 0 <= i < |rows| :: lines[i] == Join(Cells(rows[i]), Lit(","))
  {
    lines := Lines(rows);
    assert Lit("\r\n") == CRLF && Lit(",") == [COMMA];
  }
}
