/** The CSV export, and a reader that follows the quoting rules of section 2 of RFC 4180
    with ';' as the separator. */
module Csv {
  import opened Basics

  datatype Cell = Null | Text(text: string)

  const CRLF := "\r\n"
  const BOM := ['\U{FEFF}']

  predicate StartsLikeFormula(text: string) {
    text != "" && text[0] in {'=', '+', '-', '@'}
  }

  /** A text a spreadsheet would take for a formula gets an apostrophe in front. */
  function Guard(text: string): string {
    if StartsLikeFormula(text) then "'" + text else text
  }

  /** `replaceAll('"', '""')`. */
  function Escape(text: string): string {
    if text == "" then ""
    else if text[0] == '"' then "\"\"" + Escape(text[1..])
    else [text[0]] + Escape(text[1..])
  }

  function CsvCell(cell: Cell): string {
    match cell
    case Null => ""
    case Text(text) => "\"" + Escape(Guard(text)) + "\""
  }

  function Join(parts: seq<string>, separator: string): string {
    if parts == [] then ""
    else if |parts| == 1 then parts[0]
    else parts[0] + separator + Join(parts[1..], separator)
  }

  function CsvRow(cells: seq<Cell>): string {
    Join(seq(|cells|, i requires 0 <= i < |cells| => CsvCell(cells[i])), ";")
  }

  /** The exported file: byte-order mark, rows joined by CRLF, a final CRLF. */
  function CsvFile(rows: seq<seq<Cell>>): string {
    BOM + Join(seq(|rows|, i requires 0 <= i < |rows| => CsvRow(rows[i])), CRLF) + CRLF
  }

  // ---- the reader ----

  /** What is left of a quoted field after its opening quote: its text and the rest. */
  function ReadQuoted(s: string): (r: Option<(string, string)>)
    ensures r.Some? ==> |r.value.1| < |s|
  {
    if s == "" then None
    else if s[0] != '"' then
      match ReadQuoted(s[1..])
      case None => None
      case Some((text, rest)) => Some(([s[0]] + text, rest))
    else if |s| > 1 && s[1] == '"' then
      match ReadQuoted(s[2..])
      case None => None
      case Some((text, rest)) => Some(("\"" + text, rest))
    else Some(("", s[1..]))
  }

  /** A field without quotes holds neither a quote nor a separator nor a line break. */
  function ReadBare(s: string): (r: Option<(string, string)>)
    ensures r.Some? ==> |r.value.1| <= |s|
  {
    if s == "" || s[0] in {';', '\r', '\n'} then Some(("", s))
    else if s[0] == '"' then None
    else
      match ReadBare(s[1..])
      case None => None
      case Some((text, rest)) => Some(([s[0]] + text, rest))
  }

  function ReadField(s: string): (r: Option<(string, string)>)
    ensures r.Some? ==> |r.value.1| <= |s|
  {
    if s != "" && s[0] == '"' then ReadQuoted(s[1..]) else ReadBare(s)
  }

  function ReadRecord(s: string): (r: Option<(seq<string>, string)>)
    ensures r.Some? ==> |r.value.1| <= |s|
    decreases |s|
  {
    match ReadField(s)
    case None => None
    case Some((text, rest)) =>
      if rest != "" && rest[0] == ';' then
        match ReadRecord(rest[1..])
        case None => None
        case Some((texts, end)) => Some(([text] + texts, end))
      else Some(([text], rest))
  }

  /** Records separated by CRLF; the last one may or may not have one. */
  function ReadRecords(s: string): Option<seq<seq<string>>>
    decreases |s|
  {
    match ReadRecord(s)
    case None => None
    case Some((record, rest)) =>
      if rest == "" || rest == CRLF then Some([record])
      else if CRLF <= rest then
        match ReadRecords(rest[2..])
        case None => None
        case Some(records) => Some([record] + records)
      else None
  }

  function ReadFile(s: string): Option<seq<seq<string>>> {
    if BOM <= s then ReadRecords(s[1..]) else ReadRecords(s)
  }

  // ---- the round trip ----

  /** What a reader recovers from a cell. */
  function Shown(cell: Cell): string {
    match cell
    case Null => ""
    case Text(text) => Guard(text)
  }

  predicate EndsField(rest: string) {
    rest == "" || rest[0] in {';', '\r'}
  }

  /** A quote that is doubled, and any other character, stands for itself. */
  lemma CharacterIsRead(c: char, tail: string)
    ensures var s := (if c == '"' then "\"\"" else [c]) + tail;
      ReadQuoted(s) == match ReadQuoted(tail) case None => None case Some((text, rest)) => Some(([c] + text, rest))
  {
    if c == '"' {
      var s := "\"\"" + tail;
      assert s[2..] == tail;
    } else {
      var s := [c] + tail;
      assert s[1..] == tail;
    }
  }

  lemma {:induction false} EscapedTextIsRead(text: string, rest: string)
    requires EndsField(rest)
    ensures ReadQuoted(Escape(text) + "\"" + rest) == Some((text, rest))
  {
    if text == "" {
      var s := "\"" + rest;
      assert Escape(text) + "\"" + rest == s;
      assert s[1..] == rest;
    } else {
      EscapedTextIsRead(text[1..], rest);
      var first, tail := if text[0] == '"' then "\"\"" else [text[0]], Escape(text[1..]) + "\"" + rest;
      assert Escape(text) == first + Escape(text[1..]);
      assert Escape(text) + "\"" + rest == first + tail;
      CharacterIsRead(text[0], tail);
      hide ReadQuoted, Escape;
      assert [text[0]] + text[1..] == text;
    }
  }

  lemma CellIsRead(cell: Cell, rest: string)
    requires EndsField(rest)
    ensures ReadField(CsvCell(cell) + rest) == Some((Shown(cell), rest))
  {
    match cell
    case Null => assert CsvCell(cell) + rest == rest;
    case Text(text) =>
      var inner := Escape(Guard(text)) + "\"" + rest;
      assert CsvCell(cell) + rest == "\"" + inner;
      EscapedTextIsRead(Guard(text), rest);
  }

  /** A line without cells, such as the blank line between the parts of the export, is
      to a reader a line with one empty cell. */
  function ShownRow(cells: seq<Cell>): seq<string> {
    if cells == [] then [""] else seq(|cells|, i requires 0 <= i < |cells| => Shown(cells[i]))
  }

  lemma JoinUnfolds(parts: seq<string>, separator: string)
    requires parts != []
    ensures Join(parts, separator) == parts[0] + if |parts| == 1 then "" else separator + Join(parts[1..], separator)
  {
    assert |parts| == 1 ==> parts[0] + "" == parts[0];
    assert |parts| > 1 ==>
      parts[0] + separator + Join(parts[1..], separator) == parts[0] + (separator + Join(parts[1..], separator));
  }

  lemma RowUnfolds(cells: seq<Cell>)
    requires cells != []
    ensures CsvRow(cells) == CsvCell(cells[0]) + if |cells| == 1 then "" else ";" + CsvRow(cells[1..])
  {
    hide CsvCell;
    var parts := seq(|cells|, i requires 0 <= i < |cells| => CsvCell(cells[i]));
    JoinUnfolds(parts, ";");
    hide Join;
    assert parts[1..] == seq(|cells| - 1, i requires 0 <= i < |cells| - 1 => CsvCell(cells[1..][i]));
  }

  lemma RecordEnds(s: string, text: string, rest: string)
    requires ReadField(s) == Some((text, rest)) && (rest == "" || rest[0] == '\r')
    ensures ReadRecord(s) == Some(([text], rest))
  {
  }

  lemma RecordContinues(s: string, text: string, rest: string, texts: seq<string>, end: string)
    requires ReadField(s) == Some((text, ";" + rest)) && ReadRecord(rest) == Some((texts, end))
    ensures ReadRecord(s) == Some(([text] + texts, end))
  {
    assert (";" + rest)[1..] == rest;
  }

  lemma EmptyLineIsRead(rest: string)
    requires rest == "" || rest[0] == '\r'
    ensures ReadRecord(CsvRow([]) + rest) == Some(([""], rest))
  {
    assert CsvRow([]) + rest == rest;
  }

  lemma {:induction false} RowIsRead(cells: seq<Cell>, rest: string)
    requires rest == "" || rest[0] == '\r'
    ensures ReadRecord(CsvRow(cells) + rest) == Some((ShownRow(cells), rest))
  {
    hide CsvRow, CsvCell, ReadField, ReadRecord, Shown;
    if cells == [] {
      EmptyLineIsRead(rest);
      return;
    }
    RowUnfolds(cells);
    var first := CsvCell(cells[0]);
    if |cells| == 1 {
      assert CsvRow(cells) == first;
      CellIsRead(cells[0], rest);
      RecordEnds(first + rest, Shown(cells[0]), rest);
      assert ShownRow(cells) == [Shown(cells[0])];
    } else {
      RowIsRead(cells[1..], rest);
      var others := CsvRow(cells[1..]) + rest;
      assert CsvRow(cells) + rest == first + (";" + others);
      CellIsRead(cells[0], ";" + others);
      RecordContinues(first + (";" + others), Shown(cells[0]), others, ShownRow(cells[1..]), rest);
      assert ShownRow(cells) == [Shown(cells[0])] + ShownRow(cells[1..]);
    }
  }

  function Lines(rows: seq<seq<Cell>>): string {
    Join(seq(|rows|, i requires 0 <= i < |rows| => CsvRow(rows[i])), CRLF) + CRLF
  }

  lemma LinesUnfold(rows: seq<seq<Cell>>)
    requires rows != []
    ensures Lines(rows) == CsvRow(rows[0]) + if |rows| == 1 then CRLF else CRLF + Lines(rows[1..])
  {
    hide CsvRow;
    var parts := seq(|rows|, i requires 0 <= i < |rows| => CsvRow(rows[i]));
    JoinUnfolds(parts, CRLF);
    hide Join;
    assert parts[1..] == seq(|rows| - 1, i requires 0 <= i < |rows| - 1 => CsvRow(rows[1..][i]));
  }

  function ShownRows(rows: seq<seq<Cell>>): (shown: seq<seq<string>>)
    ensures |shown| == |rows|
  {
    seq(|rows|, i requires 0 <= i < |rows| => ShownRow(rows[i]))
  }

  /** A file without rows still ends in CRLF, so it reads as one empty line. */
  function ShownFile(rows: seq<seq<Cell>>): seq<seq<string>> {
    if rows == [] then [[""]] else ShownRows(rows)
  }

  lemma {:induction false} LinesAreRead(rows: seq<seq<Cell>>)
    requires rows != []
    ensures ReadRecords(Lines(rows)) == Some(ShownRows(rows))
    decreases |rows|
  {
    hide CsvRow, ReadRecord;
    LinesUnfold(rows);
    if |rows| == 1 {
      RowIsRead(rows[0], CRLF);
      assert ShownRows(rows) == [ShownRow(rows[0])];
    } else {
      LinesAreRead(rows[1..]);
      var tail := CRLF + Lines(rows[1..]);
      RowIsRead(rows[0], tail);
      assert tail[2..] == Lines(rows[1..]);
      LinesNotEmpty(rows[1..]);
      assert |tail| > 2;
      assert ShownRows(rows) == [ShownRow(rows[0])] + ShownRows(rows[1..]);
    }
  }

  lemma LinesNotEmpty(rows: seq<seq<Cell>>)
    ensures |Lines(rows)| >= 2
  {
  }

  /** THE ROUND TRIP. A reader recovers exactly the shown texts of all cells of all rows,
      whatever quotes, separators and line breaks they contain. */
  lemma FileRoundTrips(rows: seq<seq<Cell>>)
    ensures ReadFile(CsvFile(rows)) == Some(ShownFile(rows))
  {
    assert rows == [] ==> Lines(rows) == "" + CRLF;
    hide CsvRow, ReadRecords, Join;
    assert CsvFile(rows) == BOM + Lines(rows);
    assert CsvFile(rows)[1..] == Lines(rows);
    if rows == [] {
      EmptyFileIsRead();
    } else {
      LinesAreRead(rows);
    }
  }

  lemma EmptyFileIsRead()
    ensures ReadRecords(CRLF) == Some([[""]])
  {
    EmptyLineIsRead(CRLF);
    assert CsvRow([]) + CRLF == CRLF;
  }

  /** No recovered cell can start a formula. */
  lemma NoCellIsAFormula(cell: Cell)
    ensures !StartsLikeFormula(Shown(cell))
  {
  }

  /** Which texts the export cannot tell apart: only a formula and the same text already
      written with an apostrophe. */
  lemma TextsCollideExactly(a: string, b: string)
    ensures CsvCell(Text(a)) == CsvCell(Text(b))
      <==> a == b || (StartsLikeFormula(a) && b == "'" + a) || (StartsLikeFormula(b) && a == "'" + b)
  {
    CellIsRead(Text(a), "");
    CellIsRead(Text(b), "");
    if Guard(a) == Guard(b) && a != b {
      assert StartsLikeFormula(a) ==> ("'" + a)[1..] == a;
      assert StartsLikeFormula(b) ==> ("'" + b)[1..] == b;
    }
  }

  /** Two such texts. */
  lemma CollidingTexts()
    ensures "=1+1" != "'=1+1" && CsvCell(Text("=1+1")) == CsvCell(Text("'=1+1"))
  {
    TextsCollideExactly("=1+1", "'=1+1");
  }
}
