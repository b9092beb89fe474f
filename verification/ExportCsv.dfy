/**
 The CSV writer of the client, and a reader that follows section 2 of RFC 4180.
 */
module ExportCsv {
  import opened Common

  /** Numbers come as the text they convert to. */
  datatype Cell = Null | Undefined | Str(s: string) | Num(s: string) | Bool(b: bool)

  // ----- Writing -----

  function TextOf(cell: Cell): string {
    match cell
    case Null => ""
    case Undefined => ""
    case Str(s) => s
    case Num(s) => s
    case Bool(b) => if b then "true" else "false"
  }

  function DoubleQuotes(s: string): string {
    if s == "" then "" else (if s[0] == '"' then "\"\"" else [s[0]]) + DoubleQuotes(s[1..])
  }

  predicate NeedsEscape(s: string) {
    exists i :: 0 <= i < |s| && (s[i] == '"' || s[i] == ',' || s[i] == '\n' || s[i] == '\r')
  }

  function EscapeCell(cell: Cell): string {
    if cell.Null? || cell.Undefined? then "\"\""
    else
      var s := TextOf(cell);
      if NeedsEscape(s) then "\"" + DoubleQuotes(s) + "\"" else "\"" + s + "\""
  }

  function Join(parts: seq<string>, sep: string): string {
    if parts == [] then "" else if |parts| == 1 then parts[0] else parts[0] + sep + Join(parts[1..], sep)
  }

  function Line(row: seq<Cell>): string {
    Join(seq(|row|, i requires 0 <= i < |row| => EscapeCell(row[i])), ",")
  }

  function Lines(table: seq<seq<Cell>>): seq<string> {
    seq(|table|, i requires 0 <= i < |table| => Line(table[i]))
  }

  /** Headers and rows are written alike. */
  function Table(headers: seq<string>, rows: seq<seq<Cell>>): seq<seq<Cell>> {
    [seq(|headers|, i requires 0 <= i < |headers| => Str(headers[i]))] + rows
  }

  function FormatCsv(headers: seq<string>, rows: seq<seq<Cell>>): string {
    Join(Lines(Table(headers, rows)), "\r\n")
  }

  // ----- Reading -----

  /** After an opening quote: up to the closing one, a doubled quote standing for one. */
  function ReadQuoted(s: string): (r: Option<(string, string)>)
    ensures r.Some? ==> |r.value.1| < |s|
    decreases |s|
  {
    if s == "" then None
    else if s[0] != '"' then Prepend(s[0], ReadQuoted(s[1..]))
    else if |s| > 1 && s[1] == '"' then Prepend('"', ReadQuoted(s[2..]))
    else Some(("", s[1..]))
  }

  function Prepend(c: char, r: Option<(string, string)>): Option<(string, string)> {
    match r
    case None => None
    case Some((text, rest)) => Some(([c] + text, rest))
  }

  /** A field without quotes holds no quote, comma or line break. */
  function ReadPlain(s: string): (r: (string, string))
    ensures |r.1| <= |s|
  {
    if s == "" || s[0] == ',' || s[0] == '"' || s[0] == '\r' || s[0] == '\n' then ("", s)
    else var (text, rest) := ReadPlain(s[1..]); ([s[0]] + text, rest)
  }

  function ReadField(s: string): (r: Option<(string, string)>)
    ensures r.Some? ==> |r.value.1| <= |s|
  {
    if s != "" && s[0] == '"' then ReadQuoted(s[1..]) else Some(ReadPlain(s))
  }

  function ReadRecord(s: string): (r: Option<(seq<string>, string)>)
    ensures r.Some? ==> |r.value.1| <= |s|
    decreases |s|
  {
    match ReadField(s)
    case None => None
    case Some((field, rest)) =>
      if rest == "" || rest[0] != ',' then Some(([field], rest))
      else
        match ReadRecord(rest[1..])
        case None => None
        case Some((fields, rest')) => Some(([field] + fields, rest'))
  }

  /** Records separated by CRLF; the last may be followed by one or not. */
  function ReadCsv(s: string): Option<seq<seq<string>>>
    decreases |s|
  {
    match ReadRecord(s)
    case None => None
    case Some((fields, rest)) =>
      if rest == "" || rest == "\r\n" then Some([fields])
      else if !("\r\n" <= rest) then None
      else
        match ReadCsv(rest[2..])
        case None => None
        case Some(records) => Some([fields] + records)
  }

  // ----- What is written is read -----

  function Texts(row: seq<Cell>): seq<string> {
    seq(|row|, i requires 0 <= i < |row| => TextOf(row[i]))
  }

  function AllTexts(table: seq<seq<Cell>>): seq<seq<string>> {
    seq(|table|, i requires 0 <= i < |table| => Texts(table[i]))
  }

  predicate StartsWith(s: string, c: char) {
    s != "" && s[0] == c
  }

  lemma {:induction false} NothingToDouble(s: string)
    requires '"' !in s
    ensures DoubleQuotes(s) == s
  {
    if s != "" {
      NothingToDouble(s[1..]);
      assert [s[0]] + s[1..] == s;
    }
  }

  lemma {:induction false} QuotedIsRead(s: string, rest: string)
    requires !StartsWith(rest, '"')
    ensures ReadQuoted(DoubleQuotes(s) + "\"" + rest) == Some((s, rest))
  {
    var written := DoubleQuotes(s) + "\"" + rest;
    if s == "" {
      assert written[1..] == rest;
    } else {
      var tail := DoubleQuotes(s[1..]) + "\"" + rest;
      QuotedIsRead(s[1..], rest);
      if s[0] == '"' {
        assert written == "\"\"" + tail && written[2..] == tail;
      } else {
        assert written == [s[0]] + tail && written[1..] == tail;
      }
      assert [s[0]] + s[1..] == s;
    }
  }

  lemma EscapeQuotes(cell: Cell)
    ensures EscapeCell(cell) == "\"" + DoubleQuotes(TextOf(cell)) + "\""
  {
    if !NeedsEscape(TextOf(cell)) {
      NothingToDouble(TextOf(cell));
    }
  }

  lemma OpeningQuote(inner: string, rest: string)
    ensures ("\"" + inner + "\"" + rest)[0] == '"' && ("\"" + inner + "\"" + rest)[1..] == inner + "\"" + rest
  {
  }

  /** A written cell reads back as its text, whatever that holds. */
  lemma CellIsRead(cell: Cell, rest: string)
    requires !StartsWith(rest, '"')
    ensures ReadField(EscapeCell(cell) + rest) == Some((TextOf(cell), rest))
  {
    EscapeQuotes(cell);
    OpeningQuote(DoubleQuotes(TextOf(cell)), rest);
    QuotedIsRead(TextOf(cell), rest);
  }

  lemma {:induction false} RowIsRead(row: seq<Cell>, rest: string)
    requires row != [] && !StartsWith(rest, '"') && !StartsWith(rest, ',')
    ensures ReadRecord(Line(row) + rest) == Some((Texts(row), rest))
  {
    var written := Line(row) + rest;
    if |row| == 1 {
      CellIsRead(row[0], rest);
      assert written == EscapeCell(row[0]) + rest;
      assert Texts(row) == [TextOf(row[0])];
    } else {
      var after := Line(row[1..]) + rest;
      LineSplits(row);
      Assoc(EscapeCell(row[0]), "," + Line(row[1..]), rest);
      Assoc(",", Line(row[1..]), rest);
      assert written == EscapeCell(row[0]) + ("," + after);
      CellIsRead(row[0], "," + after);
      RowIsRead(row[1..], rest);
      assert ("," + after)[1..] == after;
      assert Texts(row) == [TextOf(row[0])] + Texts(row[1..]);
    }
  }

  lemma LineSplits(row: seq<Cell>)
    requires |row| > 1
    ensures Line(row) == EscapeCell(row[0]) + ("," + Line(row[1..]))
  {
    Assoc(EscapeCell(row[0]), ",", Line(row[1..]));
    var cells := seq(|row|, i requires 0 <= i < |row| => EscapeCell(row[i]));
    assert cells[1..] == seq(|row[1..]|, i requires 0 <= i < |row[1..]| => EscapeCell(row[1..][i]));
  }

  /** An empty row is an empty line, which reads as one empty cell. */
  function Shown(row: seq<Cell>): seq<string> {
    if row == [] then [""] else Texts(row)
  }

  /** What a reader sees of a table: an empty last row is taken for the final line break. */
  function Seen(table: seq<seq<Cell>>): seq<seq<string>>
    requires table != []
  {
    if |table| == 1 || (|table| == 2 && table[1] == []) then [Shown(table[0])]
    else [Shown(table[0])] + Seen(table[1..])
  }

  lemma LineIsRead(row: seq<Cell>, rest: string)
    requires !StartsWith(rest, '"') && !StartsWith(rest, ',') && (rest == "" || rest[0] == '\r')
    ensures ReadRecord(Line(row) + rest) == Some((Shown(row), rest))
  {
    if row == [] {
      assert Line(row) + rest == rest;
    } else {
      RowIsRead(row, rest);
    }
  }

  /** Reading goes on after a line break unless nothing follows it. */
  lemma ReadNext(s: string, fields: seq<string>, after: string)
    requires ReadRecord(s) == Some((fields, "\r\n" + after))
    ensures after == "" ==> ReadCsv(s) == Some([fields])
    ensures after != "" && ReadCsv(after).Some? ==> ReadCsv(s) == Some([fields] + ReadCsv(after).value)
  {
    var rest := "\r\n" + after;
    assert rest[2..] == after && "\r\n" <= rest;
    if after == "" {
      assert rest == "\r\n";
    }
  }

  lemma {:induction false} TableIsRead(table: seq<seq<Cell>>)
    requires table != []
    ensures ReadCsv(Join(Lines(table), "\r\n")) == Some(Seen(table))
  {
    var written, first := Join(Lines(table), "\r\n"), Line(table[0]);
    if |table| == 1 {
      assert written == first + "";
      LineIsRead(table[0], "");
    } else {
      var after := Join(Lines(table[1..]), "\r\n");
      LinesSplit(table);
      LineIsRead(table[0], "\r\n" + after);
      ReadNext(written, Shown(table[0]), after);
      if |table| > 2 || table[1] != [] {
        TableIsRead(table[1..]);
        NotEmptyAfter(table[1..]);
      }
    }
  }

  lemma LinesSplit(table: seq<seq<Cell>>)
    requires |table| > 1
    ensures Join(Lines(table), "\r\n") == Line(table[0]) + ("\r\n" + Join(Lines(table[1..]), "\r\n"))
    ensures |table| == 2 && table[1] == [] ==> Join(Lines(table[1..]), "\r\n") == ""
  {
    assert Lines(table)[1..] == Lines(table[1..]);
    Assoc(Line(table[0]), "\r\n", Join(Lines(table[1..]), "\r\n"));
  }

  /** Only a table of one empty row is written as nothing. */
  lemma NotEmptyAfter(table: seq<seq<Cell>>)
    requires table != [] && table != [[]]
    ensures Join(Lines(table), "\r\n") != ""
  {
    if |table| == 1 && |table[0]| > 1 {
      LineSplits(table[0]);
    }
  }

  lemma {:induction false} SeenIffNoEmptyRow(table: seq<seq<Cell>>)
    requires table != []
    ensures Seen(table) == AllTexts(table) <==> forall i :: 0 <= i < |table| ==> table[i] != []
  {
    if |table| == 1 {
      assert AllTexts(table) == [Texts(table[0])];
    } else if |table| == 2 && table[1] == [] {
      assert |Seen(table)| != |AllTexts(table)|;
    } else {
      SeenIffNoEmptyRow(table[1..]);
      assert AllTexts(table) == [Texts(table[0])] + AllTexts(table[1..]);
      assert Seen(table)[1..] == Seen(table[1..]) && AllTexts(table)[1..] == AllTexts(table[1..]);
      assert forall i :: 0 < i < |table| ==> table[i] == table[1..][i - 1];
    }
  }

  /** The export reads back, cell for cell, exactly when the header and every row have at
      least one cell. */
  lemma ExportReadsBackIff(headers: seq<string>, rows: seq<seq<Cell>>)
    ensures ReadCsv(FormatCsv(headers, rows)) == Some([headers] + AllTexts(rows)) <==>
              headers != [] && forall i :: 0 <= i < |rows| ==> rows[i] != []
  {
    var table := Table(headers, rows);
    TableIsRead(table);
    SeenIffNoEmptyRow(table);
    assert Texts(table[0]) == headers;
    assert AllTexts(table) == [headers] + AllTexts(rows);
    assert forall i :: 0 <= i < |rows| ==> table[i + 1] == rows[i];
    if forall i :: 0 <= i < |rows| ==> rows[i] != [] {
      assert forall i :: 0 < i < |table| ==> table[i] == rows[i - 1];
    }
  }

  /** Every cell is quoted, nothing is written for a missing value, and rows are separated,
      not ended, by CRLF. */
  lemma ExportExample()
    ensures FormatCsv(["a"], [[Null]]) == "\"a\"\r\n\"\""
    ensures Line([Str("x\"y")] + [Num("1.5")]) == "\"x\"\"y\",\"1.5\""
    ensures TextOf(Undefined) == "" && TextOf(Bool(true)) == "true" && TextOf(Bool(false)) == "false"
  {
    var table := [[Str("a")], [Null]];
    assert Table(["a"], [[Null]])[0] == [Str("a")] && Table(["a"], [[Null]]) == table;
    OneCell(Str("a"));
    OneCell(Null);
    assert table[1..] == [[Null]];
    LinesSplit(table);
    assert Lines([[Null]]) == [Line([Null])];
    assert "\"a\"" + ("\r\n" + "\"\"") == "\"a\"\r\n\"\"";
    QuotedCells();
  }

  lemma OneCell(cell: Cell)
    ensures Line([cell]) == EscapeCell(cell)
    ensures '"' !in TextOf(cell) ==> Line([cell]) == "\"" + TextOf(cell) + "\""
  {
    EscapeQuotes(cell);
    if '"' !in TextOf(cell) {
      NothingToDouble(TextOf(cell));
    }
  }

  lemma QuotedCells()
    ensures Line([Str("x\"y")] + [Num("1.5")]) == "\"x\"\"y\",\"1.5\""
  {
    var row := [Str("x\"y")] + [Num("1.5")];
    assert row[1..] == [Num("1.5")];
    LineSplits(row);
    OneCell(Num("1.5"));
    DoubledExample();
    assert "\"x\"\"y\"" + ("," + "\"1.5\"") == "\"x\"\"y\",\"1.5\"";
  }

  lemma DoubledExample()
    ensures EscapeCell(Str("x\"y")) == "\"x\"\"y\""
  {
    EscapeQuotes(Str("x\"y"));
    NothingToDouble("y");
    assert DoubleQuotes("\"y") == "\"\"y";
    assert DoubleQuotes("x\"y") == "x\"\"y";
  }
}
