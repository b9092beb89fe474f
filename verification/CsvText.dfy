/**
 CSV files as the agent's library writes and reads them: fields are quoted only where
 needed, lines end with a line feed; the reader forgives stray quotes, skips empty lines
 and takes a carriage return before a line feed for nothing.
 */
module CsvText {
  import opened Common

  type Record = seq<string>

  // ----- Writing -----

  predicate NeedsQuotes(field: string) {
    field != ""
    && (field == "\\." || IsSpace(field[0])
        || exists i :: 0 <= i < |field| && (field[i] == ',' || field[i] == '"' || field[i] == '\r' || field[i] == '\n'))
  }

  function DoubleQuotes(s: string): string {
    if s == "" then "" else (if s[0] == '"' then "\"\"" else [s[0]]) + DoubleQuotes(s[1..])
  }

  /** A field's text, quoted or bare. */
  function FieldText(quoted: bool, field: string): string {
    if quoted then "\"" + (DoubleQuotes(field) + "\"") else field
  }

  function RecordText(r: Record): string {
    if r == [] then "\n"
    else if |r| == 1 then FieldText(NeedsQuotes(r[0]), r[0]) + "\n"
    else FieldText(NeedsQuotes(r[0]), r[0]) + ("," + RecordText(r[1..]))
  }

  function FileText(rs: seq<Record>): string {
    if rs == [] then "" else RecordText(rs[0]) + FileText(rs[1..])
  }

  // ----- Reading -----

  /** Line ends as line feeds. */
  function Unix(s: string): string {
    if s == "" then ""
    else if s[0] == '\r' && |s| > 1 && s[1] == '\n' then Unix(s[1..])
    else [s[0]] + Unix(s[1..])
  }

  function DropLastCr(s: string): string {
    if s != "" && s[|s| - 1] == '\r' then s[..|s| - 1] else s
  }

  /** A field, whether another follows on the line, and what comes after. */
  datatype Parsed = Parsed(field: string, more: bool, rest: string)

  function Prepend(c: char, p: Parsed): Parsed {
    p.(field := [c] + p.field)
  }

  function ParseBare(s: string): (p: Parsed)
    ensures |p.rest| <= |s| && (p.more ==> |p.rest| < |s|) && (s != "" && s[0] != '\n' ==> |p.rest| < |s|)
  {
    if s == "" then Parsed("", false, "")
    else if s[0] == ',' then Parsed("", true, s[1..])
    else if s[0] == '\n' then Parsed("", false, s[1..])
    else Prepend(s[0], ParseBare(s[1..]))
  }

  /** Inside quotes: a doubled quote stands for one, a quote before anything but a comma or
      the end of the line for itself. */
  function ParseQuoted(s: string): (p: Parsed)
    ensures |p.rest| <= |s| && (p.more ==> |p.rest| < |s|)
    decreases |s|
  {
    if s == "" then Parsed("", false, "")
    else if s[0] != '"' then Prepend(s[0], ParseQuoted(s[1..]))
    else if |s| == 1 then Parsed("", false, "")
    else if s[1] == '"' then Prepend('"', ParseQuoted(s[2..]))
    else if s[1] == ',' then Parsed("", true, s[2..])
    else if s[1] == '\n' then Parsed("", false, s[2..])
    else Prepend('"', ParseQuoted(s[1..]))
  }

  function ParseField(s: string): (p: Parsed)
    ensures |p.rest| <= |s| && (p.more ==> |p.rest| < |s|) && (s != "" && s[0] != '\n' ==> |p.rest| < |s|)
  {
    if s != "" && s[0] == '"' then ParseQuoted(s[1..]) else ParseBare(s)
  }

  function ParseRecord(s: string): (r: (Record, string))
    ensures |r.1| <= |s| && (s != "" && s[0] != '\n' ==> |r.1| < |s|)
    decreases |s|
  {
    var p := ParseField(s);
    if p.more then
      var (fields, rest) := ParseRecord(p.rest);
      ([p.field] + fields, rest)
    else ([p.field], p.rest)
  }

  function ParseLines(s: string): seq<Record>
    decreases |s|
  {
    if s == "" then []
    else if s[0] == '\n' then ParseLines(s[1..])
    else
      var (fields, rest) := ParseRecord(s);
      [fields] + ParseLines(rest)
  }

  function ParseFile(file: string): seq<Record> {
    ParseLines(DropLastCr(Unix(file)))
  }

  // ----- Written records as they are read -----

  /** A record that is written as an empty line. */
  predicate Blank(r: Record) {
    r == [] || r == [""]
  }

  function UnixRecord(r: Record): Record {
    seq(|r|, i requires 0 <= i < |r| => Unix(r[i]))
  }

  function Delivered(rs: seq<Record>): seq<Record> {
    if rs == [] then []
    else if Blank(rs[|rs| - 1]) then Delivered(rs[..|rs| - 1])
    else Delivered(rs[..|rs| - 1]) + [UnixRecord(rs[|rs| - 1])]
  }

  /** Somewhere a carriage return stands before a line feed. */
  predicate HasCrLf(s: string) {
    exists i :: 0 <= i < |s| - 1 && s[i] == '\r' && s[i + 1] == '\n'
  }

  lemma {:induction false} UnixKeepsIff(s: string)
    ensures |Unix(s)| <= |s|
    ensures HasCrLf(s) ==> |Unix(s)| < |s|
    ensures !HasCrLf(s) ==> Unix(s) == s
  {
    if s != "" {
      UnixKeepsIff(s[1..]);
      assert [s[0]] + s[1..] == s;
      if HasCrLf(s[1..]) {
        var i :| 0 <= i < |s[1..]| - 1 && s[1..][i] == '\r' && s[1..][i + 1] == '\n';
        assert s[i + 1] == '\r' && s[i + 2] == '\n';
      }
      if HasCrLf(s) && !(s[0] == '\r' && |s| > 1 && s[1] == '\n') {
        var i :| 0 <= i < |s| - 1 && s[i] == '\r' && s[i + 1] == '\n';
        assert s[1..][i - 1] == '\r' && s[1..][i] == '\n';
      }
    }
  }

  predicate RecordHasCrLf(r: Record) {
    exists i :: 0 <= i < |r| && HasCrLf(r[i])
  }

  /** A record is delivered as it was written exactly when no cell holds a CR-LF. */
  lemma UnixRecordKeepsIff(r: Record)
    ensures UnixRecord(r) == r <==> !RecordHasCrLf(r)
  {
    forall i | 0 <= i < |r| ensures UnixRecord(r)[i] == r[i] <==> !HasCrLf(r[i]) {
      UnixKeepsIff(r[i]);
    }
  }

  /** Texts can be taken apart where no carriage return meets a line feed. */
  lemma {:induction false} UnixConcat(a: string, b: string)
    requires a == "" || a[|a| - 1] != '\r' || b == "" || b[0] != '\n'
    ensures Unix(a + b) == Unix(a) + Unix(b)
    decreases |a|
  {
    if a == "" {
      assert a + b == b;
    } else {
      UnixConcat(a[1..], b);
      assert (a + b)[1..] == a[1..] + b;
      if |a| == 1 {
        assert a[1..] == "" && a[1..] + b == b;
      }
    }
  }

  lemma {:induction false} UnixQuotes(s: string)
    ensures Unix(DoubleQuotes(s)) == DoubleQuotes(Unix(s))
    ensures s != "" ==> DoubleQuotes(s) != "" && DoubleQuotes(s)[0] == s[0]
  {
    if s != "" {
      var first, rest := if s[0] == '"' then "\"\"" else [s[0]], s[1..];
      UnixQuotes(rest);
      assert DoubleQuotes(s) == first + DoubleQuotes(rest);
      assert DoubleQuotes(s)[1..] == first[1..] + DoubleQuotes(rest);
      if s[0] == '"' {
        UnixConcat(first, DoubleQuotes(rest));
        UnixKeepsIff(first);
      } else {
        assert first[1..] + DoubleQuotes(rest) == DoubleQuotes(rest);
        assert [s[0]] + Unix(rest) != "" && ([s[0]] + Unix(rest))[1..] == Unix(rest);
      }
    }
  }

  /** A written field with its line ends made line feeds. */
  lemma UnixField(f: string, rest: string)
    ensures Unix(FieldText(NeedsQuotes(f), f) + rest) == FieldText(NeedsQuotes(f), Unix(f)) + Unix(rest)
  {
    var text := FieldText(NeedsQuotes(f), f);
    if NeedsQuotes(f) {
      assert text[|text| - 1] == '"';
      UnixConcat(text, rest);
      UnixConcat("\"", DoubleQuotes(f) + "\"");
      UnixConcat(DoubleQuotes(f), "\"");
      UnixQuotes(f);
      UnixKeepsIff("\"");
    } else {
      UnixConcat(text, rest);
      UnixKeepsIff(f);
    }
  }

  /** A record's text with its line ends made line feeds. */
  function UnixText(r: Record): string {
    if r == [] then "\n"
    else if |r| == 1 then FieldText(NeedsQuotes(r[0]), Unix(r[0])) + "\n"
    else FieldText(NeedsQuotes(r[0]), Unix(r[0])) + ("," + UnixText(r[1..]))
  }

  lemma {:induction false} UnixRecordText(r: Record, rest: string)
    ensures Unix(RecordText(r) + rest) == UnixText(r) + Unix(rest)
  {
    if r == [] {
      UnixConcat("\n", rest);
      UnixKeepsIff("\n");
    } else {
      var head, text := FieldText(NeedsQuotes(r[0]), r[0]), FieldText(NeedsQuotes(r[0]), Unix(r[0]));
      var tail := if |r| == 1 then "\n" else "," + RecordText(r[1..]);
      Assoc(head, tail, rest);
      UnixField(r[0], tail + rest);
      if |r| == 1 {
        UnixConcat("\n", rest);
        UnixKeepsIff("\n");
        Assoc(text, "\n", Unix(rest));
      } else {
        Assoc(",", RecordText(r[1..]), rest);
        UnixConcat(",", RecordText(r[1..]) + rest);
        UnixKeepsIff(",");
        UnixRecordText(r[1..], rest);
        Assoc(",", UnixText(r[1..]), Unix(rest));
        Assoc(text, "," + UnixText(r[1..]), Unix(rest));
      }
    }
  }

  predicate AtBreak(s: string) {
    s != "" && (s[0] == ',' || s[0] == '\n')
  }

  lemma {:induction false} BareIsParsed(f: string, rest: string)
    requires AtBreak(rest) && ',' !in f && '\n' !in f
    ensures ParseBare(f + rest) == Parsed(f, rest[0] == ',', rest[1..])
  {
    if f == "" {
      assert f + rest == rest;
    } else {
      BareIsParsed(f[1..], rest);
      assert (f + rest)[1..] == f[1..] + rest;
      assert [f[0]] + f[1..] == f;
    }
  }

  lemma {:induction false} QuotedIsParsed(f: string, rest: string)
    requires AtBreak(rest)
    ensures ParseQuoted(DoubleQuotes(f) + ("\"" + rest)) == Parsed(f, rest[0] == ',', rest[1..])
  {
    var s := DoubleQuotes(f) + ("\"" + rest);
    if f == "" {
      assert s == "\"" + rest && s[2..] == rest[1..];
    } else {
      var tail := DoubleQuotes(f[1..]) + ("\"" + rest);
      QuotedIsParsed(f[1..], rest);
      if f[0] == '"' {
        Assoc("\"\"", DoubleQuotes(f[1..]), "\"" + rest);
        assert s == "\"\"" + tail && s[2..] == tail;
      } else {
        Assoc([f[0]], DoubleQuotes(f[1..]), "\"" + rest);
        assert s == [f[0]] + tail && s[1..] == tail;
      }
      assert [f[0]] + f[1..] == f;
    }
  }

  lemma OpeningQuote(inner: string, rest: string)
    ensures var s := "\"" + (inner + "\"") + rest; s[0] == '"' && s[1..] == inner + ("\"" + rest)
  {
  }

  /** A written field reads back with its line ends as line feeds. */
  lemma FieldIsParsed(f: string, rest: string)
    requires AtBreak(rest)
    ensures ParseField(FieldText(NeedsQuotes(f), Unix(f)) + rest) == Parsed(Unix(f), rest[0] == ',', rest[1..])
  {
    if NeedsQuotes(f) {
      QuotedIsParsed(Unix(f), rest);
      OpeningQuote(DoubleQuotes(Unix(f)), rest);
    } else {
      BareFieldIsUnix(f);
      BareIsParsed(f, rest);
    }
  }

  lemma BareFieldIsUnix(f: string)
    requires !NeedsQuotes(f)
    ensures Unix(f) == f && ',' !in f && '\n' !in f && (f != "" ==> f[0] != '"')
  {
    UnixKeepsIff(f);
  }

  lemma {:induction false} RecordIsParsed(r: Record, rest: string)
    requires r != []
    ensures ParseRecord(UnixText(r) + rest) == (UnixRecord(r), rest)
  {
    var head := FieldText(NeedsQuotes(r[0]), Unix(r[0]));
    if |r| == 1 {
      Assoc(head, "\n", rest);
      FieldIsParsed(r[0], "\n" + rest);
      assert ("\n" + rest)[1..] == rest;
      assert UnixRecord(r) == [Unix(r[0])];
    } else {
      var after := UnixText(r[1..]) + rest;
      Assoc(head, "," + UnixText(r[1..]), rest);
      Assoc(",", UnixText(r[1..]), rest);
      FieldIsParsed(r[0], "," + after);
      assert ("," + after)[1..] == after;
      RecordIsParsed(r[1..], rest);
      assert UnixRecord(r) == [Unix(r[0])] + UnixRecord(r[1..]);
    }
  }

  /** Only a blank record's text begins with a line feed. */
  lemma TextStarts(r: Record)
    ensures UnixText(r) != "" && (UnixText(r)[0] == '\n' <==> Blank(r))
    ensures Blank(r) ==> UnixText(r) == "\n"
  {
    if r != [] && !NeedsQuotes(r[0]) {
      BareFieldIsUnix(r[0]);
    }
  }

  lemma {:induction false} DeliveredFront(r: Record, rs: seq<Record>)
    ensures Delivered([r] + rs) == (if Blank(r) then [] else [UnixRecord(r)]) + Delivered(rs)
    decreases |rs|
  {
    var all := [r] + rs;
    if rs == [] {
      assert all[..0] == [] && all == [r];
    } else {
      var init, last := rs[..|rs| - 1], rs[|rs| - 1];
      DeliveredFront(r, init);
      assert all[..|all| - 1] == [r] + init && all[|all| - 1] == last;
      if !Blank(last) {
        Assoc(if Blank(r) then [] else [UnixRecord(r)], Delivered(init), [UnixRecord(last)]);
      }
    }
  }

  lemma {:induction false} LinesAreParsed(rs: seq<Record>)
    ensures ParseLines(Unix(FileText(rs))) == Delivered(rs)
  {
    if rs != [] {
      var after := Unix(FileText(rs[1..]));
      UnixRecordText(rs[0], FileText(rs[1..]));
      LinesAreParsed(rs[1..]);
      TextStarts(rs[0]);
      DeliveredFront(rs[0], rs[1..]);
      assert [rs[0]] + rs[1..] == rs;
      if Blank(rs[0]) {
        assert ("\n" + after)[1..] == after;
      } else {
        RecordIsParsed(rs[0], after);
      }
    }
  }

  lemma {:induction false} RecordEnds(r: Record)
    ensures UnixText(r) != "" && UnixText(r)[|UnixText(r)| - 1] == '\n'
  {
    if |r| > 1 {
      RecordEnds(r[1..]);
    }
  }

  lemma {:induction false} FileEnds(rs: seq<Record>)
    ensures var s := Unix(FileText(rs)); DropLastCr(s) == s
  {
    if rs != [] {
      UnixRecordText(rs[0], FileText(rs[1..]));
      RecordEnds(rs[0]);
      FileEnds(rs[1..]);
    }
  }

  /** Reading a written file delivers every record but the blank ones, cell for cell, with
      each CR-LF inside a cell turned into a line feed. */
  lemma FileIsDelivered(rs: seq<Record>)
    ensures ParseFile(FileText(rs)) == Delivered(rs)
  {
    FileEnds(rs);
    LinesAreParsed(rs);
  }

  // ----- The text itself -----

  lemma {:induction false} NothingToDouble(s: string)
    requires '"' !in s
    ensures DoubleQuotes(s) == s
  {
    if s != "" {
      NothingToDouble(s[1..]);
      assert [s[0]] + s[1..] == s;
    }
  }

  lemma OneField(f: string)
    ensures RecordText([f]) == FieldText(NeedsQuotes(f), f) + "\n"
  {
  }

  lemma MoreFields(f: string, r: Record)
    requires r != []
    ensures RecordText([f] + r) == FieldText(NeedsQuotes(f), f) + ("," + RecordText(r))
  {
    assert ([f] + r)[1..] == r;
  }

  /** Plain text and empty cells are written as they are. */
  lemma BareExample()
    ensures RecordText(["a b"] + ["c"]) == "a b,c\n" && RecordText([""]) == "\n"
    ensures RecordText([""] + [""]) == ",\n"
  {
    MoreFields("a b", ["c"]);
    OneField("c");
    MoreFields("", [""]);
    OneField("");
    assert "a b" + ("," + "c\n") == "a b,c\n";
  }

  lemma QuotedField(f: string)
    requires '"' !in f && NeedsQuotes(f)
    ensures RecordText([f]) == "\"" + f + "\"\n"
  {
    OneField(f);
    NothingToDouble(f);
    assert "\"" + (f + "\"") + "\n" == "\"" + f + "\"\n";
  }

  /** A comma and a line break are reasons to quote. */
  lemma QuotedExample()
    ensures RecordText(["d,e"]) == "\"d,e\"\n" && RecordText(["f\ng"]) == "\"f\ng\"\n"
  {
    SpecialCharacter("d,e", 1);
    SpecialCharacter("f\ng", 1);
    QuotedField("d,e");
    QuotedField("f\ng");
  }

  /** So are a blank in front and the two characters \. alone. */
  lemma QuotedStartExample()
    ensures RecordText([" c"]) == "\" c\"\n" && RecordText(["\\."]) == "\"\\.\"\n"
  {
    QuotedField(" c");
    QuotedField("\\.");
  }

  lemma SpecialCharacter(field: string, i: nat)
    requires i < |field| && (field[i] == ',' || field[i] == '"' || field[i] == '\r' || field[i] == '\n')
    ensures NeedsQuotes(field)
  {
  }

  lemma BareText(f: string, rest: string)
    requires AtBreak(rest) && ',' !in f && '\n' !in f && (f != "" ==> f[0] != '"')
    ensures ParseField(f + rest) == Parsed(f, rest[0] == ',', rest[1..])
  {
    BareIsParsed(f, rest);
  }

  /** The reader's forgiveness: a quote inside a bare field stands for itself, and so does
      one before anything but a comma, a line end or another; an open quote ends with the file. */
  lemma ForgivingExample()
    ensures ParseField("a\"b,\n") == Parsed("a\"b", true, "\n")
    ensures ParseField("\"c\"d\",e") == Parsed("c\"d", true, "e")
    ensures ParseField("\"e,") == Parsed("e,", false, "") && ParseField("\"\"") == Parsed("", false, "")
  {
    BareText("a\"b", ",\n");
    assert "a\"b" + ",\n" == "a\"b,\n";
    assert ParseQuoted("\",e") == Parsed("", true, "e");
    assert ParseQuoted("d\",e") == Parsed("d", true, "e");
    assert ParseQuoted("\"d\",e") == Parsed("\"d", true, "e");
    assert ParseQuoted("c\"d\",e") == Parsed("c\"d", true, "e");
    assert ParseQuoted(",") == Parsed(",", false, "");
    assert ParseQuoted("e,") == Parsed("e,", false, "");
  }

  lemma LineEndsExample()
    ensures DropLastCr(Unix("a\r\n\nb\r")) == "a\n\nb"
  {
    assert Unix("\r") == "\r" && Unix("b\r") == "b\r" && Unix("\nb\r") == "\nb\r";
    assert Unix("\n\nb\r") == "\n\nb\r" && Unix("\r\n\nb\r") == "\n\nb\r";
    assert "a\n\nb\r"[..4] == "a\n\nb";
  }

  lemma TwoLines(f: string, g: string)
    requires f != "" && ',' !in f && '\n' !in f && f[0] != '"'
    requires g != "" && ',' !in g && '\n' !in g && g[0] != '"'
    ensures ParseLines(f + ("\n" + ("\n" + g))) == [[f], [g]]
  {
    var rest := "\n" + g;
    assert rest[1..] == g && ("\n" + rest)[1..] == rest;
    BareText(f, "\n" + rest);
    assert (f + ("\n" + rest))[0] == f[0];
    LastLine(g);
    assert ParseRecord(f + ("\n" + rest)) == ([f], rest);
    assert [[f]] + [[g]] == [[f], [g]];
  }

  /** Empty lines are skipped, and a carriage return before a line feed or at the end is dropped. */
  lemma LinesExample()
    ensures ParseFile("a\r\n\nb\r") == [["a"], ["b"]]
  {
    LineEndsExample();
    TwoLines("a", "b");
    assert "a" + ("\n" + ("\n" + "b")) == "a\n\nb";
  }

  /** The last line needs no line feed. */
  lemma LastLine(f: string)
    requires f != "" && ',' !in f && '\n' !in f && f[0] != '"'
    ensures ParseLines(f) == [[f]]
  {
    LastBare(f);
    assert ParseLines("") == [];
    assert ParseRecord(f) == ([f], "");
  }

  lemma {:induction false} LastBare(f: string)
    requires ',' !in f && '\n' !in f
    ensures ParseBare(f) == Parsed(f, false, "")
  {
    if f != "" {
      LastBare(f[1..]);
      assert [f[0]] + f[1..] == f;
    }
  }
}
