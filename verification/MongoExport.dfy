/**
 The text exports of a Mongo database: documents as JSON lines, or flattened to CSV
 records, grouped under marker lines or records that name the collection, and replayed
 into a database in batches.
 */
module MongoExport {
  import opened Common

  const BATCH: nat := 500
  const MAX_LINE: nat := 16777216

  // ----- Inserting in batches -----

  datatype Insert<D> = Insert(coll: string, docs: seq<D>)

  /** Documents with the collection they go to. */
  function Tag<D>(coll: string, docs: seq<D>): seq<(string, D)> {
    seq(|docs|, i requires 0 <= i < |docs| => (coll, docs[i]))
  }

  /** All inserted documents, in the order they were sent. */
  function Flat<D>(calls: seq<Insert<D>>): seq<(string, D)> {
    if calls == [] then [] else Flat(calls[..|calls| - 1]) + Tag(calls[|calls| - 1].coll, calls[|calls| - 1].docs)
  }

  ghost predicate GoodBatches<D>(calls: seq<Insert<D>>) {
    forall i :: 0 <= i < |calls| ==> 1 <= |calls[i].docs| <= 500
  }

  /** In the middle of a replay that has met the documents `all`: what is not sent yet is
      in the batch. */
  ghost predicate UpTo<D>(calls: seq<Insert<D>>, coll: string, batch: seq<D>, all: seq<(string, D)>) {
    Flat(calls) + Tag(coll, batch) == all && GoodBatches(calls) && |batch| < BATCH && (batch != [] ==> coll != "")
  }

  /** What was sent is where the documents met begin. */
  ghost predicate SentFirst<D>(calls: seq<Insert<D>>, all: seq<(string, D)>) {
    Flat(calls) <= all && GoodBatches(calls)
  }

  /** A database that takes inserts, and refuses one of them if `refusesAt` says which. */
  class Target<D> {
    const refusesAt: Option<nat>
    var calls: seq<Insert<D>>

    constructor (refusesAt: Option<nat>)
      ensures calls == [] && this.refusesAt == refusesAt
    {
      this.refusesAt, calls := refusesAt, [];
    }

    ghost predicate Refused()
      reads this
    {
      refusesAt == Some(|calls|)
    }

    /** Sends what the batch holds, if anything. */
    method Flush(coll: string, batch: seq<D>, ghost all: seq<(string, D)>) returns (ok: bool)
      requires Flat(calls) + Tag(coll, batch) == all && GoodBatches(calls) && |batch| <= BATCH
                 && (batch != [] ==> coll != "")
      modifies this
      ensures ok ==> Flat(calls) == all && GoodBatches(calls)
      ensures !ok ==> calls == old(calls) && Refused() && SentFirst(calls, all)
    {
      if |batch| == 0 || coll == "" {
        assert Flat(calls) + Tag(coll, batch) == Flat(calls);
        return true;
      }
      if refusesAt == Some(|calls|) {
        return false;
      }
      assert (calls + [Insert(coll, batch)])[..|calls|] == calls;
      calls := calls + [Insert(coll, batch)];
      return true;
    }

    /** A document joins the batch, and a full batch is sent. */
    method Take(coll: string, batch: seq<D>, doc: D, ghost all: seq<(string, D)>) returns (ok: bool, batch': seq<D>)
      requires UpTo(calls, coll, batch, all) && coll != ""
      modifies this
      ensures ok ==> UpTo(calls, coll, batch', all + [(coll, doc)])
      ensures !ok ==> Refused() && SentFirst(calls, all + [(coll, doc)])
    {
      ok, batch' := true, batch + [doc];
      TagSnoc(Flat(calls), coll, batch, doc);
      if |batch'| >= BATCH {
        ok := Flush(coll, batch', all + [(coll, doc)]);
        if ok {
          batch' := [];
          EmptyBatch(calls, coll, all + [(coll, doc)]);
        }
      }
    }
  }

  lemma TagSnoc<D>(sent: seq<(string, D)>, coll: string, batch: seq<D>, doc: D)
    ensures sent + Tag(coll, batch + [doc]) == sent + Tag(coll, batch) + [(coll, doc)]
  {
    assert Tag(coll, batch + [doc]) == Tag(coll, batch) + [(coll, doc)];
    Assoc(sent, Tag(coll, batch), [(coll, doc)]);
  }

  lemma EmptyBatch<D>(calls: seq<Insert<D>>, coll: string, all: seq<(string, D)>)
    requires Flat(calls) == all && GoodBatches(calls)
    ensures UpTo(calls, coll, [], all)
  {
    assert Flat(calls) + Tag(coll, []) == Flat(calls);
  }

  // ----- JSON lines -----

  /** Documents as relaxed extended JSON, and the marker probe of a line: None when the line
      is no JSON or the marker field no string, the empty string when it is no marker.
      Relaxed JSON forgets some types: `Relaxed` is the document without them. It also
      writes some documents like values of other types, and then reads them as those:
      `Wrapped` says which. */
  datatype Json<!D> = Json(Marshal: D -> string, Unmarshal: string -> Option<D>, Relaxed: D -> D, Wrapped: D -> bool,
                           Probe: string -> Option<string>, printable: char -> bool)

  predicate OneLine(s: string) {
    s != "" && s[0] == '{' && s[|s| - 1] == '}' && '\n' !in s
  }

  /** A document that is not wrapped is read back but for the types that are forgotten; one
      that is comes back as something else, or not at all. No control character counts as
      printable, and probing a marker line reads the quoted name. */
  ghost predicate JsonLaw<D(!new)>(c: Json<D>) {
    && (forall d :: OneLine(c.Marshal(d)))
    && (forall d :: if c.Wrapped(d) then c.Unmarshal(c.Marshal(d)) !in {Some(d), Some(c.Relaxed(d))}
                    else c.Unmarshal(c.Marshal(d)) == Some(c.Relaxed(d)))
    && (forall ch :: c.printable(ch) ==> ' ' <= ch && ch != '\U{7F}')
    && (forall name :: c.Probe(MarkerLine(c.printable, name)) == JsonText(Quote(c.printable, name)))
  }

  datatype Collection<D> = Collection(name: string, docs: seq<D>)

  // ----- Marker lines: written with one quoting convention, read with another -----

  function HexDigit(n: nat): (c: char)
    requires n < 16
    ensures IsHex(c) && HexOf(c) == n
  {
    if n < 10 then '0' + n as char else 'a' + (n - 10) as char
  }

  function Hex(n: nat, width: nat): (s: string)
    ensures |s| == width
  {
    if width == 0 then "" else Hex(n / 16, width - 1) + [HexDigit(n % 16)]
  }

  predicate IsHex(c: char) {
    '0' <= c <= '9' || 'a' <= c <= 'f' || 'A' <= c <= 'F'
  }

  function HexOf(c: char): nat
    requires IsHex(c)
  {
    if c <= '9' then c as nat - '0' as nat else if c <= 'F' then c as nat - 'A' as nat + 10
    else c as nat - 'a' as nat + 10
  }

  predicate AllHex(s: string) {
    forall i :: 0 <= i < |s| ==> IsHex(s[i])
  }

  function HexNumber(s: string): nat
    requires AllHex(s)
  {
    if s == "" then 0 else HexNumber(s[..|s| - 1]) * 16 + HexOf(s[|s| - 1])
  }

  /** The letter that stands for a control character after a backslash, if there is one. */
  function Letter(c: char): Option<char> {
    match c
    case '\U{07}' => Some('a')
    case '\U{08}' => Some('b')
    case '\U{0C}' => Some('f')
    case '\n' => Some('n')
    case '\r' => Some('r')
    case '\t' => Some('t')
    case '\U{0B}' => Some('v')
    case _ => None
  }

  /** One character of a name under Go's %q. */
  function QuoteChar(printable: char -> bool, c: char): string {
    if c == '"' || c == '\\' then ['\\', c]
    else if printable(c) then [c]
    else if Letter(c).Some? then ['\\', Letter(c).value]
    else if c < ' ' || c == '\U{7F}' then "\\x" + Hex(c as nat, 2)
    else if c as nat < 0x10000 then "\\u" + Hex(c as nat, 4)
    else "\\U" + Hex(c as nat, 8)
  }

  function Quote(printable: char -> bool, name: string): string {
    if name == "" then "" else QuoteChar(printable, name[0]) + Quote(printable, name[1..])
  }

  function MarkerLine(printable: char -> bool, name: string): string {
    "{\"$vg_collection\":\"" + Quote(printable, name) + "\"}"
  }

  /** What a letter after a backslash stands for in JSON. */
  function Escaped(c: char): Option<char> {
    match c
    case '"' => Some('"')
    case '\\' => Some('\\')
    case '/' => Some('/')
    case 'b' => Some('\U{08}')
    case 'f' => Some('\U{0C}')
    case 'n' => Some('\n')
    case 'r' => Some('\r')
    case 't' => Some('\t')
    case _ => None
  }

  /** The inside of a JSON string. Surrogates, which names do not hold, read as U+FFFD. */
  function JsonText(s: string): Option<string>
    decreases |s|
  {
    if s == "" then Some("")
    else if s[0] == '\\' then
      if |s| < 2 then None
      else if s[1] == 'u' then
        if |s| < 6 || !AllHex(s[2..6]) then None
        else Prepend(ScalarOf(HexNumber(s[2..6])), JsonText(s[6..]))
      else if Escaped(s[1]).None? then None
      else Prepend(Escaped(s[1]).value, JsonText(s[2..]))
    else if s[0] == '"' || s[0] < ' ' then None
    else Prepend(s[0], JsonText(s[1..]))
  }

  function ScalarOf(n: nat): char {
    if n < 0xD800 || 0xE000 <= n < 0x11_0000 then n as char else '\U{FFFD}'
  }

  function Prepend(c: char, r: Option<string>): Option<string> {
    match r
    case None => None
    case Some(text) => Some([c] + text)
  }

  /** Both conventions agree on the character: it is printable or a quote or a backslash, or
      has an escape that is also one of JSON. */
  predicate Readable(printable: char -> bool, c: char) {
    || c == '"' || c == '\\' || printable(c)
    || c in {'\U{08}', '\U{0C}', '\n', '\r', '\t'}
    || (' ' <= c && c != '\U{7F}' && c as nat < 0x10000)
  }

  predicate ReadableName(printable: char -> bool, name: string) {
    forall i :: 0 <= i < |name| ==> Readable(printable, name[i])
  }

  lemma {:induction false} HexReadsBack(n: nat, width: nat)
    ensures AllHex(Hex(n, width))
    ensures n < Pow16(width) ==> HexNumber(Hex(n, width)) == n
  {
    if width > 0 {
      HexReadsBack(n / 16, width - 1);
      var h := Hex(n, width);
      assert h[..width - 1] == Hex(n / 16, width - 1);
    }
  }

  function Pow16(w: nat): nat {
    if w == 0 then 1 else 16 * Pow16(w - 1)
  }

  lemma UnicodeEscapeIsRead(c: char, rest: string)
    requires c as nat < 0x10000
    ensures JsonText("\\u" + Hex(c as nat, 4) + rest) == Prepend(c, JsonText(rest))
  {
    HexReadsBack(c as nat, 4);
    assert Pow16(4) == 0x10000 && ScalarOf(c as nat) == c;
    var s := "\\u" + Hex(c as nat, 4) + rest;
    assert s[0] == '\\' && s[1] == 'u' && s[2..6] == Hex(c as nat, 4) && s[6..] == rest;
  }

  lemma LetterEscapeIsRead(c: char, rest: string)
    ensures JsonText(['\\', c] + rest)
            == if c == 'u' then JsonText(['\\', c] + rest)
               else if Escaped(c).None? then None else Prepend(Escaped(c).value, JsonText(rest))
  {
    var s := ['\\', c] + rest;
    assert s[2..] == rest;
  }

  lemma UnknownEscape(c: char, digits: string, rest: string)
    requires c == 'x' || c == 'U'
    ensures JsonText(['\\', c] + digits + rest) == None
  {
  }

  lemma BareCharIsRead(c: char, rest: string)
    requires ' ' <= c && c != '"' && c != '\\'
    ensures JsonText([c] + rest) == Prepend(c, JsonText(rest))
  {
    assert ([c] + rest)[1..] == rest;
  }

  /** The two conventions share five of the seven letters. */
  lemma LettersAgree(c: char)
    requires Letter(c).Some?
    ensures Letter(c).value != 'u'
    ensures Escaped(Letter(c).value) == if c == '\U{07}' || c == '\U{0B}' then None else Some(c)
  {
  }

  lemma LetterIsRead(printable: char -> bool, c: char, rest: string)
    requires Letter(c).Some? && !printable(c)
    ensures JsonText(['\\', Letter(c).value] + rest) == if Readable(printable, c) then Prepend(c, JsonText(rest))
              else None
  {
    LettersAgree(c);
    LetterEscapeIsRead(Letter(c).value, rest);
  }

  /** One quoted character, followed by anything, reads back exactly if it is readable. */
  lemma QuotedCharIsRead(printable: char -> bool, c: char, rest: string)
    requires printable(c) ==> ' ' <= c && c != '\U{7F}'
    ensures JsonText(QuoteChar(printable, c) + rest) == if Readable(printable, c) then Prepend(c, JsonText(rest))
              else None
  {
    if c == '"' || c == '\\' {
      LetterEscapeIsRead(c, rest);
    } else if printable(c) {
      BareCharIsRead(c, rest);
    } else if Letter(c).Some? {
      LetterIsRead(printable, c, rest);
    } else if c < ' ' || c == '\U{7F}' {
      UnknownEscape('x', Hex(c as nat, 2), rest);
    } else if c as nat < 0x10000 {
      UnicodeEscapeIsRead(c, rest);
    } else {
      UnknownEscape('U', Hex(c as nat, 8), rest);
    }
  }

  lemma QuoteOne(printable: char -> bool, c: char)
    ensures Quote(printable, [c]) == QuoteChar(printable, c)
  {
    assert [c][1..] == "";
    assert Quote(printable, [c]) == QuoteChar(printable, c) + "";
  }

  /** Go's quoting of what does not print as itself: a quote and a backslash are escaped, a
      few control characters have a letter, others two digits, the rest four or eight. */
  lemma QuoteExample(printable: char -> bool)
    requires !printable('\t') && !printable('\U{7F}') && !printable('\U{85}') && !printable('\U{E0001}')
    ensures Quote(printable, ['"']) == "\\\"" && Quote(printable, ['\t']) == "\\t"
    ensures Quote(printable, ['\U{7F}']) == "\\x" + "7f" && Quote(printable, ['\U{85}']) == "\\u" + "0085"
    ensures Quote(printable, ['\U{E0001}']) == "\\U" + "000e0001"
  {
    QuoteOne(printable, '"');
    QuoteOne(printable, '\t');
    QuoteOne(printable, '\U{7F}');
    QuoteOne(printable, '\U{85}');
    QuoteOne(printable, '\U{E0001}');
    EscapesExample(printable);
  }

  lemma EscapesExample(printable: char -> bool)
    requires !printable('\t') && !printable('\U{7F}') && !printable('\U{85}') && !printable('\U{E0001}')
    ensures QuoteChar(printable, '"') == "\\\"" && QuoteChar(printable, '\t') == "\\t"
    ensures QuoteChar(printable, '\U{7F}') == "\\x" + "7f" && QuoteChar(printable, '\U{85}') == "\\u" + "0085"
    ensures QuoteChar(printable, '\U{E0001}') == "\\U" + "000e0001"
  {
    DigitsExample();
  }

  lemma DigitsExample()
    ensures Hex(0x7F, 2) == "7f" && Hex(0x85, 4) == "0085" && Hex(0xE0001, 8) == "000e0001"
  {
    ZerosExample();
    assert Hex(0x7, 1) == "7" && Hex(0x8, 3) == "008" && Hex(0xE, 4) == "000e";
    assert Hex(0xE0, 5) == "000e0";
    assert Hex(0xE00, 6) == "000e00";
    assert Hex(0xE000, 7) == "000e000";
  }

  lemma ZerosExample()
    ensures Hex(0, 0) == "" && Hex(0, 2) == "00" && Hex(0, 3) == "000"
  {
    assert Hex(0, 1) == "0";
  }

  /** A name comes back from its marker line exactly if all its characters are readable;
      otherwise the line is no JSON at all. */
  lemma {:induction false} NameIsRead(printable: char -> bool, name: string)
    requires forall c :: printable(c) ==> ' ' <= c && c != '\U{7F}'
    ensures JsonText(Quote(printable, name)) == if ReadableName(printable, name) then Some(name) else None
  {
    if name != "" {
      NameIsRead(printable, name[1..]);
      QuotedCharIsRead(printable, name[0], Quote(printable, name[1..]));
      assert [name[0]] + name[1..] == name;
      assert ReadableName(printable, name) <==> Readable(printable, name[0]) && ReadableName(printable, name[1..]) by {
        assert forall i :: 0 <= i < |name[1..]| ==> name[1..][i] == name[i + 1];
        assert forall i :: 0 < i < |name| ==> name[i] == name[1..][i - 1];
      }
    }
  }

  lemma {:induction false} QuoteIsOneLine(printable: char -> bool, name: string)
    requires forall c :: printable(c) ==> ' ' <= c && c != '\U{7F}'
    ensures '\n' !in Quote(printable, name)
  {
    if name != "" {
      QuoteIsOneLine(printable, name[1..]);
      HexReadsBack(name[0] as nat, 2);
      HexReadsBack(name[0] as nat, 4);
      HexReadsBack(name[0] as nat, 8);
    }
  }

  lemma MarkerIsOneLine(printable: char -> bool, name: string)
    requires forall c :: printable(c) ==> ' ' <= c && c != '\U{7F}'
    ensures OneLine(MarkerLine(printable, name))
  {
    QuoteIsOneLine(printable, name);
    var head := "{\"$vg_collection\":\"";
    HeadIsOneLine();
    assert MarkerLine(printable, name) == head + Quote(printable, name) + "\"}";
  }

  lemma HeadIsOneLine()
    ensures '\n' !in "{\"$vg_collection\":\"" && "{\"$vg_collection\":\""[0] == '{'
  {
    var a, b, d := "{\"$vg_", "collect", "ion\":\"";
    assert '\n' !in a && '\n' !in b && '\n' !in d;
    assert "{\"$vg_collection\":\"" == a + b + d;
  }

  /** The name survives the two conventions, and its line fits the reader's buffer. */
  predicate GoodName<D>(c: Json<D>, name: string) {
    ReadableName(c.printable, name) && |MarkerLine(c.printable, name)| < 16777216
  }

  /** The document is no marker and its line fits the reader's buffer. */
  ghost predicate Plain<D>(c: Json<D>, doc: D) {
    c.Probe(c.Marshal(doc)) == Some("") && |c.Marshal(doc)| < 16777216
  }

  function DocLines<D>(c: Json<D>, docs: seq<D>): seq<string> {
    seq(|docs|, i requires 0 <= i < |docs| => c.Marshal(docs[i]))
  }

  function JsonLines<D>(c: Json<D>, db: seq<Collection<D>>): seq<string> {
    if db == [] then []
    else JsonLines(c, db[..|db| - 1]) + ([MarkerLine(c.printable, db[|db| - 1].name)] + DocLines(c, db[|db| - 1].docs))
  }

  /** Every line ends with a line feed. */
  function Unlines(lines: seq<string>): string {
    if lines == [] then "" else lines[0] + "\n" + Unlines(lines[1..])
  }

  function DropCr(s: string): string {
    if s != "" && s[|s| - 1] == '\r' then s[..|s| - 1] else s
  }

  /** The scanner's lines: what follows the last line feed counts only if there is something. */
  function Scan(file: string): seq<string> {
    var parts := Split(file, '\n');
    var whole := if parts[|parts| - 1] == "" then parts[..|parts| - 1] else parts;
    seq(|whole|, i requires 0 <= i < |whole| => DropCr(whole[i]))
  }

  datatype Reading<D> = Reading(ok: bool, coll: string, all: seq<(string, D)>)

  function ReadLine<D>(c: Json<D>, r: Reading<D>, line: string): Reading<D> {
    if !r.ok then r
    else if |line| >= MAX_LINE then r.(ok := false)
    else ReadTrimmed(c, r, Trim(line, IsSpace))
  }

  function ReadTrimmed<D>(c: Json<D>, r: Reading<D>, line: string): Reading<D> {
    if line == "" then r
    else
      match c.Probe(line)
      case None => r.(ok := false)
      case Some(name) =>
        if name != "" then r.(coll := name)
        else if r.coll == "" then r.(ok := false)
        else
          match c.Unmarshal(line)
          case None => r.(ok := false)
          case Some(doc) => r.(all := r.all + [(r.coll, doc)])
  }

  function ReadLines<D>(c: Json<D>, r: Reading<D>, lines: seq<string>): Reading<D> {
    if lines == [] then r else ReadLine(c, ReadLines(c, r, lines[..|lines| - 1]), lines[|lines| - 1])
  }

  method BackupMongoJson<D>(c: Json<D>, db: seq<Collection<D>>) returns (file: string)
    ensures file == Unlines(JsonLines(c, db))
  {
    file := "";
    for k := 0 to |db|
      invariant file == Unlines(JsonLines(c, db[..k]))
    {
      assert db[..k + 1][..k] == db[..k];
      file := file + (MarkerLine(c.printable, db[k].name) + "\n");
      ghost var lines := JsonLines(c, db[..k]) + [MarkerLine(c.printable, db[k].name)];
      UnlinesSnoc(JsonLines(c, db[..k]), MarkerLine(c.printable, db[k].name));
      file := WriteDocs(c, db[k].docs, file, lines);
      Assoc(JsonLines(c, db[..k]), [MarkerLine(c.printable, db[k].name)], DocLines(c, db[k].docs));
    }
    assert db[..|db|] == db;
  }

  method WriteDocs<D>(c: Json<D>, docs: seq<D>, start: string, ghost lines: seq<string>) returns (file: string)
    requires start == Unlines(lines)
    ensures file == Unlines(lines + DocLines(c, docs))
  {
    file := start;
    assert lines + DocLines(c, []) == lines;
    for i := 0 to |docs|
      invariant file == Unlines(lines + DocLines(c, docs[..i]))
    {
      assert DocLines(c, docs[..i + 1]) == DocLines(c, docs[..i]) + [c.Marshal(docs[i])];
      Assoc(lines, DocLines(c, docs[..i]), [c.Marshal(docs[i])]);
      UnlinesSnoc(lines + DocLines(c, docs[..i]), c.Marshal(docs[i]));
      file := file + (c.Marshal(docs[i]) + "\n");
    }
    assert docs[..|docs|] == docs;
  }

  lemma {:induction false} UnlinesSnoc(lines: seq<string>, line: string)
    ensures Unlines(lines + [line]) == Unlines(lines) + (line + "\n")
  {
    if lines == [] {
      assert lines + [line] == [line] && [line][1..] == [];
    } else {
      UnlinesSnoc(lines[1..], line);
      assert (lines + [line])[1..] == lines[1..] + [line];
      Assoc(lines[0] + "\n", Unlines(lines[1..]), line + "\n");
    }
  }

  /** What a replay of r has sent to a database: on success everything; otherwise the
      documents that came first, because the database refused an insert, or because a line
      could not be read, and then less than a batch is missing. */
  ghost predicate Outcome<D>(ok: bool, refused: bool, calls: seq<Insert<D>>, r: Reading<D>) {
    && SentFirst(calls, r.all)
    && (ok ==> r.ok && Flat(calls) == r.all)
    && (!ok ==> refused || (!r.ok && |r.all| < |Flat(calls)| + 500))
  }

  /** Replays a file in batches of 1 to 500 documents, none lost or repeated when the
      collection changes. */
  method RestoreMongoJson<D>(c: Json<D>, file: string, db: Target<D>) returns (ok: bool)
    requires db.calls == []
    modifies db
    ensures Outcome(ok, db.Refused(), db.calls, ReadLines(c, Reading(true, "", []), Scan(file)))
  {
    var lines := Scan(file);
    ghost var start: Reading<D>, r: Reading<D> := Reading(true, "", []), Reading(true, "", []);
    var coll: string, batch: seq<D> := "", [];
    for i := 0 to |lines|
      invariant r.ok && r.coll == coll && ReadUpTo(c, start, lines, i, r)
      invariant UpTo(db.calls, coll, batch, r.all)
    {
      ReadOneMore(c, start, lines, i, r);
      ok, coll, batch := NextLine(c, db, lines[i], coll, batch, r);
      r := ReadLine(c, r, lines[i]);
      if !ok {
        StoppedAt(c, start, lines, i + 1, r, db.Refused(), db.calls);
        return false;
      }
    }
    ReadAll(c, start, lines, r);
    ok := db.Flush(coll, batch, r.all);
  }

  /** After i lines the reading has come to r. */
  ghost predicate ReadUpTo<D>(c: Json<D>, start: Reading<D>, lines: seq<string>, i: nat, r: Reading<D>) {
    i <= |lines| && r == ReadLines(c, start, lines[..i])
  }

  lemma ReadOneMore<D>(c: Json<D>, start: Reading<D>, lines: seq<string>, i: nat, r: Reading<D>)
    requires i < |lines| && ReadUpTo(c, start, lines, i, r)
    ensures ReadUpTo(c, start, lines, i + 1, ReadLine(c, r, lines[i]))
  {
    assert lines[..i + 1][..i] == lines[..i];
  }

  lemma ReadAll<D>(c: Json<D>, start: Reading<D>, lines: seq<string>, r: Reading<D>)
    requires ReadUpTo(c, start, lines, |lines|, r)
    ensures r == ReadLines(c, start, lines)
  {
    assert lines[..|lines|] == lines;
  }

  /** The replay stopped after i lines, at a bad line or a refused insert. */
  lemma StoppedAt<D>(c: Json<D>, start: Reading<D>, lines: seq<string>, i: nat, r: Reading<D>, refused: bool,
                     calls: seq<Insert<D>>)
    requires ReadUpTo(c, start, lines, i, r) && Outcome(false, refused, calls, r)
    ensures Outcome(false, refused, calls, ReadLines(c, start, lines))
  {
    AllGrows(c, start, lines, i);
    if !r.ok {
      BadLineSticks(c, start, lines, i);
    }
  }

  lemma {:induction false} AllGrows<D>(c: Json<D>, r: Reading<D>, lines: seq<string>, i: nat)
    requires i <= |lines|
    ensures ReadLines(c, r, lines[..i]).all <= ReadLines(c, r, lines).all
    decreases |lines|
  {
    if i == |lines| {
      assert lines[..i] == lines;
    } else {
      var init := lines[..|lines| - 1];
      assert init[..i] == lines[..i];
      AllGrows(c, r, init, i);
      LineGrows(c, ReadLines(c, r, init), lines[|lines| - 1]);
    }
  }

  lemma LineGrows<D>(c: Json<D>, r: Reading<D>, line: string)
    ensures r.all <= ReadLine(c, r, line).all
  {
  }

  method NextLine<D>(c: Json<D>, db: Target<D>, text: string, coll: string, batch: seq<D>, ghost r: Reading<D>)
    returns (ok: bool, coll': string, batch': seq<D>)
    requires r.ok && r.coll == coll && UpTo(db.calls, coll, batch, r.all)
    modifies db
    ensures ok ==> ReadLine(c, r, text).ok && coll' == ReadLine(c, r, text).coll
    ensures ok ==> UpTo(db.calls, coll', batch', ReadLine(c, r, text).all)
    ensures !ok ==> Outcome(false, db.Refused(), db.calls, ReadLine(c, r, text))
  {
    ok, coll', batch' := true, coll, batch;
    if |text| >= MAX_LINE {
      return false, coll', batch';
    }
    var line := Trim(text, IsSpace);
    if line == "" {
      return;
    }
    var probe := c.Probe(line);
    if probe.None? {
      return false, coll', batch';
    }
    if probe.value != "" {
      ok := db.Flush(coll, batch, r.all);
      if ok {
        EmptyBatch(db.calls, probe.value, r.all);
      }
      return ok, probe.value, [];
    }
    var doc := c.Unmarshal(line);
    if coll == "" || doc.None? {
      return false, coll', batch';
    }
    ok, batch' := db.Take(coll, batch, doc.value, r.all);
  }

  lemma {:induction false} BadLineSticks<D>(c: Json<D>, r: Reading<D>, lines: seq<string>, i: nat)
    requires i <= |lines| && !ReadLines(c, r, lines[..i]).ok
    ensures ReadLines(c, r, lines) == ReadLines(c, r, lines[..i])
    decreases |lines|
  {
    if i == |lines| {
      assert lines[..i] == lines;
    } else {
      assert lines[..|lines| - 1][..i] == lines[..i];
      BadLineSticks(c, r, lines[..|lines| - 1], i);
    }
  }

  // ----- What a JSON dump replays to -----

  /** Every document with its collection, in dump order. */
  function Everything<D>(db: seq<Collection<D>>): seq<(string, D)> {
    if db == [] then [] else Everything(db[..|db| - 1]) + Tag(db[|db| - 1].name, db[|db| - 1].docs)
  }

  ghost predicate WholeLines(lines: seq<string>) {
    forall i :: 0 <= i < |lines| ==> OneLine(lines[i])
  }

  lemma {:induction false} UnlinesSplit(lines: seq<string>)
    requires WholeLines(lines)
    ensures Split(Unlines(lines), '\n') == lines + [""]
  {
    if lines != [] {
      var rest := Unlines(lines[1..]);
      UnlinesSplit(lines[1..]);
      assert lines[0] + "\n" + rest == lines[0] + ['\n'] + rest;
      SplitJoined(lines[0], '\n', rest);
      assert [lines[0]] + (lines[1..] + [""]) == lines + [""];
    }
  }

  /** The scanner finds the lines that were written. */
  lemma ScanWritten(lines: seq<string>)
    requires WholeLines(lines)
    ensures Scan(Unlines(lines)) == lines
  {
    UnlinesSplit(lines);
    var parts := lines + [""];
    assert parts[..|parts| - 1] == lines;
    assert forall i :: 0 <= i < |lines| ==> OneLine(lines[i]) && DropCr(lines[i]) == lines[i];
  }

  lemma MarkerIsProbed<D(!new)>(c: Json<D>, name: string)
    requires JsonLaw(c)
    ensures OneLine(MarkerLine(c.printable, name))
    ensures c.Probe(MarkerLine(c.printable, name)) == if ReadableName(c.printable, name) then Some(name) else None
  {
    MarkerIsOneLine(c.printable, name);
    NameIsRead(c.printable, name);
  }

  lemma {:induction false} LinesAreWhole<D(!new)>(c: Json<D>, db: seq<Collection<D>>)
    requires JsonLaw(c)
    ensures WholeLines(JsonLines(c, db))
  {
    if db != [] {
      LinesAreWhole(c, db[..|db| - 1]);
      CollectionIsWhole(c, db[|db| - 1]);
    }
  }

  lemma CollectionIsWhole<D(!new)>(c: Json<D>, col: Collection<D>)
    requires JsonLaw(c)
    ensures WholeLines([MarkerLine(c.printable, col.name)] + DocLines(c, col.docs))
  {
    MarkerIsOneLine(c.printable, col.name);
  }

  lemma {:induction false} ReadConcat<D>(c: Json<D>, r: Reading<D>, a: seq<string>, b: seq<string>)
    ensures ReadLines(c, r, a + b) == ReadLines(c, ReadLines(c, r, a), b)
    decreases |b|
  {
    if b == [] {
      assert a + b == a;
    } else {
      ReadConcat(c, r, a, b[..|b| - 1]);
      assert (a + b)[..|a + b| - 1] == a + b[..|b| - 1];
    }
  }

  lemma ReadOneLine<D>(c: Json<D>, r: Reading<D>, line: string)
    requires OneLine(line)
    ensures r.ok && |line| < MAX_LINE ==> ReadLine(c, r, line) == ReadTrimmed(c, r, line)
  {
    NothingToTrim(line, IsSpace);
  }

  /** The document that is read from the line of d, if one is. */
  function Back<D>(c: Json<D>): D -> D {
    (d: D) =>
      match c.Unmarshal(c.Marshal(d))
      case Some(doc) => doc
      case None => d
  }

  /** A line of a document that is taken for one, and is read. */
  ghost predicate LineIsDoc<D>(c: Json<D>, doc: D) {
    Plain(c, doc) && Decodes(c, doc)
  }

  predicate Decodes<D>(c: Json<D>, doc: D) {
    c.Unmarshal(c.Marshal(doc)).Some?
  }

  /** A line adds at most one document, and only if it is read as one. */
  lemma DocLineRead<D(!new)>(c: Json<D>, r: Reading<D>, doc: D)
    requires JsonLaw(c) && r.ok && r.coll != ""
    ensures var r' := ReadLine(c, r, c.Marshal(doc));
            if LineIsDoc(c, doc) then r' == r.(all := r.all + [(r.coll, Back(c)(doc))])
            else !r'.ok || (r'.all == r.all && r'.coll != "")
  {
    ReadOneLine(c, r, c.Marshal(doc));
  }

  ghost predicate AllReadable<D>(c: Json<D>, docs: seq<D>) {
    forall i :: 0 <= i < |docs| ==> LineIsDoc(c, docs[i])
  }

  function MapDocs<D>(f: D -> D, docs: seq<D>): seq<D> {
    seq(|docs|, i requires 0 <= i < |docs| => f(docs[i]))
  }

  lemma {:induction false} DocsRead<D(!new)>(c: Json<D>, r: Reading<D>, docs: seq<D>)
    requires JsonLaw(c) && r.ok && r.coll != ""
    ensures var r' := ReadLines(c, r, DocLines(c, docs));
            if AllReadable(c, docs) then r' == r.(all := r.all + Tag(r.coll, MapDocs(Back(c), docs)))
            else !r'.ok || (|r'.all| < |r.all| + |docs| && r'.coll != "")
    decreases |docs|
  {
    if docs == [] {
      assert r.all + Tag(r.coll, MapDocs(Back(c), docs)) == r.all;
    } else {
      var init, last := docs[..|docs| - 1], docs[|docs| - 1];
      DocsRead(c, r, init);
      DocsSnoc(c, init, last);
      assert docs == init + [last];
      var mid := ReadLines(c, r, DocLines(c, init));
      if mid.ok {
        DocLineRead(c, mid, last);
        TagSnoc(r.all, r.coll, MapDocs(Back(c), init), Back(c)(last));
      }
    }
  }

  lemma DocsSnoc<D>(c: Json<D>, docs: seq<D>, doc: D)
    ensures DocLines(c, docs + [doc]) == DocLines(c, docs) + [c.Marshal(doc)]
    ensures DocLines(c, docs + [doc])[..|docs|] == DocLines(c, docs)
    ensures MapDocs(Back(c), docs + [doc]) == MapDocs(Back(c), docs) + [Back(c)(doc)]
    ensures AllReadable(c, docs + [doc]) <==> AllReadable(c, docs) && LineIsDoc(c, doc)
  {
    if AllReadable(c, docs + [doc]) {
      assert (docs + [doc])[|docs|] == doc;
      assert forall i :: 0 <= i < |docs| ==> (docs + [doc])[i] == docs[i];
    }
  }

  /** A collection that replays: its name reads back and its documents are read. */
  ghost predicate Replayable<D>(c: Json<D>, col: Collection<D>) {
    GoodName(c, col.name) && AllReadable(c, col.docs)
  }

  ghost predicate AllReplayable<D>(c: Json<D>, db: seq<Collection<D>>) {
    forall k :: 0 <= k < |db| ==> Replayable(c, db[k])
  }

  ghost predicate Named<D>(db: seq<Collection<D>>) {
    forall k :: 0 <= k < |db| ==> db[k].name != ""
  }

  function CollectionLines<D>(c: Json<D>, col: Collection<D>): seq<string> {
    [MarkerLine(c.printable, col.name)] + DocLines(c, col.docs)
  }

  lemma MarkerRead<D(!new)>(c: Json<D>, r: Reading<D>, name: string)
    requires JsonLaw(c) && r.ok && name != ""
    ensures var r' := ReadLine(c, r, MarkerLine(c.printable, name));
            if GoodName(c, name) then r' == r.(coll := name) else !r'.ok
  {
    MarkerIsProbed(c, name);
    ReadOneLine(c, r, MarkerLine(c.printable, name));
  }

  lemma ReadSingle<D>(c: Json<D>, r: Reading<D>, line: string)
    ensures ReadLines(c, r, [line]) == ReadLine(c, r, line)
  {
    assert [line][..0] == [];
  }

  lemma CollectionRead<D(!new)>(c: Json<D>, r: Reading<D>, col: Collection<D>)
    requires JsonLaw(c) && r.ok && col.name != ""
    ensures var r' := ReadLines(c, r, CollectionLines(c, col));
            if Replayable(c, col) then r' == Reading(true, col.name, r.all + Tag(col.name, MapDocs(Back(c), col.docs)))
            else !r'.ok || |r'.all| < |r.all| + |col.docs|
  {
    var marker := MarkerLine(c.printable, col.name);
    ReadConcat(c, r, [marker], DocLines(c, col.docs));
    ReadSingle(c, r, marker);
    MarkerRead(c, r, col.name);
    if GoodName(c, col.name) {
      DocsRead(c, r.(coll := col.name), col.docs);
    } else {
      BadLineSticks(c, ReadLine(c, r, marker), DocLines(c, col.docs), 0);
    }
  }

  function MapDump<D>(f: D -> D, db: seq<Collection<D>>): (mapped: seq<Collection<D>>)
    ensures |mapped| == |db|
    ensures forall k :: 0 <= k < |db| ==> mapped[k] == Collection(db[k].name, MapDocs(f, db[k].docs))
  {
    if db == [] then []
    else MapDump(f, db[..|db| - 1]) + [Collection(db[|db| - 1].name, MapDocs(f, db[|db| - 1].docs))]
  }

  lemma ReplayableSnoc<D>(c: Json<D>, db: seq<Collection<D>>)
    requires db != []
    ensures AllReplayable(c, db) <==> AllReplayable(c, db[..|db| - 1]) && Replayable(c, db[|db| - 1])
  {
    assert forall k :: 0 <= k < |db| - 1 ==> db[k] == db[..|db| - 1][k];
  }

  lemma EverythingSnoc<D>(db: seq<Collection<D>>, col: Collection<D>)
    ensures Everything(db + [col]) == Everything(db) + Tag(col.name, col.docs)
  {
    assert (db + [col])[..|db|] == db;
  }

  lemma {:induction false} DumpRead<D(!new)>(c: Json<D>, db: seq<Collection<D>>)
    requires JsonLaw(c) && Named(db)
    ensures var r := ReadLines(c, Reading(true, "", []), JsonLines(c, db));
            if AllReplayable(c, db) then r.ok && r.all == Everything(MapDump(Back(c), db))
            else !r.ok || |r.all| < |Everything(db)|
    ensures var r := ReadLines(c, Reading(true, "", []), JsonLines(c, db)); r.ok ==> |r.all| <= |Everything(db)|
    decreases |db|
  {
    if db != [] {
      var init, last := db[..|db| - 1], db[|db| - 1];
      var start := Reading(true, "", []);
      DumpRead(c, init);
      ReadConcat(c, start, JsonLines(c, init), CollectionLines(c, last));
      ReplayableSnoc(c, db);
      EverythingSnoc(MapDump(Back(c), init), Collection(last.name, MapDocs(Back(c), last.docs)));
      assert JsonLines(c, db) == JsonLines(c, init) + CollectionLines(c, last);
      var mid := ReadLines(c, start, JsonLines(c, init));
      if mid.ok {
        CollectionRead(c, mid, last);
      } else {
        BadLineSticks(c, mid, CollectionLines(c, last), 0);
      }
    }
  }

  function Replayed<D>(c: Json<D>, db: seq<Collection<D>>): Reading<D> {
    ReadLines(c, Reading(true, "", []), Scan(Unlines(JsonLines(c, db))))
  }

  /** Every name reads back from its marker, no document imitates one, every line fits. */
  ghost predicate AllPlain<D>(c: Json<D>, db: seq<Collection<D>>) {
    && (forall k :: 0 <= k < |db| ==> GoodName(c, db[k].name))
    && (forall k, i :: 0 <= k < |db| && 0 <= i < |db[k].docs| ==> Plain(c, db[k].docs[i]))
  }

  ghost predicate NoneWrapped<D>(c: Json<D>, db: seq<Collection<D>>) {
    forall k, i :: 0 <= k < |db| && 0 <= i < |db[k].docs| ==> !c.Wrapped(db[k].docs[i])
  }

  /** Every document is the same under f and under g. */
  ghost predicate MapsAlike<D>(f: D -> D, g: D -> D, db: seq<Collection<D>>) {
    forall k, i :: 0 <= k < |db| && 0 <= i < |db[k].docs| ==> f(db[k].docs[i]) == g(db[k].docs[i])
  }

  lemma MapDumpIff<D>(f: D -> D, g: D -> D, db: seq<Collection<D>>)
    ensures Everything(MapDump(f, db)) == Everything(MapDump(g, db)) <==> MapsAlike(f, g, db)
  {
    var a, b := MapDump(f, db), MapDump(g, db);
    SameEverythingIff(a, b);
    if a == b {
      forall k, i | 0 <= k < |db| && 0 <= i < |db[k].docs| ensures f(db[k].docs[i]) == g(db[k].docs[i]) {
        assert a[k].docs[i] == b[k].docs[i];
      }
    }
    if MapsAlike(f, g, db) {
      forall k | 0 <= k < |db| ensures a[k] == b[k] {
        assert MapDocs(f, db[k].docs) == MapDocs(g, db[k].docs);
      }
    }
  }

  /** The listings of two dumps with the same names and numbers of documents. */
  lemma {:induction false} SameEverythingIff<D>(a: seq<Collection<D>>, b: seq<Collection<D>>)
    requires |a| == |b|
    requires forall k :: 0 <= k < |a| ==> a[k].name == b[k].name && |a[k].docs| == |b[k].docs|
    ensures Everything(a) == Everything(b) <==> a == b
    ensures |Everything(a)| == |Everything(b)|
  {
    if a != [] {
      var x, y := a[|a| - 1], b[|b| - 1];
      SameEverythingIff(a[..|a| - 1], b[..|b| - 1]);
      SameEnds(Everything(a[..|a| - 1]), Everything(b[..|b| - 1]), Tag(x.name, x.docs), Tag(y.name, y.docs));
      SameTags(x.name, x.docs, y.docs);
      SameEnds(a[..|a| - 1], b[..|b| - 1], [x], [y]);
      assert a == a[..|a| - 1] + [x] && b == b[..|b| - 1] + [y];
    }
  }

  lemma ReplayableIsPlain<D>(c: Json<D>, db: seq<Collection<D>>)
    ensures AllReplayable(c, db) ==> AllPlain(c, db)
    ensures AllPlain(c, db) && (forall k, i :: 0 <= k < |db| && 0 <= i < |db[k].docs| ==> Decodes(c, db[k].docs[i])) ==>
              AllReplayable(c, db)
  {
    if AllReplayable(c, db) {
      forall k, i | 0 <= k < |db| && 0 <= i < |db[k].docs| ensures Plain(c, db[k].docs[i]) {
        assert Replayable(c, db[k]) && LineIsDoc(c, db[k].docs[i]);
      }
      assert forall k :: 0 <= k < |db| ==> Replayable(c, db[k]);
    }
  }

  /** What a dump replays to is `target`, document by document, if it is read at all. */
  lemma ReplaysTo<D(!new)>(c: Json<D>, db: seq<Collection<D>>, target: D -> D)
    requires JsonLaw(c) && Named(db)
    ensures Replayed(c, db).ok && Replayed(c, db).all == Everything(MapDump(target, db))
            <==> AllReplayable(c, db) && MapsAlike(Back(c), target, db)
    ensures AllReplayable(c, db) || !Replayed(c, db).ok || |Replayed(c, db).all| < |Everything(db)|
  {
    DumpReplays(c, db);
    if AllReplayable(c, db) {
      MapDumpIff(Back(c), target, db);
    } else {
      MapDumpLength(target, db);
    }
  }

  lemma MapDumpLength<D>(f: D -> D, db: seq<Collection<D>>)
    ensures |Everything(MapDump(f, db))| == |Everything(db)|
  {
    SameEverythingIff(MapDump(f, db), db);
  }

  lemma DumpReplays<D(!new)>(c: Json<D>, db: seq<Collection<D>>)
    requires JsonLaw(c) && Named(db)
    ensures AllReplayable(c, db) ==> Replayed(c, db).ok && Replayed(c, db).all == Everything(MapDump(Back(c), db))
    ensures AllReplayable(c, db) || !Replayed(c, db).ok || |Replayed(c, db).all| < |Everything(db)|
  {
    LinesAreWhole(c, db);
    ScanWritten(JsonLines(c, db));
    DumpRead(c, db);
  }

  /** Replaying a JSON dump succeeds and sends each collection its documents, in order and but
      for the types that relaxed JSON forgets, if and only if every name reads back from its
      marker, no document imitates a marker, every line fits the reader's buffer, and no
      document holds one that is written like a value of another type. Where a name, a marker
      or a long line is in the way, the replay fails or loses documents. */
  lemma JsonReplaysRelaxedIff<D(!new)>(c: Json<D>, db: seq<Collection<D>>)
    requires JsonLaw(c) && Named(db)
    ensures Replayed(c, db).ok && Replayed(c, db).all == Everything(MapDump(c.Relaxed, db))
            <==> AllPlain(c, db) && NoneWrapped(c, db)
    ensures AllPlain(c, db) || !Replayed(c, db).ok || |Replayed(c, db).all| < |Everything(db)|
  {
    ReplaysTo(c, db, c.Relaxed);
    ReplayableIsPlain(c, db);
    BackIsRelaxed(c, db);
  }

  lemma BackIsRelaxed<D(!new)>(c: Json<D>, db: seq<Collection<D>>)
    requires JsonLaw(c)
    ensures AllPlain(c, db) && NoneWrapped(c, db) <==> AllReplayable(c, db) && MapsAlike(Back(c), c.Relaxed, db)
  {
    ReplayableIsPlain(c, db);
    if AllReplayable(c, db) && MapsAlike(Back(c), c.Relaxed, db) {
      forall k, i | 0 <= k < |db| && 0 <= i < |db[k].docs| ensures !c.Wrapped(db[k].docs[i]) {
        assert Replayable(c, db[k]) && LineIsDoc(c, db[k].docs[i]);
      }
    }
  }

  /** Relaxed JSON remembers every document as it was. */
  ghost predicate KeepsTypes<D>(c: Json<D>, db: seq<Collection<D>>) {
    forall k, i :: 0 <= k < |db| && 0 <= i < |db[k].docs| ==> c.Relaxed(db[k].docs[i]) == db[k].docs[i]
  }

  lemma SameEnds<T>(a: seq<T>, b: seq<T>, x: seq<T>, y: seq<T>)
    requires |a| == |b|
    ensures a + x == b + y <==> a == b && x == y
  {
    if a + x == b + y {
      assert a == (a + x)[..|a|] && b == (b + y)[..|b|];
      assert x == (a + x)[|a|..] && y == (b + y)[|b|..];
    }
  }

  lemma SameTags<D>(coll: string, a: seq<D>, b: seq<D>)
    requires |a| == |b|
    ensures Tag(coll, a) == Tag(coll, b) <==> a == b
  {
    if Tag(coll, a) == Tag(coll, b) {
      assert forall i :: 0 <= i < |a| ==> Tag(coll, a)[i] == (coll, a[i]) && Tag(coll, b)[i] == (coll, b[i]);
    }
  }

  function Same<D>(): D -> D {
    (d: D) => d
  }

  lemma MapSame<D>(db: seq<Collection<D>>)
    ensures MapDump(Same(), db) == db
  {
    forall k | 0 <= k < |db| ensures MapDump(Same(), db)[k] == db[k] {
      assert MapDocs(Same(), db[k].docs) == db[k].docs;
    }
  }

  /** It sends exactly the documents that were dumped if and only if, besides, relaxed JSON
      remembers each of them as it was. */
  lemma JsonReplaysExactlyIff<D(!new)>(c: Json<D>, db: seq<Collection<D>>)
    requires JsonLaw(c) && Named(db)
    ensures Replayed(c, db).ok && Replayed(c, db).all == Everything(db)
            <==> AllPlain(c, db) && NoneWrapped(c, db) && KeepsTypes(c, db)
  {
    MapSame(db);
    ReplaysTo(c, db, Same());
    BackIsRelaxed(c, db);
    if AllReplayable(c, db) && MapsAlike(Back(c), Same(), db) {
      forall k, i | 0 <= k < |db| && 0 <= i < |db[k].docs|
        ensures !c.Wrapped(db[k].docs[i]) && c.Relaxed(db[k].docs[i]) == db[k].docs[i]
      {
        assert Replayable(c, db[k]) && LineIsDoc(c, db[k].docs[i]);
      }
    }
  }

  /** A collection named by a bell character cannot be replayed, whatever it holds. */
  lemma BellNameExample<D(!new)>(c: Json<D>, docs: seq<D>)
    requires JsonLaw(c)
    ensures MarkerLine(c.printable, ['\U{07}']) == "{\"$vg_collection\":\"\\a\"}"
    ensures !Replayed(c, [Collection(['\U{07}'], docs)]).ok
  {
    BellIsUnreadable(c.printable);
    BellMarker(c.printable);
    BadCollectionFails(c, Collection(['\U{07}'], docs));
  }

  lemma BellMarker(printable: char -> bool)
    requires Quote(printable, ['\U{07}']) == "\\a"
    ensures MarkerLine(printable, ['\U{07}']) == "{\"$vg_collection\":\"\\a\"}"
  {
  }

  lemma BadCollectionFails<D(!new)>(c: Json<D>, col: Collection<D>)
    requires JsonLaw(c) && col.name != "" && !GoodName(c, col.name)
    ensures !Replayed(c, [col]).ok
  {
    LinesAreWhole(c, [col]);
    ScanWritten(JsonLines(c, [col]));
    OneCollection(c, col);
    BadNameFails(c, col.name, DocLines(c, col.docs));
  }

  lemma BellIsUnreadable(printable: char -> bool)
    requires forall ch :: printable(ch) ==> ' ' <= ch
    ensures Quote(printable, ['\U{07}']) == "\\a" && !ReadableName(printable, ['\U{07}'])
  {
    var name := ['\U{07}'];
    assert name[1..] == "" && !Readable(printable, name[0]);
  }

  lemma OneCollection<D>(c: Json<D>, col: Collection<D>)
    ensures JsonLines(c, [col]) == [MarkerLine(c.printable, col.name)] + DocLines(c, col.docs)
  {
    assert [col][..0] == [] && JsonLines(c, [col][..0]) == [];
  }

  /** A marker that does not read back ends the replay. */
  lemma BadNameFails<D(!new)>(c: Json<D>, name: string, more: seq<string>)
    requires JsonLaw(c) && name != "" && !GoodName(c, name)
    ensures !ReadLines(c, Reading(true, "", []), [MarkerLine(c.printable, name)] + more).ok
  {
    var start := Reading(true, "", []);
    ReadConcat(c, start, [MarkerLine(c.printable, name)], more);
    ReadSingle(c, start, MarkerLine(c.printable, name));
    MarkerRead(c, start, name);
    BadLineSticks(c, ReadLine(c, start, MarkerLine(c.printable, name)), more, 0);
  }

  // ----- Files that were not written by a backup -----

  lemma ScanTwo(a: string, b: string)
    requires '\n' !in a && '\n' !in b && b != ""
    ensures Scan(a + ['\n'] + b) == [DropCr(a), DropCr(b)] && Scan(a + ['\n']) == [DropCr(a)]
  {
    SplitJoined(a, '\n', b);
    SplitWord(b, '\n');
    SplitJoined(a, '\n', "");
    assert a + ['\n'] + "" == a + ['\n'];
    assert ([a] + [""])[..1] == [a];
  }

  /** A carriage return before a line feed goes, and the last line needs no line feed. */
  lemma ScanExample()
    ensures Scan("a\r\nb") == ["a", "b"] && Scan("a\r\n") == ["a"]
  {
    ScanTwo("a\r", "b");
    assert "a\r" + ['\n'] + "b" == "a\r\nb" && "a\r" + ['\n'] == "a\r\n";
    assert "a\r"[..1] == "a" && DropCr("b") == "b";
  }

  /** The line is JSON without a marker's field. */
  predicate NoMarker<D>(c: Json<D>, line: string) {
    c.Probe(line) == Some("")
  }

  /** Where a replay stops: at a line too long, at one that is no JSON, at a document before
      the first marker, and at one that is none. */
  lemma LineStopsIff<D>(c: Json<D>, r: Reading<D>, line: string)
    requires r.ok
    ensures var r', text := ReadLine(c, r, line), Trim(line, IsSpace);
            && (!r'.ok <==>
                 || |line| >= 16777216
                 || (text != "" && c.Probe(text).None?)
                 || (text != "" && NoMarker(c, text) && (r.coll == "" || c.Unmarshal(text).None?)))
            && (!r'.ok || text == "" ==> r'.all == r.all && r'.coll == r.coll)
  {
  }
}
