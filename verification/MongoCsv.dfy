/**
 The CSV export of a Mongo database: documents flattened to dotted paths, one table for
 each collection under the sorted union of their paths, and the replay of such a dump.
 */
module MongoCsv {
  import opened Common
  import opened CsvText
  import opened MongoExport

  const MARKER := "$vg_collection"

  // ----- Flattening -----

  /** A document; scalars come as the text they are rendered to. */
  datatype Value = Nested(fields: Fields) | Leaf(text: string)
  datatype Fields = End | Field(key: string, value: Value, rest: Fields)

  function PathOf(prefix: string, key: string): string {
    if prefix != "" then prefix + "." + key else key
  }

  /** The leaves of a document with their paths, in order. */
  function Leaves(prefix: string, doc: Fields): seq<(string, string)>
    decreases doc
  {
    match doc
    case End => []
    case Field(key, value, rest) =>
      (match value
       case Nested(fields) => Leaves(PathOf(prefix, key), fields)
       case Leaf(text) => [(PathOf(prefix, key), text)])
      + Leaves(prefix, rest)
  }

  /** Later assignments win. */
  function Assign(out: map<string, string>, leaves: seq<(string, string)>): map<string, string> {
    if leaves == [] then out else Assign(out, leaves[..|leaves| - 1])[leaves[|leaves| - 1].0 := leaves[|leaves| - 1].1]
  }

  lemma {:induction false} AssignConcat(out: map<string, string>, a: seq<(string, string)>, b: seq<(string, string)>)
    ensures Assign(out, a + b) == Assign(Assign(out, a), b)
    decreases |b|
  {
    if b == [] {
      assert a + b == a;
    } else {
      AssignConcat(out, a, b[..|b| - 1]);
      assert (a + b)[..|a + b| - 1] == a + b[..|b| - 1];
    }
  }

  method FlattenBson(prefix: string, doc: Fields, out: map<string, string>) returns (out': map<string, string>)
    ensures out' == Assign(out, Leaves(prefix, doc))
    decreases doc
  {
    if doc.End? {
      return out;
    }
    var path := PathOf(prefix, doc.key);
    ghost var own;
    match doc.value {
      case Nested(fields) =>
        out' := FlattenBson(path, fields, out);
        own := Leaves(path, fields);
      case Leaf(text) =>
        out' := out[path := text];
        own := [(path, text)];
        assert own[..0] == [];
    }
    AssignConcat(out, own, Leaves(prefix, doc.rest));
    out' := FlattenBson(prefix, doc.rest, out');
  }

  function Flatten(doc: Fields): map<string, string> {
    Assign(map[], Leaves("", doc))
  }

  /** A path is in the flattened document exactly when some leaf has it, and its text is
      that of the last such leaf. */
  lemma {:induction false} FlatIsLastLeaf(out: map<string, string>, leaves: seq<(string, string)>, path: string)
    ensures var flat := Assign(out, leaves);
            && (path in flat <==> path in out || exists i :: 0 <= i < |leaves| && leaves[i].0 == path)
            && (forall i :: 0 <= i < |leaves| && leaves[i].0 == path
                            && (forall j :: i < j < |leaves| ==> leaves[j].0 != path) ==>
                  path in flat && flat[path] == leaves[i].1)
  {
    if leaves != [] {
      var init := leaves[..|leaves| - 1];
      FlatIsLastLeaf(out, init, path);
      assert forall i :: 0 <= i < |init| ==> init[i] == leaves[i];
    }
  }

  /** The steps lead from the document, through documents nested in it, to a scalar. */
  predicate Leads(doc: Fields, steps: seq<string>, text: string)
    decreases doc
  {
    match doc
    case End => false
    case Field(key, value, rest) =>
      || Leads(rest, steps, text)
      || (steps != [] && key == steps[0]
          && match value
             case Leaf(t) => steps == [key] && t == text
             case Nested(fields) => Leads(fields, steps[1..], text))
  }

  function Dotted(steps: seq<string>): string {
    if steps == [] then "" else if |steps| == 1 then steps[0] else steps[0] + ("." + Dotted(steps[1..]))
  }

  /** The path of some steps below a prefix: empty keys at its front leave no dot. */
  function PathBelow(prefix: string, steps: seq<string>): string {
    if steps == [] then prefix
    else if prefix != "" then prefix + ("." + Dotted(steps))
    else if steps[0] == "" then PathBelow("", steps[1..])
    else Dotted(steps)
  }

  lemma StepBelow(prefix: string, key: string, steps: seq<string>)
    ensures PathBelow(PathOf(prefix, key), steps) == PathBelow(prefix, [key] + steps)
  {
    var all := [key] + steps;
    assert all[1..] == steps;
    if steps == [] {
      Assoc(prefix, ".", key);
    } else if prefix != "" {
      Assoc(prefix, ".", key);
      Assoc(prefix, "." + key, "." + Dotted(steps));
      Assoc(".", key, "." + Dotted(steps));
    }
  }

  /** Every leaf listed is reached by steps that make up its path. */
  lemma {:induction false} ListedIsReached(prefix: string, doc: Fields, leaf: (string, string))
    returns (steps: seq<string>)
    requires leaf in Leaves(prefix, doc)
    ensures Leads(doc, steps, leaf.1) && leaf.0 == PathBelow(prefix, steps)
    decreases doc
  {
    if leaf in Leaves(prefix, doc.rest) {
      steps := ListedIsReached(prefix, doc.rest, leaf);
    } else {
      match doc.value {
        case Leaf(text) =>
          steps := [doc.key];
          StepBelow(prefix, doc.key, []);
          assert [doc.key] + [] == steps;
        case Nested(fields) =>
          var below := ListedIsReached(PathOf(prefix, doc.key), fields, leaf);
          steps := [doc.key] + below;
          StepBelow(prefix, doc.key, below);
          assert steps[1..] == below;
      }
    }
  }

  /** Every scalar of the document, however deep, is listed under its path. */
  lemma {:induction false} ReachedIsListed(prefix: string, doc: Fields, steps: seq<string>, text: string)
    requires Leads(doc, steps, text)
    ensures (PathBelow(prefix, steps), text) in Leaves(prefix, doc)
    decreases doc
  {
    if Leads(doc.rest, steps, text) {
      ReachedIsListed(prefix, doc.rest, steps, text);
    } else {
      assert steps == [doc.key] + steps[1..];
      StepBelow(prefix, doc.key, steps[1..]);
      if doc.value.Nested? {
        ReachedIsListed(PathOf(prefix, doc.key), doc.value.fields, steps[1..], text);
      }
    }
  }

  ghost predicate HasScalarAt(doc: Fields, path: string) {
    exists steps, text :: Leads(doc, steps, text) && PathBelow("", steps) == path
  }

  lemma ListedInFlat(leaves: seq<(string, string)>, leaf: (string, string))
    requires leaf in leaves
    ensures leaf.0 in Assign(map[], leaves)
  {
    FlatIsLastLeaf(map[], leaves, leaf.0);
    var i :| 0 <= i < |leaves| && leaves[i] == leaf;
  }

  lemma FlatIsListed(leaves: seq<(string, string)>, path: string) returns (leaf: (string, string))
    requires path in Assign(map[], leaves)
    ensures leaf in leaves && leaf.0 == path
  {
    FlatIsLastLeaf(map[], leaves, path);
    var i :| 0 <= i < |leaves| && leaves[i].0 == path;
    leaf := leaves[i];
  }

  /** The paths of a flattened document are the dotted paths of its scalars. */
  lemma FlattenedIffReached(doc: Fields, path: string)
    ensures path in Flatten(doc) <==> HasScalarAt(doc, path)
  {
    if path in Flatten(doc) {
      var leaf := FlatIsListed(Leaves("", doc), path);
      var steps := ListedIsReached("", doc, leaf);
    }
    if HasScalarAt(doc, path) {
      var steps, text :| Leads(doc, steps, text) && PathBelow("", steps) == path;
      ReachedIsListed("", doc, steps, text);
      ListedInFlat(Leaves("", doc), (path, text));
    }
  }

  /** Two scalars may share a path; the one further on in the document is kept. */
  lemma FlattenExample()
    ensures var inner := Field("b", Leaf("2"), Field("", Leaf("3"), End));
            var doc := Field("a.b", Leaf("1"), Field("a", Nested(inner), Field("c", Nested(End), End)));
            Flatten(doc) == map["a.b" := "2", "a." := "3"]
  {
    var inner := Field("b", Leaf("2"), Field("", Leaf("3"), End));
    var doc := Field("a.b", Leaf("1"), Field("a", Nested(inner), Field("c", Nested(End), End)));
    assert PathOf("a", "b") == "a.b" && PathOf("a", "") == "a.";
    assert Leaves("a", inner) == [("a.b", "2"), ("a.", "3")];
    assert Leaves("", doc.rest) == [("a.b", "2"), ("a.", "3")];
    var leaves := [("a.b", "1"), ("a.b", "2"), ("a.", "3")];
    assert Leaves("", doc) == leaves;
    assert leaves[..2][..1] == [("a.b", "1")] && leaves[..1][..0] == [];
    assert Assign(map[], leaves[..1]) == map["a.b" := "1"];
    assert Assign(map[], leaves[..2]) == map["a.b" := "2"];
  }

  // ----- The dump of a collection -----

  function CellOf(flat: map<string, string>, path: string): string {
    if path in flat then flat[path] else ""
  }

  function RowOf(flat: map<string, string>, header: Record): Record {
    seq(|header|, i requires 0 <= i < |header| => CellOf(flat, header[i]))
  }

  /** The byte order of strings. */
  ghost predicate TotalOrder(leq: (string, string) -> bool) {
    && (forall a, b :: leq(a, b) || leq(b, a))
    && (forall a, b :: leq(a, b) && leq(b, a) ==> a == b)
    && (forall a, b, c :: leq(a, b) && leq(b, c) ==> leq(a, c))
  }

  ghost predicate Sorted(leq: (string, string) -> bool, s: Record) {
    forall i, j :: 0 <= i < j < |s| ==> leq(s[i], s[j])
  }

  ghost predicate Distinct(s: Record) {
    forall i, j :: 0 <= i < j < |s| ==> s[i] != s[j]
  }

  /** Each path of the documents, once. */
  ghost predicate Lists(header: Record, flats: seq<map<string, string>>) {
    Distinct(header) && forall path :: path in header <==> exists i :: 0 <= i < |flats| && path in flats[i]
  }

  /** The sorted union of the documents' paths. */
  ghost predicate IsHeader(leq: (string, string) -> bool, header: Record, flats: seq<map<string, string>>) {
    Sorted(leq, header) && Lists(header, flats)
  }

  /** The library's sort, on strings that are all different. */
  method SortStrings(leq: (string, string) -> bool, s: Record) returns (t: Record)
    requires TotalOrder(leq) && Distinct(s)
    ensures Sorted(leq, t) && Distinct(t) && forall y :: y in t <==> y in s
  {
    t := [];
    for i := 0 to |s|
      invariant Sorted(leq, t) && Distinct(t) && forall y :: y in t <==> y in s[..i]
    {
      assert s[i] !in s[..i];
      assert s[..i + 1] == s[..i] + [s[i]];
      t := InsertSorted(leq, t, s[i]);
    }
    assert s[..|s|] == s;
  }

  method InsertSorted(leq: (string, string) -> bool, s: Record, x: string) returns (t: Record)
    requires TotalOrder(leq) && Sorted(leq, s) && Distinct(s) && x !in s
    ensures Sorted(leq, t) && Distinct(t) && forall y :: y in t <==> y in s || y == x
  {
    var i := 0;
    while i < |s| && leq(s[i], x)
      invariant 0 <= i <= |s| && forall j :: 0 <= j < i ==> leq(s[j], x)
    {
      i := i + 1;
    }
    assert i < |s| ==> leq(x, s[i]);
    Inserted(leq, s, x, i);
    t := s[..i] + [x] + s[i..];
  }

  lemma Inserted(leq: (string, string) -> bool, s: Record, x: string, i: nat)
    requires TotalOrder(leq) && Sorted(leq, s) && Distinct(s) && x !in s && i <= |s|
    requires (forall j :: 0 <= j < i ==> leq(s[j], x)) && (i < |s| ==> leq(x, s[i]))
    ensures var t := s[..i] + [x] + s[i..]; Sorted(leq, t) && Distinct(t) && forall y :: y in t <==> y in s || y == x
  {
    var t := s[..i] + [x] + s[i..];
    forall j | i <= j < |s| ensures leq(x, s[j]) {
      assert i < j ==> leq(s[i], s[j]);
    }
    assert forall j :: 0 <= j < |t| ==> t[j] == if j < i then s[j] else if j == i then x else s[j - 1];
    assert s == s[..i] + s[i..];
  }

  /** Collects the paths of all documents, each once, and sorts them. */
  method HeaderUnion(leq: (string, string) -> bool, flats: seq<map<string, string>>) returns (header: Record)
    requires TotalOrder(leq)
    ensures IsHeader(leq, header, flats)
  {
    var seen: Record := [];
    for i := 0 to |flats|
      invariant Lists(seen, flats[..i])
    {
      seen := AddPaths(seen, flats[..i], flats[i]);
      assert flats[..i + 1] == flats[..i] + [flats[i]];
    }
    assert flats[..|flats|] == flats;
    header := SortStrings(leq, seen);
  }

  /** A document's paths, in any order; those not seen before are appended. */
  method AddPaths(seen: Record, ghost flats: seq<map<string, string>>, flat: map<string, string>)
                  returns (grown: Record)
    requires Lists(seen, flats)
    ensures Lists(grown, flats + [flat])
  {
    grown := seen;
    var keys := flat.Keys;
    while keys != {}
      invariant keys <= flat.Keys && Distinct(grown)
      invariant forall path :: path in grown <==> path in seen || (path in flat && path !in keys)
    {
      var key :| key in keys;
      keys := keys - {key};
      if key !in grown {
        grown := grown + [key];
      }
    }
    ListGrows(seen, grown, flats, flat);
  }

  lemma ListGrows(header: Record, grown: Record, flats: seq<map<string, string>>, flat: map<string, string>)
    requires Lists(header, flats) && Distinct(grown)
    requires forall path :: path in grown <==> path in header || path in flat
    ensures Lists(grown, flats + [flat])
  {
    var all := flats + [flat];
    forall path ensures path in grown <==> exists i :: 0 <= i < |all| && path in all[i] {
      if path in header {
        var i :| 0 <= i < |flats| && path in flats[i];
        assert path in all[i];
      }
      if path in flat {
        assert path in all[|flats|];
      }
      if i :| 0 <= i < |all| && path in all[i] {
        assert i < |flats| ==> path in flats[i];
      }
    }
  }

  lemma SomeMember(s: Record) returns (x: string)
    requires s != []
    ensures x in s
  {
    x := s[0];
  }

  /** The union has only one sorted listing. */
  lemma {:induction false} HeaderIsUnique(leq: (string, string) -> bool, a: Record, b: Record)
    requires TotalOrder(leq) && Sorted(leq, a) && Sorted(leq, b) && Distinct(a) && Distinct(b)
    requires forall path :: path in a <==> path in b
    ensures a == b
    decreases |a|
  {
    if a == [] {
      if b != [] {
        var path := SomeMember(b);
        assert false;
      }
    } else if b == [] {
      var path := SomeMember(a);
      assert false;
    } else {
      var x, y := a[|a| - 1], b[|b| - 1];
      assert x in b && y in a;
      assert leq(x, y) && leq(y, x);
      var a', b' := a[..|a| - 1], b[..|b| - 1];
      assert a == a' + [x] && b == b' + [y];
      forall path ensures path in a' <==> path in b' {
        assert x !in a' && y !in b';
        assert path in a <==> path in a' || path == x;
        assert path in b <==> path in b' || path == x;
      }
      HeaderIsUnique(leq, a', b');
    }
  }

  datatype Dump = Dump(name: string, header: Record, rows: seq<Record>)

  /** The records of one collection. */
  function DumpRecords(d: Dump): seq<Record> {
    [[MARKER, d.name], d.header] + d.rows
  }

  function Records(ds: seq<Dump>): seq<Record> {
    if ds == [] then [] else Records(ds[..|ds| - 1]) + DumpRecords(ds[|ds| - 1])
  }

  /** A collection flattened: its header is the sorted union, its rows are the documents
      padded over it. */
  ghost predicate IsDump(leq: (string, string) -> bool, c: Collection<Fields>, d: Dump) {
    && d.name == c.name && |d.rows| == |c.docs|
    && IsHeader(leq, d.header, FlatDocs(c.docs))
    && forall i :: 0 <= i < |d.rows| ==> d.rows[i] == RowOf(Flatten(c.docs[i]), d.header)
  }

  function FlatDocs(docs: seq<Fields>): seq<map<string, string>> {
    seq(|docs|, i requires 0 <= i < |docs| => Flatten(docs[i]))
  }

  method DumpCollection(leq: (string, string) -> bool, c: Collection<Fields>) returns (d: Dump)
    requires TotalOrder(leq)
    ensures IsDump(leq, c, d)
  {
    var flats: seq<map<string, string>> := [];
    for i := 0 to |c.docs|
      invariant flats == FlatDocs(c.docs)[..i]
    {
      var flat := FlattenBson("", c.docs[i], map[]);
      flats := flats + [flat];
    }
    assert flats == FlatDocs(c.docs);
    var header := HeaderUnion(leq, flats);
    var rows: seq<Record> := [];
    for i := 0 to |flats|
      invariant |rows| == i && forall j :: 0 <= j < i ==> rows[j] == RowOf(flats[j], header)
    {
      rows := rows + [RowOf(flats[i], header)];
    }
    d := Dump(c.name, header, rows);
  }

  ghost predicate AreDumps(leq: (string, string) -> bool, db: seq<Collection<Fields>>, ds: seq<Dump>) {
    |ds| == |db| && forall k :: 0 <= k < |db| ==> IsDump(leq, db[k], ds[k])
  }

  method BackupMongoCsv(leq: (string, string) -> bool, db: seq<Collection<Fields>>) returns (file: string)
    requires TotalOrder(leq)
    ensures exists ds :: AreDumps(leq, db, ds) && file == FileText(Records(ds))
  {
    var records: seq<Record> := [];
    ghost var ds: seq<Dump> := [];
    for k := 0 to |db|
      invariant |ds| == k && (forall j :: 0 <= j < k ==> IsDump(leq, db[j], ds[j])) && records == Records(ds)
    {
      var d := DumpCollection(leq, db[k]);
      assert (ds + [d])[..k] == ds;
      records := records + DumpRecords(d);
      ds := ds + [d];
    }
    assert AreDumps(leq, db, ds);
    return FileText(records);
  }

  /** Whatever the order in which paths were met, a collection has one dump. */
  lemma DumpIsUnique(leq: (string, string) -> bool, c: Collection<Fields>, d: Dump, e: Dump)
    requires TotalOrder(leq) && IsDump(leq, c, d) && IsDump(leq, c, e)
    ensures d == e
  {
    HeaderIsUnique(leq, d.header, e.header);
    assert forall i :: 0 <= i < |d.rows| ==> d.rows[i] == RowOf(Flatten(c.docs[i]), d.header) && e.rows[i] == d.rows[i];
  }

  // ----- Replaying -----

  datatype CsvValue = Text(s: string) | ObjectId(hex: string)
  type CsvDoc = seq<(string, CsvValue)>

  predicate IsHexId(s: string) {
    |s| == 24 && forall i :: 0 <= i < |s| ==> '0' <= s[i] <= '9' || 'a' <= s[i] <= 'f' || 'A' <= s[i] <= 'F'
  }

  function Revive(path: string, cell: string): CsvValue {
    if path == "_id" && IsHexId(cell) then ObjectId(cell) else Text(cell)
  }

  /** A row under a header; missing cells are empty, surplus cells ignored. */
  function DocOf(header: Record, row: Record): CsvDoc {
    seq(|header|, i requires 0 <= i < |header| => (header[i], Revive(header[i], if i < |row| then row[i] else "")))
  }

  predicate IsMarker(r: Record) {
    |r| == 2 && r[0] == MARKER
  }

  datatype CsvReading = CsvReading(coll: string, header: Option<Record>, all: seq<(string, CsvDoc)>)

  const START := CsvReading("", None, [])

  function ReadRecord(s: CsvReading, r: Record): CsvReading {
    if IsMarker(r) then s.(coll := r[1], header := None)
    else if s.coll == "" then s
    else if s.header.None? then s.(header := Some(r))
    else s.(all := s.all + [(s.coll, DocOf(s.header.value, r))])
  }

  function ReadRecords(s: CsvReading, rs: seq<Record>): CsvReading {
    if rs == [] then s else ReadRecord(ReadRecords(s, rs[..|rs| - 1]), rs[|rs| - 1])
  }

  method BuildDoc(header: Record, row: Record) returns (doc: CsvDoc)
    ensures doc == DocOf(header, row)
  {
    doc := [];
    for i := 0 to |header|
      invariant doc == DocOf(header, row)[..i]
    {
      var v := Text("");
      if i < |row| {
        v := Text(row[i]);
      }
      if header[i] == "_id" && IsHexId(v.s) {
        v := ObjectId(v.s);
      }
      doc := doc + [(header[i], v)];
    }
    assert DocOf(header, row)[..|header|] == DocOf(header, row);
  }

  /** Replays a file in batches of 1 to 500 documents: it sends exactly the documents met, in
      order, unless the database refuses an insert, and then those that came first. */
  method RestoreMongoCsv(file: string, db: Target<CsvDoc>) returns (ok: bool)
    requires db.calls == []
    modifies db
    ensures SentFirst(db.calls, ReadRecords(START, ParseFile(file)).all)
    ensures if ok then Flat(db.calls) == ReadRecords(START, ParseFile(file)).all else db.Refused()
  {
    var records := ParseFile(file);
    ghost var s := START;
    var coll: string, header: Option<Record>, batch: seq<CsvDoc> := "", None, [];
    for i := 0 to |records|
      invariant ReadUpTo(START, records, i, s) && s.coll == coll && s.header == header
      invariant UpTo(db.calls, coll, batch, s.all)
    {
      ReadOneMore(START, records, i, s);
      ok, coll, header, batch := NextRecord(db, records[i], coll, header, batch, s);
      s := ReadRecord(s, records[i]);
      if !ok {
        MetGrows(START, records, i + 1);
        return;
      }
    }
    ReadAll(START, records, s);
    ok := db.Flush(coll, batch, s.all);
  }

  /** After i records the reading has come to s. */
  ghost predicate ReadUpTo(start: CsvReading, records: seq<Record>, i: nat, s: CsvReading) {
    i <= |records| && s == ReadRecords(start, records[..i])
  }

  lemma ReadOneMore(start: CsvReading, records: seq<Record>, i: nat, s: CsvReading)
    requires i < |records| && ReadUpTo(start, records, i, s)
    ensures ReadUpTo(start, records, i + 1, ReadRecord(s, records[i]))
  {
    assert records[..i + 1][..i] == records[..i];
  }

  lemma ReadAll(start: CsvReading, records: seq<Record>, s: CsvReading)
    requires ReadUpTo(start, records, |records|, s)
    ensures s == ReadRecords(start, records)
  {
    assert records[..|records|] == records;
  }

  lemma {:induction false} MetGrows(s: CsvReading, rs: seq<Record>, i: nat)
    requires i <= |rs|
    ensures ReadRecords(s, rs[..i]).all <= ReadRecords(s, rs).all
    decreases |rs|
  {
    if i == |rs| {
      assert rs[..i] == rs;
    } else {
      assert rs[..|rs| - 1][..i] == rs[..i];
      MetGrows(s, rs[..|rs| - 1], i);
    }
  }

  method NextRecord(db: Target<CsvDoc>, row: Record, coll: string, header: Option<Record>, batch: seq<CsvDoc>,
                    ghost s: CsvReading)
    returns (ok: bool, coll': string, header': Option<Record>, batch': seq<CsvDoc>)
    requires s.coll == coll && s.header == header && UpTo(db.calls, coll, batch, s.all)
    modifies db
    ensures ok ==> coll' == ReadRecord(s, row).coll && header' == ReadRecord(s, row).header
    ensures ok ==> UpTo(db.calls, coll', batch', ReadRecord(s, row).all)
    ensures !ok ==> db.Refused() && SentFirst(db.calls, ReadRecord(s, row).all)
  {
    ok, coll', header', batch' := true, coll, header, batch;
    if |row| == 2 && row[0] == MARKER {
      ok := db.Flush(coll, batch, s.all);
      if ok {
        EmptyBatch(db.calls, row[1], s.all);
      }
      return ok, row[1], None, [];
    }
    if coll == "" {
      return;
    }
    if header.None? {
      return true, coll, Some(row), batch;
    }
    var doc := BuildDoc(header.value, row);
    ok, batch' := db.Take(coll, batch, doc, s.all);
  }

  // ----- What a CSV dump replays to -----

  /** The documents of a dump as they are delivered: each row under the header. */
  function DocsOf(d: Dump): seq<CsvDoc> {
    seq(|d.rows|, i requires 0 <= i < |d.rows| => DocOf(UnixRecord(d.header), UnixRecord(d.rows[i])))
  }

  function EverythingOf(ds: seq<Dump>): seq<(string, CsvDoc)> {
    if ds == [] then [] else EverythingOf(ds[..|ds| - 1]) + Tag(Unix(ds[|ds| - 1].name), DocsOf(ds[|ds| - 1]))
  }

  /** The same as they were written. */
  function WrittenDocs(d: Dump): seq<CsvDoc> {
    seq(|d.rows|, i requires 0 <= i < |d.rows| => DocOf(d.header, d.rows[i]))
  }

  function EverythingWritten(ds: seq<Dump>): seq<(string, CsvDoc)> {
    if ds == [] then [] else EverythingWritten(ds[..|ds| - 1]) + Tag(ds[|ds| - 1].name, WrittenDocs(ds[|ds| - 1]))
  }

  /** A record that is neither skipped nor taken for a marker. */
  predicate Good(r: Record) {
    !Blank(r) && !(|r| == 2 && Unix(r[0]) == "$vg_collection")
  }

  /** A collection without documents has nothing to lose; otherwise its header and all its
      rows must be good records. */
  predicate Clean(d: Dump) {
    d.rows == [] || (Good(d.header) && forall i :: 0 <= i < |d.rows| ==> Good(d.rows[i]))
  }

  /** Reading written records: blank ones are passed over, the others arrive normalized. */
  function ReadWritten(s: CsvReading, rs: seq<Record>): CsvReading {
    if rs == [] then s
    else
      var before := ReadWritten(s, rs[..|rs| - 1]);
      if Blank(rs[|rs| - 1]) then before else ReadRecord(before, UnixRecord(rs[|rs| - 1]))
  }

  lemma {:induction false} ReadDelivered(s: CsvReading, rs: seq<Record>)
    ensures ReadRecords(s, Delivered(rs)) == ReadWritten(s, rs)
  {
    if rs != [] {
      ReadDelivered(s, rs[..|rs| - 1]);
      if !Blank(rs[|rs| - 1]) {
        var before := Delivered(rs[..|rs| - 1]);
        assert (before + [UnixRecord(rs[|rs| - 1])])[..|before|] == before;
      }
    }
  }

  lemma {:induction false} ReadWrittenConcat(s: CsvReading, a: seq<Record>, b: seq<Record>)
    ensures ReadWritten(s, a + b) == ReadWritten(ReadWritten(s, a), b)
    decreases |b|
  {
    if b == [] {
      assert a + b == a;
    } else {
      ReadWrittenConcat(s, a, b[..|b| - 1]);
      assert (a + b)[..|a + b| - 1] == a + b[..|b| - 1];
    }
  }

  function Bad(rs: seq<Record>): nat {
    if rs == [] then 0 else Bad(rs[..|rs| - 1]) + if Good(rs[|rs| - 1]) then 0 else 1
  }

  lemma {:induction false} NoneBad(rs: seq<Record>)
    ensures Bad(rs) == 0 <==> forall i :: 0 <= i < |rs| ==> Good(rs[i])
  {
    if rs != [] {
      NoneBad(rs[..|rs| - 1]);
      assert forall i :: 0 <= i < |rs| - 1 ==> rs[i] == rs[..|rs| - 1][i];
    }
  }

  /** Records that yield no document, right after a marker: one is the header, and every bad
      record costs at least itself. */
  lemma {:induction false} RecordsLost(s: CsvReading, rs: seq<Record>)
    requires s.header.None?
    ensures var s' := ReadWritten(s, rs);
            var lost := |s.all| + |rs| - |s'.all|;
            if s'.header.Some? then lost >= 1 + Bad(rs) else lost >= Bad(rs) && lost >= if |rs| < 2 then |rs| else 2
  {
    if rs != [] {
      RecordsLost(s, rs[..|rs| - 1]);
    }
  }

  /** Under a header good rows become documents, one each. */
  lemma {:induction false} GoodRowsRead(s: CsvReading, rows: seq<Record>)
    requires s.coll != "" && s.header.Some? && forall i :: 0 <= i < |rows| ==> Good(rows[i])
    ensures ReadWritten(s, rows)
            == s.(all := s.all + Tag(s.coll,
                seq(|rows|, i requires 0 <= i < |rows| => DocOf(s.header.value, UnixRecord(rows[i])))))
    decreases |rows|
  {
    var docs := seq(|rows|, i requires 0 <= i < |rows| => DocOf(s.header.value, UnixRecord(rows[i])));
    if rows == [] {
      assert s.all + Tag(s.coll, docs) == s.all;
    } else {
      var init, last := rows[..|rows| - 1], rows[|rows| - 1];
      GoodRowsRead(s, init);
      var initDocs := seq(|init|, i requires 0 <= i < |init| => DocOf(s.header.value, UnixRecord(init[i])));
      assert docs == initDocs + [DocOf(s.header.value, UnixRecord(last))];
      TagSnoc(s.all, s.coll, initDocs, DocOf(s.header.value, UnixRecord(last)));
    }
  }

  lemma ReadOne(s: CsvReading, r: Record)
    requires !Blank(r)
    ensures ReadWritten(s, [r]) == ReadRecord(s, UnixRecord(r))
  {
    assert [r][..0] == [];
  }

  lemma PairIsUnix(a: string, b: string)
    requires '\r' !in a
    ensures UnixRecord([a, b]) == [a, Unix(b)]
  {
    UnixKeepsIff(a);
    var r := UnixRecord([a, b]);
    assert r[0] == a && r[1] == Unix(b);
  }

  lemma {:induction false} UnixNotEmpty(s: string)
    requires s != ""
    ensures Unix(s) != ""
  {
    if |s| > 1 {
      UnixNotEmpty(s[1..]);
    }
  }

  lemma MarkerRead(s: CsvReading, name: string)
    ensures ReadWritten(s, [[MARKER, name]]) == s.(coll := Unix(name), header := None)
  {
    ReadOne(s, [MARKER, name]);
    MarkerIsPlain();
    PairIsUnix(MARKER, name);
  }

  lemma MarkerIsPlain()
    ensures '\r' !in MARKER
  {
    var a, b := "$vg_col", "lection";
    assert '\r' !in a && '\r' !in b;
    assert MARKER == a + b;
  }

  lemma TableIsGood(d: Dump)
    ensures Bad([d.header] + d.rows) == 0 <==> Good(d.header) && forall i :: 0 <= i < |d.rows| ==> Good(d.rows[i])
  {
    var table := [d.header] + d.rows;
    NoneBad(table);
    if Good(d.header) && forall i :: 0 <= i < |d.rows| ==> Good(d.rows[i]) {
      assert forall i :: 0 < i < |table| ==> table[i] == d.rows[i - 1];
    } else if Good(d.header) {
      var i :| 0 <= i < |d.rows| && !Good(d.rows[i]);
      assert table[i + 1] == d.rows[i];
    } else {
      assert table[0] == d.header;
    }
  }

  lemma CleanTableRead(s: CsvReading, d: Dump)
    requires s.coll != "" && s.header.None? && Clean(d)
    ensures ReadWritten(s, [d.header] + d.rows).all == s.all + Tag(s.coll, DocsOf(d))
  {
    if d.rows == [] {
      assert [d.header] + d.rows == [d.header] && [d.header][..0] == [];
      assert s.all + Tag(s.coll, DocsOf(d)) == s.all;
    } else {
      ReadWrittenConcat(s, [d.header], d.rows);
      ReadOne(s, d.header);
      GoodRowsRead(s.(header := Some(UnixRecord(d.header))), d.rows);
    }
  }

  lemma TableRead(s: CsvReading, d: Dump)
    requires s.coll != "" && s.header.None?
    ensures var s' := ReadWritten(s, [d.header] + d.rows);
            && |s'.all| <= |s.all| + |d.rows|
            && (if Clean(d) then s'.all == s.all + Tag(s.coll, DocsOf(d)) else |s'.all| < |s.all| + |d.rows|)
  {
    RecordsLost(s, [d.header] + d.rows);
    TableIsGood(d);
    if Clean(d) {
      CleanTableRead(s, d);
    }
  }

  lemma DumpRead(s: CsvReading, d: Dump)
    requires d.name != ""
    ensures var s' := ReadWritten(s, DumpRecords(d));
            && |s'.all| <= |s.all| + |d.rows|
            && (if Clean(d) then s'.all == s.all + Tag(Unix(d.name), DocsOf(d)) else |s'.all| < |s.all| + |d.rows|)
  {
    SplitDump(d);
    ReadWrittenConcat(s, [[MARKER, d.name]], [d.header] + d.rows);
    MarkerRead(s, d.name);
    UnixNotEmpty(d.name);
    TableRead(s.(coll := Unix(d.name), header := None), d);
  }

  lemma SplitDump(d: Dump)
    ensures DumpRecords(d) == [[MARKER, d.name]] + ([d.header] + d.rows)
  {
  }

  lemma {:induction false} DumpsRead(ds: seq<Dump>)
    requires AllNamed(ds)
    ensures var s := ReadWritten(START, Records(ds));
            && |s.all| <= |EverythingOf(ds)|
            && if AllClean(ds) then s.all == EverythingOf(ds) else |s.all| < |EverythingOf(ds)|
    decreases |ds|
  {
    if ds != [] {
      var init, last := ds[..|ds| - 1], ds[|ds| - 1];
      DumpsRead(init);
      ReadWrittenConcat(START, Records(init), DumpRecords(last));
      DumpRead(ReadWritten(START, Records(init)), last);
      CleanSnoc(ds);
    }
  }

  predicate AllNamed(ds: seq<Dump>) {
    forall k :: 0 <= k < |ds| ==> ds[k].name != ""
  }

  predicate AllClean(ds: seq<Dump>) {
    forall k :: 0 <= k < |ds| ==> Clean(ds[k])
  }

  lemma CleanSnoc(ds: seq<Dump>)
    requires ds != []
    ensures AllClean(ds) <==> AllClean(ds[..|ds| - 1]) && Clean(ds[|ds| - 1])
  {
    assert forall k :: 0 <= k < |ds| - 1 ==> ds[k] == ds[..|ds| - 1][k];
  }

  function CsvReplayed(ds: seq<Dump>): seq<(string, CsvDoc)> {
    ReadRecords(START, ParseFile(FileText(Records(ds)))).all
  }

  /** Replaying a CSV dump sends each collection its rows under its header, in order and with
      line feeds for line ends, if and only if in every collection with documents no header
      or row is written as an empty line or looks like a marker. Otherwise documents are lost. */
  lemma CsvReplaysDeliveredIff(ds: seq<Dump>)
    requires AllNamed(ds)
    ensures CsvReplayed(ds) == EverythingOf(ds) <==> AllClean(ds)
    ensures AllClean(ds) || |CsvReplayed(ds)| < |EverythingOf(ds)|
  {
    FileIsDelivered(Records(ds));
    ReadDelivered(START, Records(ds));
    DumpsRead(ds);
  }

  // ----- Line ends -----

  /** Every row is as wide as the header. */
  predicate Rectangular(d: Dump) {
    forall i :: 0 <= i < |d.rows| ==> |d.rows[i]| == |d.header|
  }

  /** Nothing that is sent holds a CR-LF. */
  predicate NoCrLf(d: Dump) {
    d.rows == []
    || (!HasCrLf(d.name) && !RecordHasCrLf(d.header) && forall i :: 0 <= i < |d.rows| ==> !RecordHasCrLf(d.rows[i]))
  }

  lemma SameCellIff(path: string, cell: string)
    ensures (Unix(path), Revive(Unix(path), Unix(cell))) == (path, Revive(path, cell))
            <==> !HasCrLf(path) && !HasCrLf(cell)
  {
    UnixKeepsIff(path);
    UnixKeepsIff(cell);
  }

  lemma SameDocIff(header: Record, row: Record)
    requires |row| == |header|
    ensures DocOf(UnixRecord(header), UnixRecord(row)) == DocOf(header, row)
            <==> !RecordHasCrLf(header) && !RecordHasCrLf(row)
  {
    var a, b := DocOf(UnixRecord(header), UnixRecord(row)), DocOf(header, row);
    forall j | 0 <= j < |header| ensures a[j] == b[j] <==> !HasCrLf(header[j]) && !HasCrLf(row[j]) {
      SameCellIff(header[j], row[j]);
    }
  }

  lemma SameDumpIff(d: Dump)
    requires Rectangular(d)
    ensures Tag(Unix(d.name), DocsOf(d)) == Tag(d.name, WrittenDocs(d)) <==> NoCrLf(d)
  {
    var a, b := Tag(Unix(d.name), DocsOf(d)), Tag(d.name, WrittenDocs(d));
    UnixKeepsIff(d.name);
    forall i | 0 <= i < |d.rows|
      ensures a[i] == b[i] <==> !HasCrLf(d.name) && !RecordHasCrLf(d.header) && !RecordHasCrLf(d.rows[i])
    {
      SameDocIff(d.header, d.rows[i]);
    }
    if d.rows != [] && a == b {
      assert a[0] == b[0];
      assert forall i :: 0 <= i < |d.rows| ==> a[i] == b[i];
    }
    if NoCrLf(d) {
      assert forall i :: 0 <= i < |d.rows| ==> a[i] == b[i];
    }
  }

  ghost predicate AllRectangular(ds: seq<Dump>) {
    forall k :: 0 <= k < |ds| ==> Rectangular(ds[k])
  }

  ghost predicate AllNoCrLf(ds: seq<Dump>) {
    forall k :: 0 <= k < |ds| ==> NoCrLf(ds[k])
  }

  lemma NoCrLfSnoc(ds: seq<Dump>)
    requires ds != []
    ensures AllNoCrLf(ds) <==> AllNoCrLf(ds[..|ds| - 1]) && NoCrLf(ds[|ds| - 1])
  {
    assert forall k :: 0 <= k < |ds| - 1 ==> ds[k] == ds[..|ds| - 1][k];
  }

  lemma {:induction false} WrittenAsDeliveredIff(ds: seq<Dump>)
    requires AllRectangular(ds)
    ensures |EverythingOf(ds)| == |EverythingWritten(ds)|
    ensures EverythingOf(ds) == EverythingWritten(ds) <==> AllNoCrLf(ds)
  {
    if ds != [] {
      var init, last := ds[..|ds| - 1], ds[|ds| - 1];
      WrittenAsDeliveredIff(init);
      SameDumpIff(last);
      SameEnds(EverythingOf(init), EverythingWritten(init), Tag(Unix(last.name), DocsOf(last)),
          Tag(last.name, WrittenDocs(last)));
      NoCrLfSnoc(ds);
    }
  }

  /** It sends exactly the rows as they were written if and only if, besides, in every
      collection with documents no name, path or cell holds a CR-LF. */
  lemma CsvReplaysExactlyIff(ds: seq<Dump>)
    requires AllNamed(ds) && AllRectangular(ds)
    ensures CsvReplayed(ds) == EverythingWritten(ds) <==> AllClean(ds) && AllNoCrLf(ds)
  {
    CsvReplaysDeliveredIff(ds);
    WrittenAsDeliveredIff(ds);
  }

  lemma OneCellDoc(path: string, cell: string)
    requires !HasCrLf(path)
    ensures DocOf(UnixRecord([path]), UnixRecord([cell])) == [(path, Revive(path, Unix(cell)))]
  {
    UnixKeepsIff(path);
    assert UnixRecord([path]) == [path] && UnixRecord([cell]) == [Unix(cell)];
  }

  lemma OneDocument(d: Dump, doc: CsvDoc)
    requires |d.rows| == 1 && !HasCrLf(d.name) && DocOf(UnixRecord(d.header), UnixRecord(d.rows[0])) == doc
    ensures EverythingOf([d]) == [(d.name, doc)]
  {
    UnixKeepsIff(d.name);
    assert [d][..0] == [];
    assert DocsOf(d) == [doc];
    assert Tag(d.name, [doc]) == [(d.name, doc)];
    assert EverythingOf([d]) == [] + Tag(d.name, DocsOf(d));
  }

  /** A dump of one document with one path: its text comes back with line feeds. */
  lemma OneCellReplays(name: string, path: string, cell: string)
    requires name != "" && !HasCrLf(name) && path != "" && !HasCrLf(path) && cell != ""
    ensures CsvReplayed([Dump(name, [path], [[cell]])]) == [(name, [(path, Revive(path, Unix(cell)))])]
  {
    var d := Dump(name, [path], [[cell]]);
    OneCellDoc(path, cell);
    OneDocument(d, [(path, Revive(path, Unix(cell)))]);
    assert Good([path]) && Good([cell]) && Clean(d);
    CsvReplaysDeliveredIff([d]);
  }

  lemma CrLfExample()
    ensures HasCrLf("a\r\nb") && Unix("a\r\nb") == "a\nb"
  {
    var cell := "a\r\nb";
    assert cell[1] == '\r' && cell[2] == '\n';
    assert cell[1..] == "\r\nb" && "\r\nb"[1..] == "\nb" && "\nb"[1..] == "b" && "b"[1..] == "";
    assert Unix("b") == "b" && Unix("\nb") == "\nb" && Unix("\r\nb") == "\nb";
  }

  /** Field by field, what a document of a dump is restored to: its flattened text under
      each path of the union, or nothing, and an identifier in place of a hexadecimal _id. */
  lemma RestoredFields(leq: (string, string) -> bool, c: Collection<Fields>, d: Dump, i: nat)
    requires IsDump(leq, c, d) && i < |c.docs|
    ensures |DocsOf(d)| == |c.docs| && |DocsOf(d)[i]| == |d.header|
    ensures forall j :: 0 <= j < |d.header| ==>
              var path, flat := d.header[j], Flatten(c.docs[i]);
              var text := if path in flat then flat[path] else "";
              DocsOf(d)[i][j] == (Unix(path), if Unix(path) == "_id" && IsHexId(Unix(text)) then ObjectId(Unix(text))
                  else Text(Unix(text)))
  {
    assert d.rows[i] == RowOf(Flatten(c.docs[i]), d.header);
  }

  /** Records before the first marker are passed over. */
  lemma {:induction false} NothingBeforeMarker(rs: seq<Record>)
    requires forall i :: 0 <= i < |rs| ==> !(|rs[i]| == 2 && rs[i][0] == "$vg_collection")
    ensures ReadRecords(START, rs) == START
  {
    if rs != [] {
      NothingBeforeMarker(rs[..|rs| - 1]);
    }
  }

  /** Digits and letters of either case make an identifier of 24 characters, nothing else does. */
  lemma HexIdExample()
    ensures IsHexId("0123456789abcdefABCDEF07")
    ensures !IsHexId("0123456789abcdefABCDEF0") && !IsHexId("0123456789abcdefABCDEF0g")
  {
    assert "0123456789abcdefABCDEF0g"[23] == 'g';
  }

  lemma MarkerText()
    ensures RecordText([MARKER, "people"]) == "$vg_collection,people\n"
  {
    PairText(MARKER, "people");
  }

  lemma HeaderText()
    ensures RecordText(["_id", "a.b"]) == "_id,a.b\n" && RecordText(["1", ""]) == "1,\n"
  {
    PairText("_id", "a.b");
    PairText("1", "");
  }

  /** A dump's text: the marker, the header, the rows padded with empty cells. */
  lemma DumpExample()
    ensures FileText(DumpRecords(Dump("people", ["_id", "a.b"], [["1", ""]])))
            == "$vg_collection,people\n" + "_id,a.b\n1,\n"
  {
    var d := Dump("people", ["_id", "a.b"], [["1", ""]]);
    assert DumpRecords(d) == [[MARKER, "people"], ["_id", "a.b"], ["1", ""]];
    ThreeRecords([MARKER, "people"], ["_id", "a.b"], ["1", ""]);
    MarkerText();
    HeaderText();
  }

  lemma ThreeRecords(q: Record, r: Record, s: Record)
    ensures FileText([q, r, s]) == RecordText(q) + (RecordText(r) + RecordText(s))
  {
    assert [q, r, s][1..] == [r, s] && [r, s][1..] == [s] && [s][1..] == [];
    assert FileText([s]) == RecordText(s) + "";
  }

  lemma PairText(a: string, b: string)
    requires !NeedsQuotes(a) && !NeedsQuotes(b)
    ensures RecordText([a, b]) == a + "," + b + "\n"
  {
    MoreFields(a, [b]);
    OneField(b);
    assert [a] + [b] == [a, b];
  }
}
