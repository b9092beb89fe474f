/**
 The native MongoDB archive "VGM1": magic, then counts as unsigned varints and
 length-prefixed frames. A collection is its name, its index specs and its documents.
 */
module MongoNative {
  import opened Common
  import opened MongoIndex

  const MAGIC: seq<byte> := [86, 71, 77, 49]
  const MAX_FRAME: nat := 268435456
  const MAX_UINT64: nat := 0x1_0000_0000_0000_0000
  const BATCH: nat := 500

  // ----- Unsigned varints -----

  /** Seven bits a byte, least significant first, the high bit marking more to come. */
  function PutUvarint(v: nat): (b: Bytes)
    ensures b != []
  {
    if v < 128 then [v] else [v % 128 + 128] + PutUvarint(v / 128)
  }

  /** Reading from byte number i of a varint: at most ten bytes, 64 bits. */
  function GetUvarint(src: Bytes, i: nat): (r: Option<(nat, Bytes)>)
    ensures r.Some? ==> |r.value.1| < |src|
    decreases |src|
  {
    if src == [] || i >= 10 then None
    else if src[0] < 128 then
      if i == 9 && src[0] > 1 then None else Some((src[0], src[1..]))
    else
      match GetUvarint(src[1..], i + 1)
      case None => None
      case Some((v, rest)) => Some((v * 128 + (src[0] - 128), rest))
  }

  function Pow128(k: nat): nat {
    if k == 0 then 1 else 128 * Pow128(k - 1)
  }

  /** What is left of 64 bits at byte i. */
  function Room(i: nat): nat
    requires i <= 9
  {
    2 * Pow128(9 - i)
  }

  lemma {:induction false} UvarintAt(v: nat, rest: Bytes, i: nat)
    requires i <= 9 && v < Room(i)
    ensures GetUvarint(PutUvarint(v) + rest, i) == Some((v, rest))
    decreases 9 - i
  {
    var src := PutUvarint(v) + rest;
    if v < 128 {
      assert src == [v] + rest && src[1..] == rest;
    } else {
      assert i < 9 by { assert Pow128(0) == 1; }
      assert Room(i) == 128 * Room(i + 1);
      var w := v / 128;
      assert w < Room(i + 1);
      UvarintAt(w, rest, i + 1);
      PutUvarintLong(v, rest);
      assert w * 128 + v % 128 == v;
    }
  }

  lemma PutUvarintLong(v: nat, rest: Bytes)
    requires v >= 128
    ensures var src := PutUvarint(v) + rest;
            src[0] == v % 128 + 128 && src[1..] == PutUvarint(v / 128) + rest
  {
    FirstByte(v % 128 + 128, PutUvarint(v / 128), rest);
  }

  lemma FirstByte(b: byte, t: Bytes, rest: Bytes)
    ensures ([b] + t + rest)[0] == b && ([b] + t + rest)[1..] == t + rest
  {
  }

  /** Reading a written 64-bit number returns it and leaves the rest untouched. */
  lemma UvarintRoundTrip(v: nat, rest: Bytes)
    requires v < MAX_UINT64
    ensures GetUvarint(PutUvarint(v) + rest, 0) == Some((v, rest))
  {
    assert Pow128(3) == 0x20_0000;
    assert Pow128(6) == 128 * (128 * (128 * Pow128(3)));
    assert Pow128(9) == 128 * (128 * (128 * Pow128(6)));
    UvarintAt(v, rest, 0);
  }

  /** A length or count, as the writer's 64-bit conversion leaves it. */
  function Length(n: nat): Bytes {
    PutUvarint(n % MAX_UINT64)
  }

  lemma LengthRoundTrip(n: nat, rest: Bytes)
    requires n < MAX_UINT64
    ensures GetUvarint(Length(n) + rest, 0) == Some((n, rest))
  {
    assert n % MAX_UINT64 == n;
    UvarintRoundTrip(n, rest);
  }

  /** The bytes of two numbers: seven bits each, the low ones first. */
  lemma UvarintExample()
    ensures PutUvarint(5) == [5] && PutUvarint(300) == [172, 2]
  {
    assert PutUvarint(2) == [2] && [172] + PutUvarint(2) == [172, 2];
  }

  // ----- Documents -----

  /** The BSON encoding: abstract, but reading undoes writing. */
  datatype Codec = Codec(Marshal: seq<Elem> -> Bytes, Unmarshal: Bytes -> Option<seq<Elem>>)

  ghost predicate CodecLaw(c: Codec) {
    forall d :: c.Unmarshal(c.Marshal(d)) == Some(d)
  }

  // ----- The format -----

  datatype Collection = Collection(name: Bytes, specs: seq<Bytes>, docs: seq<Bytes>)

  function Frame(data: Bytes): Bytes {
    Length(|data|) + data
  }

  function Frames(ds: seq<Bytes>): Bytes {
    if ds == [] then [] else Frames(ds[..|ds| - 1]) + Frame(ds[|ds| - 1])
  }

  function Counted(ds: seq<Bytes>): Bytes {
    Length(|ds|) + Frames(ds)
  }

  function CollectionBytes(c: Collection): Bytes {
    Frame(c.name) + Counted(c.specs) + Counted(c.docs)
  }

  function CollectionsBytes(cs: seq<Collection>): Bytes {
    if cs == [] then [] else CollectionsBytes(cs[..|cs| - 1]) + CollectionBytes(cs[|cs| - 1])
  }

  function Archive(cs: seq<Collection>): Bytes {
    MAGIC + Length(|cs|) + CollectionsBytes(cs)
  }

  /** A collection as the database lists it. */
  datatype Source = Source(name: Bytes, indexes: seq<seq<Elem>>, docs: seq<seq<Elem>>)

  function MarshalSpecs(c: Codec, indexes: seq<seq<Elem>>): (raws: seq<Bytes>)
    ensures |raws| == |indexes|
  {
    if indexes == [] then [] else MarshalSpecs(c, indexes[..|indexes| - 1]) + [c.Marshal(Clean(indexes[|indexes| - 1]))]
  }

  function MarshalDocs(c: Codec, docs: seq<seq<Elem>>): (raws: seq<Bytes>)
    ensures |raws| == |docs|
  {
    if docs == [] then [] else MarshalDocs(c, docs[..|docs| - 1]) + [c.Marshal(docs[|docs| - 1])]
  }

  function Encode(c: Codec, s: Source): Collection {
    Collection(s.name, MarshalSpecs(c, s.indexes), MarshalDocs(c, s.docs))
  }

  function EncodeAll(c: Codec, db: seq<Source>): (cs: seq<Collection>)
    ensures |cs| == |db|
  {
    if db == [] then [] else EncodeAll(c, db[..|db| - 1]) + [Encode(c, db[|db| - 1])]
  }

  lemma FramesSnoc(ds: seq<Bytes>, d: Bytes)
    ensures Frames(ds + [d]) == Frames(ds) + Frame(d)
  {
    assert (ds + [d])[..|ds|] == ds;
  }

  method WriteSpecs(c: Codec, indexes: seq<seq<Elem>>) returns (out: Bytes)
    ensures out == Counted(MarshalSpecs(c, indexes))
  {
    var specs: seq<Bytes> := [];
    for i := 0 to |indexes|
      invariant specs == MarshalSpecs(c, indexes[..i])
    {
      assert indexes[..i + 1][..i] == indexes[..i];
      var clean := CleanSpec(indexes[i]);
      specs := specs + [c.Marshal(clean)];
    }
    assert indexes[..|indexes|] == indexes;
    out := Length(|specs|);
    for i := 0 to |specs|
      invariant out == Length(|specs|) + Frames(specs[..i])
    {
      assert specs[..i + 1] == specs[..i] + [specs[i]];
      FramesSnoc(specs[..i], specs[i]);
      Assoc(Length(|specs|), Frames(specs[..i]), Frame(specs[i]));
      out := out + Frame(specs[i]);
    }
    assert specs[..|specs|] == specs;
  }

  /** Documents go to a side file while they are counted. */
  method WriteDocs(c: Codec, docs: seq<seq<Elem>>) returns (n: nat, side: Bytes)
    ensures n == |docs| && side == Frames(MarshalDocs(c, docs))
  {
    side, n := [], 0;
    for i := 0 to |docs|
      invariant n == i && side == Frames(MarshalDocs(c, docs[..i]))
    {
      assert docs[..i + 1][..i] == docs[..i];
      FramesSnoc(MarshalDocs(c, docs[..i]), c.Marshal(docs[i]));
      side := side + Frame(c.Marshal(docs[i]));
      n := n + 1;
    }
    assert docs[..|docs|] == docs;
  }

  method WriteCollection(c: Codec, s: Source) returns (out: Bytes)
    ensures out == CollectionBytes(Encode(c, s))
  {
    out := Frame(s.name);
    var specs := WriteSpecs(c, s.indexes);
    out := out + specs;
    var n, side := WriteDocs(c, s.docs);
    out := out + (Length(n) + side);
  }

  lemma CollectionsSnoc(cs: seq<Collection>, k: Collection)
    ensures CollectionsBytes(cs + [k]) == CollectionsBytes(cs) + CollectionBytes(k)
  {
    assert (cs + [k])[..|cs|] == cs;
  }

  method BackupMongoNative(c: Codec, db: seq<Source>) returns (out: Bytes)
    ensures out == Archive(EncodeAll(c, db))
  {
    out := MAGIC + Length(|db|);
    for i := 0 to |db|
      invariant out == MAGIC + Length(|db|) + CollectionsBytes(EncodeAll(c, db[..i]))
    {
      assert db[..i + 1][..i] == db[..i];
      var bytes := WriteCollection(c, db[i]);
      CollectionsSnoc(EncodeAll(c, db[..i]), Encode(c, db[i]));
      Assoc(MAGIC + Length(|db|), CollectionsBytes(EncodeAll(c, db[..i])), bytes);
      out := out + bytes;
    }
    assert db[..|db|] == db;
  }

  // ----- Reading -----

  function GetFrame(src: Bytes): (r: Option<(Bytes, Bytes)>)
    ensures r.Some? ==> |r.value.1| < |src|
  {
    match GetUvarint(src, 0)
    case None => None
    case Some((n, rest)) => if n > MAX_FRAME || n > |rest| then None else Some((rest[..n], rest[n..]))
  }

  /** n items, one after the other. */
  function Many<T>(item: Bytes -> Option<(T, Bytes)>, src: Bytes, n: nat): Option<(seq<T>, Bytes)> {
    if n == 0 then Some(([], src)) else AddItem(item, Many(item, src, n - 1))
  }

  function AddItem<T>(item: Bytes -> Option<(T, Bytes)>, r: Option<(seq<T>, Bytes)>): Option<(seq<T>, Bytes)> {
    match r
    case None => None
    case Some((ts, rest)) =>
      match item(rest)
      case None => None
      case Some((t, rest')) => Some((ts + [t], rest'))
  }

  function GetFrames(src: Bytes, n: nat): Option<(seq<Bytes>, Bytes)> {
    Many(GetFrame, src, n)
  }

  function GetCounted(src: Bytes): Option<(seq<Bytes>, Bytes)> {
    match GetUvarint(src, 0)
    case None => None
    case Some((n, rest)) => GetFrames(rest, n)
  }

  function GetCollection(src: Bytes): Option<(Collection, Bytes)> {
    match GetFrame(src)
    case None => None
    case Some((name, r1)) =>
      match GetCounted(r1)
      case None => None
      case Some((specs, r2)) =>
        match GetCounted(r2)
        case None => None
        case Some((docs, r3)) => Some((Collection(name, specs, docs), r3))
  }

  function GetCollections(src: Bytes, n: nat): Option<(seq<Collection>, Bytes)> {
    Many(GetCollection, src, n)
  }

  function GetArchive(file: Bytes): Option<(seq<Collection>, Bytes)> {
    if |file| < 4 || file[..4] != MAGIC then None
    else
      match GetUvarint(file[4..], 0)
      case None => None
      case Some((n, rest)) => GetCollections(rest, n)
  }

  // ----- Restoring -----

  datatype Call = Insert(coll: Bytes, docs: seq<seq<Elem>>) | CreateIndexes(coll: Bytes, models: seq<IndexModel>)

  predicate Decodes(c: Codec, raws: seq<Bytes>) {
    forall i :: 0 <= i < |raws| ==> c.Unmarshal(raws[i]).Some?
  }

  function Decoded(c: Codec, raws: seq<Bytes>): (docs: seq<seq<Elem>>)
    requires Decodes(c, raws)
    ensures |docs| == |raws|
  {
    seq(|raws|, i requires 0 <= i < |raws| => c.Unmarshal(raws[i]).value)
  }

  function Models(specs: seq<seq<Elem>>): seq<IndexModel> {
    seq(|specs|, i requires 0 <= i < |specs| => ToModel(specs[i]))
  }

  /** Inserts of at most 500 documents, in order. */
  function Batches(name: Bytes, docs: seq<seq<Elem>>): seq<Call> {
    if docs == [] then []
    else if |docs| <= BATCH then [Insert(name, docs)]
    else [Insert(name, docs[..BATCH])] + Batches(name, docs[BATCH..])
  }

  function ReplayCollection(c: Codec, k: Collection): seq<Call>
    requires Readable(c, k)
  {
    Batches(k.name, Decoded(c, k.docs))
    + if k.specs == [] then [] else [CreateIndexes(k.name, Models(Decoded(c, k.specs)))]
  }

  predicate Readable(c: Codec, k: Collection) {
    Decodes(c, k.specs) && Decodes(c, k.docs)
  }

  predicate AllDecode(c: Codec, ks: seq<Collection>) {
    forall i :: 0 <= i < |ks| ==> Readable(c, ks[i])
  }

  function Replay(c: Codec, ks: seq<Collection>): seq<Call>
    requires AllDecode(c, ks)
  {
    if ks == [] then [] else Replay(c, ks[..|ks| - 1]) + ReplayCollection(c, ks[|ks| - 1])
  }

  predicate Restorable(c: Codec, file: Bytes) {
    GetArchive(file).Some? && AllDecode(c, GetArchive(file).value.0)
  }

  /** The reader's loop: x is the number so far, scale the weight of the next byte. */
  function Accumulate(src: Bytes, i: nat, x: nat, scale: nat): Option<(nat, Bytes)>
    decreases |src|
  {
    if src == [] || i >= 10 then None
    else if src[0] < 128 then
      if i == 9 && src[0] > 1 then None else Some((x + src[0] * scale, src[1..]))
    else Accumulate(src[1..], i + 1, x + (src[0] - 128) * scale, scale * 128)
  }

  lemma {:induction false} AccumulateIsGet(src: Bytes, i: nat, x: nat, scale: nat)
    ensures Accumulate(src, i, x, scale)
            == match GetUvarint(src, i) case None => None case Some((v, rest)) => Some((x + v * scale, rest))
    decreases |src|
  {
    if src != [] && i < 10 && src[0] >= 128 {
      var b, r := src[0] - 128, GetUvarint(src[1..], i + 1);
      AccumulateIsGet(src[1..], i + 1, x + b * scale, scale * 128);
      if r.Some? {
        Distribute(r.value.0, b, scale);
      }
    }
  }

  lemma Distribute(v: nat, b: nat, scale: nat)
    ensures (v * 128 + b) * scale == b * scale + v * (scale * 128)
  {
  }

  class FrameReader {
    const src: Bytes
    var pos: nat

    ghost predicate Valid()
      reads this
    {
      pos <= |src|
    }

    function Rest(): Bytes
      reads this
      requires Valid()
    {
      src[pos..]
    }

    constructor (src: Bytes, pos: nat)
      requires pos <= |src|
      ensures Valid() && Rest() == src[pos..]
    {
      this.src, this.pos := src, pos;
    }

    method ReadByte() returns (b: Option<byte>)
      requires Valid()
      modifies this
      ensures Valid()
      ensures b.None? <==> old(Rest()) == []
      ensures b.Some? ==> old(Rest())[0] == b.value && Rest() == old(Rest())[1..]
    {
      if pos == |src| {
        return None;
      }
      b := Some(src[pos]);
      assert Rest()[1..] == src[pos + 1..];
      pos := pos + 1;
    }

    method NextUint() returns (r: Option<nat>)
      requires Valid()
      modifies this
      ensures Valid()
      ensures r.Some? <==> GetUvarint(old(Rest()), 0).Some?
      ensures r.Some? ==> GetUvarint(old(Rest()), 0) == Some((r.value, Rest()))
    {
      ghost var start := Rest();
      AccumulateIsGet(start, 0, 0, 1);
      var x: nat, scale: nat, i := 0, 1, 0;
      while i < 10
        invariant Valid() && 0 <= i <= 10
        invariant Accumulate(start, 0, 0, 1) == Accumulate(Rest(), i, x, scale)
      {
        var b := ReadByte();
        if b.None? {
          return None;
        }
        if b.value < 128 {
          return if i == 9 && b.value > 1 then None else Some(x + b.value * scale);
        }
        x, scale, i := x + (b.value - 128) * scale, scale * 128, i + 1;
      }
      return None;
    }

    method Next() returns (r: Option<Bytes>)
      requires Valid()
      modifies this
      ensures Valid()
      ensures r.Some? <==> GetFrame(old(Rest())).Some?
      ensures r.Some? ==> GetFrame(old(Rest())) == Some((r.value, Rest()))
    {
      var n := NextUint();
      if n.None? || n.value > MAX_FRAME || n.value > |src| - pos {
        return None;
      }
      ghost var rest := Rest();
      var data := src[pos..pos + n.value];
      pos := pos + n.value;
      assert data == rest[..n.value] && Rest() == rest[n.value..];
      return Some(data);
    }
  }

  class Database {
    /** The position of the call that fails, if one will. */
    const refusesAt: Option<nat>
    var calls: seq<Call>

    constructor (refusesAt: Option<nat>)
      ensures calls == [] && this.refusesAt == refusesAt
    {
      this.refusesAt, calls := refusesAt, [];
    }

    method Send(call: Call) returns (ok: bool)
      modifies this
      ensures Sends(ok, refusesAt, old(calls), calls, [call], true)
    {
      ok := refusesAt != Some(|calls|);
      if ok {
        calls := calls + [call];
      }
    }
  }

  /** How calls a were made by something that ends well if `whole`: all of them, or
      those before the one the database refuses, which is an error. */
  ghost predicate Sends(ok: bool, refusesAt: Option<nat>, before: seq<Call>, calls: seq<Call>, a: seq<Call>,
                        whole: bool) {
    if refusesAt.Some? && |before| <= refusesAt.value < |before| + |a|
    then !ok && calls == before + a[..refusesAt.value - |before|]
    else ok == whole && calls == before + a
  }

  lemma SendsThen(ok: bool, refusesAt: Option<nat>, before: seq<Call>, mid: seq<Call>, calls: seq<Call>,
                  a: seq<Call>, b: seq<Call>, whole: bool)
    requires Sends(true, refusesAt, before, mid, a, true) && Sends(ok, refusesAt, mid, calls, b, whole)
    ensures Sends(ok, refusesAt, before, calls, a + b, whole)
  {
    if refusesAt.Some? && |mid| <= refusesAt.value < |mid| + |b| {
      var k := refusesAt.value - |mid|;
      assert (a + b)[..|a| + k] == a + b[..k];
    }
  }

  /** A refused call ends everything: what was to follow it does not matter. */
  lemma RefusedStays(refusesAt: Option<nat>, before: seq<Call>, calls: seq<Call>, a: seq<Call>, b: seq<Call>,
                     whole: bool)
    requires Sends(false, refusesAt, before, calls, a, true) && a <= b
    ensures Sends(false, refusesAt, before, calls, b, whole)
  {
  }

  // ----- What a restore does with any file -----

  /** Documents read up to the first that is missing or does not decode. */
  datatype Scanned = Scanned(ok: bool, docs: seq<seq<Elem>>, rest: Bytes)

  function ScanOne(c: Codec, q: Scanned): Scanned {
    if !q.ok then q
    else
      match GetFrame(q.rest)
      case None => q.(ok := false)
      case Some((raw, rest)) =>
        match c.Unmarshal(raw)
        case None => q.(ok := false)
        case Some(doc) => Scanned(true, q.docs + [doc], rest)
  }

  function Scan(c: Codec, src: Bytes, n: nat): Scanned {
    if n == 0 then Scanned(true, [], src) else ScanOne(c, Scan(c, src, n - 1))
  }

  function ScanList(c: Codec, src: Bytes): Scanned {
    match GetUvarint(src, 0)
    case None => Scanned(false, [], src)
    case Some((n, rest)) => Scan(c, rest, n)
  }

  /** Documents that filled a batch. */
  function Whole(docs: seq<seq<Elem>>): seq<seq<Elem>> {
    docs[..|docs| - |docs| % BATCH]
  }

  /** What reading part of a file makes of the database: the calls, as long as none is
      refused, whether it is read to its end, and what follows in the file. */
  datatype Part = Part(calls: seq<Call>, whole: bool, rest: Bytes)

  /** A list that breaks off has had its full batches inserted, and no others. */
  function DocsPart(name: Bytes, q: Scanned): Part {
    Part(Batches(name, if q.ok then q.docs else Whole(q.docs)), q.ok, q.rest)
  }

  function IndexCalls(name: Bytes, specs: seq<seq<Elem>>): seq<Call> {
    if specs == [] then [] else [CreateIndexes(name, Models(specs))]
  }

  function CollectionPart(c: Codec, src: Bytes): Part {
    match GetFrame(src)
    case None => Part([], false, src)
    case Some((name, r1)) =>
      var specs := ScanList(c, r1);
      if !specs.ok then Part([], false, specs.rest)
      else
        var docs := DocsPart(name, ScanList(c, specs.rest));
        if docs.whole then docs.(calls := docs.calls + IndexCalls(name, specs.docs)) else docs
  }

  function NextPart(c: Codec, p: Part): Part {
    if !p.whole then p
    else
      var k := CollectionPart(c, p.rest);
      k.(calls := p.calls + k.calls)
  }

  function CollectionsPart(c: Codec, src: Bytes, n: nat): Part {
    if n == 0 then Part([], true, src) else NextPart(c, CollectionsPart(c, src, n - 1))
  }

  function FilePart(c: Codec, file: Bytes): Part {
    if |file| < 4 || file[..4] != MAGIC then Part([], false, file)
    else
      match GetUvarint(file[4..], 0)
      case None => Part([], false, file)
      case Some((n, rest)) => CollectionsPart(c, rest, n)
  }

  // ----- The restore -----

  /** From q on, a scan only reads more documents, and nothing once it has failed. */
  ghost predicate ScansOn(q: Scanned, all: Scanned) {
    q.docs <= all.docs && (!q.ok ==> all == q)
  }

  lemma NextScansOn(c: Codec, q: Scanned, all: Scanned)
    requires ScansOn(q, all)
    ensures ScansOn(q, ScanOne(c, all))
  {
  }

  lemma {:induction false} ScanGoesOn(c: Codec, src: Bytes, k: nat, n: nat)
    requires k <= n
    ensures ScansOn(Scan(c, src, k), Scan(c, src, n))
  {
    if k < n {
      ScanGoesOn(c, src, k, n - 1);
      NextScansOn(c, Scan(c, src, k), Scan(c, src, n - 1));
    }
  }

  lemma FailedScanStays(c: Codec, src: Bytes, k: nat, n: nat)
    requires k <= n && !Scan(c, src, k).ok
    ensures !Scan(c, src, n).ok
  {
    ScanGoesOn(c, src, k, n);
  }

  /** The document after the scan q, and the scan with it. */
  method NextDoc(c: Codec, fr: FrameReader, ghost q: Scanned) returns (doc: Option<seq<Elem>>, ghost q': Scanned)
    requires fr.Valid() && q.ok && q.rest == fr.Rest()
    modifies fr
    ensures fr.Valid() && q' == ScanOne(c, q)
    ensures q' == if doc.None? then q.(ok := false) else Scanned(true, q.docs + [doc.value], fr.Rest())
  {
    q' := ScanOne(c, q);
    var frame := fr.Next();
    if frame.None? {
      return None, q';
    }
    doc := c.Unmarshal(frame.value);
  }

  method ModelOf(spec: seq<Elem>) returns (m: IndexModel)
    ensures m == ToModel(spec)
  {
    m := SplitSpec(spec);
  }

  method ReadSpecs(c: Codec, fr: FrameReader) returns (models: Option<seq<IndexModel>>)
    requires fr.Valid()
    modifies fr
    ensures fr.Valid()
    ensures models.Some? <==> ScanList(c, old(fr.Rest())).ok
    ensures models.Some? ==> models.value == Models(ScanList(c, old(fr.Rest())).docs)
                             && fr.Rest() == ScanList(c, old(fr.Rest())).rest
  {
    var n := fr.NextUint();
    if n.None? {
      return None;
    }
    ghost var start, q := fr.Rest(), Scanned(true, [], fr.Rest());
    var out: seq<IndexModel> := [];
    var k := 0;
    while k < n.value
      invariant 0 <= k <= n.value && fr.Valid()
      invariant q == Scan(c, start, k) && q.ok && q.rest == fr.Rest() && out == Models(q.docs)
    {
      var spec;
      spec, q := NextDoc(c, fr, q);
      if spec.None? {
        FailedScanStays(c, start, k + 1, n.value);
        return None;
      }
      var model := ModelOf(spec.value);
      out := out + [model];
      k := k + 1;
    }
    return Some(out);
  }

  /** Whole batches may be split off anywhere. */
  lemma {:induction false} BatchesConcat(name: Bytes, done: seq<seq<Elem>>, more: seq<seq<Elem>>)
    requires |done| % BATCH == 0
    ensures Batches(name, done + more) == Batches(name, done) + Batches(name, more)
    decreases |done|
  {
    if done == [] {
      assert done + more == more;
    } else if more == [] {
      assert done + more == done;
    } else {
      var rest := done[BATCH..];
      BatchesConcat(name, rest, more);
      assert (done + more)[BATCH..] == rest + more && (done + more)[..BATCH] == done[..BATCH];
      if rest == [] {
        assert done[..BATCH] == done;
      }
    }
  }

  /** Full batches of a beginning come first among those of the whole. */
  lemma BatchesPrefix(name: Bytes, done: seq<seq<Elem>>, docs: seq<seq<Elem>>)
    requires |done| % BATCH == 0 && done <= docs
    ensures done <= Whole(docs)
    ensures Batches(name, done) <= Batches(name, docs) && Batches(name, done) <= Batches(name, Whole(docs))
  {
    assert docs == done + docs[|done|..] && Whole(docs) == done + Whole(docs)[|done|..];
    BatchesConcat(name, done, docs[|done|..]);
    BatchesConcat(name, done, Whole(docs)[|done|..]);
  }

  function BatchCalls(name: Bytes, batch: seq<seq<Elem>>): seq<Call> {
    if batch == [] then [] else [Insert(name, batch)]
  }

  /** Insert what the batch holds, if anything. */
  method Flush(db: Database, name: Bytes, batch: seq<seq<Elem>>) returns (ok: bool)
    modifies db
    ensures Sends(ok, db.refusesAt, old(db.calls), db.calls, BatchCalls(name, batch), true)
  {
    ok := true;
    if |batch| > 0 {
      ok := db.Send(Insert(name, batch));
    }
  }

  /** ReadDocs in the middle: what q has read is in `done`, which is inserted, and in the batch. */
  ghost predicate DocsUpTo(name: Bytes, q: Scanned, rest: Bytes, done: seq<seq<Elem>>, batch: seq<seq<Elem>>,
                           before: seq<Call>, db: Database)
    reads db
  {
    && q == Scanned(true, done + batch, rest) && |done| % BATCH == 0 && |batch| < BATCH
    && Sends(true, db.refusesAt, before, db.calls, Batches(name, done), true)
  }

  /** The list breaks off: what is inserted are its full batches. */
  lemma BrokenOff(name: Bytes, done: seq<seq<Elem>>, batch: seq<seq<Elem>>)
    requires |done| % BATCH == 0 && |batch| < BATCH
    ensures Whole(done + batch) == done
  {
    assert |done + batch| % BATCH == |batch|;
  }

  lemma Flushed(ok: bool, refusesAt: Option<nat>, before: seq<Call>, mid: seq<Call>, calls: seq<Call>, name: Bytes,
                done: seq<seq<Elem>>, batch: seq<seq<Elem>>)
    requires |done| % BATCH == 0 && |batch| <= BATCH
    requires Sends(true, refusesAt, before, mid, Batches(name, done), true)
    requires Sends(ok, refusesAt, mid, calls, BatchCalls(name, batch), true)
    ensures Sends(ok, refusesAt, before, calls, Batches(name, done + batch), true)
  {
    SendsThen(ok, refusesAt, before, mid, calls, Batches(name, done), BatchCalls(name, batch), true);
    BatchesConcat(name, done, batch);
  }

  ghost predicate DocsSent(ok: bool, name: Bytes, q: Scanned, before: seq<Call>, db: Database)
    reads db
  {
    Sends(ok, db.refusesAt, before, db.calls, DocsPart(name, q).calls, q.ok)
  }

  /** A full batch is refused: nothing after it is inserted, whatever else the list holds. */
  lemma RefusedFull(name: Bytes, done: seq<seq<Elem>>, q: Scanned, before: seq<Call>, db: Database)
    requires |done| % BATCH == 0 && done <= q.docs
    requires Sends(false, db.refusesAt, before, db.calls, Batches(name, done), true)
    ensures DocsSent(false, name, q, before, db)
  {
    BatchesPrefix(name, done, q.docs);
    RefusedStays(db.refusesAt, before, db.calls, Batches(name, done), DocsPart(name, q).calls, q.ok);
  }

  /** Inserts a full batch; `q` is the scan of the whole list. */
  method TakeFull(name: Bytes, db: Database, batch: seq<seq<Elem>>, ghost done: seq<seq<Elem>>, ghost q: Scanned,
                  ghost before: seq<Call>) returns (ok: bool)
    requires |done| % BATCH == 0 && |batch| == BATCH && done + batch <= q.docs
    requires Sends(true, db.refusesAt, before, db.calls, Batches(name, done), true)
    modifies db
    ensures ok ==> Sends(true, db.refusesAt, before, db.calls, Batches(name, done + batch), true)
    ensures !ok ==> DocsSent(false, name, q, before, db)
  {
    ghost var mid := db.calls;
    ok := Flush(db, name, batch);
    Flushed(ok, db.refusesAt, before, mid, db.calls, name, done, batch);
    if !ok {
      RefusedFull(name, done + batch, q, before, db);
    }
  }

  /** Document d of n goes into the batch; a full batch is inserted. */
  method TakeDoc(c: Codec, fr: FrameReader, name: Bytes, db: Database, batch: seq<seq<Elem>>, ghost start: Bytes,
                 ghost d: nat, ghost n: nat, ghost done: seq<seq<Elem>>, ghost before: seq<Call>)
    returns (ok: bool, batch': seq<seq<Elem>>, ghost done': seq<seq<Elem>>)
    requires fr.Valid() && d < n && DocsUpTo(name, Scan(c, start, d), fr.Rest(), done, batch, before, db)
    modifies fr, db
    ensures fr.Valid()
    ensures ok ==> DocsUpTo(name, Scan(c, start, d + 1), fr.Rest(), done', batch', before, db)
    ensures !ok ==> DocsSent(false, name, Scan(c, start, n), before, db)
  {
    ghost var q, all := Scan(c, start, d), Scan(c, start, n);
    ScanGoesOn(c, start, d + 1, n);
    ok, batch', q, done' := TakeNext(c, fr, name, db, batch, q, all, done, before);
  }

  /** The document after q goes into the batch; `all` is the scan of the whole list. */
  method TakeNext(c: Codec, fr: FrameReader, name: Bytes, db: Database, batch: seq<seq<Elem>>, ghost q: Scanned,
                  ghost all: Scanned, ghost done: seq<seq<Elem>>, ghost before: seq<Call>)
    returns (ok: bool, batch': seq<seq<Elem>>, ghost q': Scanned, ghost done': seq<seq<Elem>>)
    requires fr.Valid() && DocsUpTo(name, q, fr.Rest(), done, batch, before, db) && ScansOn(ScanOne(c, q), all)
    modifies fr, db
    ensures fr.Valid() && q' == ScanOne(c, q)
    ensures ok ==> DocsUpTo(name, q', fr.Rest(), done', batch', before, db)
    ensures !ok ==> DocsSent(false, name, all, before, db)
  {
    batch', done' := batch, done;
    var doc;
    doc, q' := NextDoc(c, fr, q);
    ok := doc.Some?;
    if !ok {
      BrokenOff(name, done, batch);
      return;
    }
    batch' := batch + [doc.value];
    assert done + batch + [doc.value] == done + batch';
    if |batch'| >= BATCH {
      ok := TakeFull(name, db, batch', done, all, before);
      done' := done + batch';
      batch' := [];
      assert done' + batch' == done';
    }
  }

  /** Reads n documents; the last ones are left in the batch. */
  method TakeDocs(c: Codec, fr: FrameReader, name: Bytes, db: Database, n: nat)
    returns (ok: bool, batch: seq<seq<Elem>>, ghost done: seq<seq<Elem>>)
    requires fr.Valid()
    modifies fr, db
    ensures fr.Valid()
    ensures ok ==> DocsUpTo(name, Scan(c, old(fr.Rest()), n), fr.Rest(), done, batch, old(db.calls), db)
    ensures !ok ==> DocsSent(false, name, Scan(c, old(fr.Rest()), n), old(db.calls), db)
  {
    ghost var start, before := fr.Rest(), db.calls;
    ok, batch, done := true, [], [];
    for d := 0 to n
      invariant fr.Valid() && ok && DocsUpTo(name, Scan(c, start, d), fr.Rest(), done, batch, before, db)
    {
      ok, batch, done := TakeDoc(c, fr, name, db, batch, start, d, n, done, before);
      if !ok {
        return;
      }
    }
  }

  /** Documents are inserted in batches that fill up to 500 and are then emptied; when
      the list breaks off, or an insert fails, what was inserted before it stays. */
  method ReadDocs(c: Codec, fr: FrameReader, name: Bytes, db: Database) returns (ok: bool)
    requires fr.Valid()
    modifies fr, db
    ensures fr.Valid()
    ensures DocsSent(ok, name, ScanList(c, old(fr.Rest())), old(db.calls), db)
    ensures ok ==> ScanList(c, old(fr.Rest())).ok && fr.Rest() == ScanList(c, old(fr.Rest())).rest
  {
    var n := fr.NextUint();
    if n.None? {
      return false;
    }
    var batch;
    ghost var before, done := db.calls, [];
    ok, batch, done := TakeDocs(c, fr, name, db, n.value);
    if ok {
      ghost var mid := db.calls;
      ok := Flush(db, name, batch);
      Flushed(ok, db.refusesAt, before, mid, db.calls, name, done, batch);
    }
  }

  method MakeIndexes(db: Database, name: Bytes, models: seq<IndexModel>, ghost specs: seq<seq<Elem>>) returns (ok: bool)
    requires models == Models(specs)
    modifies db
    ensures Sends(ok, db.refusesAt, old(db.calls), db.calls, IndexCalls(name, specs), true)
  {
    ok := true;
    if |models| > 0 {
      ok := db.Send(CreateIndexes(name, models));
    }
  }

  ghost predicate PartSent(ok: bool, p: Part, before: seq<Call>, db: Database)
    reads db
  {
    Sends(ok, db.refusesAt, before, db.calls, p.calls, p.whole)
  }

  method RestoreCollection(c: Codec, fr: FrameReader, db: Database) returns (ok: bool)
    requires fr.Valid()
    modifies fr, db
    ensures fr.Valid()
    ensures PartSent(ok, CollectionPart(c, old(fr.Rest())), old(db.calls), db)
    ensures ok ==> CollectionPart(c, old(fr.Rest())).whole && fr.Rest() == CollectionPart(c, old(fr.Rest())).rest
  {
    ghost var before := db.calls;
    var name := fr.Next();
    if name.None? {
      return false;
    }
    ghost var specs := ScanList(c, fr.Rest());
    var models := ReadSpecs(c, fr);
    if models.None? {
      return false;
    }
    ghost var docs := DocsPart(name.value, ScanList(c, fr.Rest()));
    ok := ReadDocs(c, fr, name.value, db);
    ghost var mid := db.calls;
    if ok {
      ok := MakeIndexes(db, name.value, models.value, specs.docs);
      SendsThen(ok, db.refusesAt, before, mid, db.calls, docs.calls, IndexCalls(name.value, specs.docs), true);
    } else if docs.whole {
      RefusedStays(db.refusesAt, before, mid, docs.calls, docs.calls + IndexCalls(name.value, specs.docs), true);
    }
  }

  /** From p on, a restore only adds calls, and none once it has failed. */
  ghost predicate Sticks(p: Part, q: Part) {
    p.calls <= q.calls && (!p.whole ==> q == p)
  }

  lemma NextSticks(c: Codec, p: Part, q: Part)
    requires Sticks(p, q)
    ensures Sticks(p, NextPart(c, q))
  {
  }

  lemma {:induction false} PartsStick(c: Codec, src: Bytes, k: nat, n: nat)
    requires k <= n
    ensures Sticks(CollectionsPart(c, src, k), CollectionsPart(c, src, n))
  {
    if k < n {
      PartsStick(c, src, k, n - 1);
      NextSticks(c, CollectionsPart(c, src, k), CollectionsPart(c, src, n - 1));
    }
  }

  /** Part k after p ended the restore, of which `all` is the whole. */
  lemma StoppedIn(p: Part, k: Part, all: Part, mid: seq<Call>, before: seq<Call>, db: Database)
    requires Sends(true, db.refusesAt, before, mid, p.calls, true) && PartSent(false, k, mid, db)
    requires p.calls + k.calls <= all.calls && (!k.whole ==> all == k.(calls := p.calls + k.calls))
    ensures PartSent(false, all, before, db)
  {
    SendsThen(false, db.refusesAt, before, mid, db.calls, p.calls, k.calls, k.whole);
    if k.whole {
      RefusedStays(db.refusesAt, before, db.calls, p.calls + k.calls, all.calls, all.whole);
    }
  }

  /** Collection i of n, after those before it. */
  method RestoreNext(c: Codec, fr: FrameReader, db: Database, ghost start: Bytes, ghost i: nat, ghost n: nat,
                     ghost before: seq<Call>) returns (ok: bool)
    requires fr.Valid() && i < n && PartDone(CollectionsPart(c, start, i), fr.Rest(), before, db)
    modifies fr, db
    ensures fr.Valid()
    ensures ok ==> PartDone(CollectionsPart(c, start, i + 1), fr.Rest(), before, db)
    ensures !ok ==> PartSent(false, CollectionsPart(c, start, n), before, db)
  {
    ghost var mid, k, p := db.calls, CollectionPart(c, fr.Rest()), CollectionsPart(c, start, i);
    ok := RestoreCollection(c, fr, db);
    if ok {
      SendsThen(true, db.refusesAt, before, mid, db.calls, p.calls, k.calls, true);
    } else {
      PartsStick(c, start, i + 1, n);
      StoppedIn(p, k, CollectionsPart(c, start, n), mid, before, db);
    }
  }

  /** Part p is read to its end and all its calls are made. */
  ghost predicate PartDone(p: Part, rest: Bytes, before: seq<Call>, db: Database)
    reads db
  {
    p.whole && p.rest == rest && PartSent(true, p, before, db)
  }

  method RestoreCollections(c: Codec, fr: FrameReader, n: nat, db: Database) returns (ok: bool)
    requires fr.Valid()
    modifies fr, db
    ensures PartSent(ok, CollectionsPart(c, old(fr.Rest()), n), old(db.calls), db)
  {
    ghost var start, before := fr.Rest(), db.calls;
    ok := true;
    for i := 0 to n
      invariant fr.Valid() && ok && PartDone(CollectionsPart(c, start, i), fr.Rest(), before, db)
    {
      ok := RestoreNext(c, fr, db, start, i, n, before);
      if !ok {
        return;
      }
    }
  }

  /** A restore makes exactly the calls of `FilePart`, up to one that the database
      refuses, and succeeds exactly when none is refused and the file is whole. */
  method RestoreMongoNative(c: Codec, file: Bytes, db: Database) returns (ok: bool)
    modifies db
    ensures PartSent(ok, FilePart(c, file), old(db.calls), db)
  {
    if |file| < 4 || file[..4] != MAGIC {
      return false;
    }
    var fr := new FrameReader(file, 4);
    var n := fr.NextUint();
    if n.None? {
      return false;
    }
    ok := RestoreCollections(c, fr, n.value, db);
  }

  // ----- Whole files -----

  lemma DecodedSnoc(c: Codec, raws: seq<Bytes>, raw: Bytes)
    requires Decodes(c, raws) && c.Unmarshal(raw).Some?
    ensures Decodes(c, raws + [raw])
    ensures Decoded(c, raws + [raw]) == Decoded(c, raws) + [c.Unmarshal(raw).value]
    ensures Models(Decoded(c, raws + [raw])) == Models(Decoded(c, raws)) + [ToModel(c.Unmarshal(raw).value)]
  {
  }

  /** A scan that went well so far has read what the format says is there. */
  ghost predicate Agrees(c: Codec, q: Scanned, r: Option<(seq<Bytes>, Bytes)>) {
    && (q.ok <==> r.Some? && Decodes(c, r.value.0))
    && (q.ok ==> q.docs == Decoded(c, r.value.0) && q.rest == r.value.1)
  }

  lemma OneMoreAgrees(c: Codec, q: Scanned, r: Option<(seq<Bytes>, Bytes)>)
    requires Agrees(c, q, r)
    ensures Agrees(c, ScanOne(c, q), AddItem(GetFrame, r))
  {
    if r.Some? && GetFrame(r.value.1).Some? {
      var raws, raw := r.value.0, GetFrame(r.value.1).value.0;
      assert forall i :: 0 <= i < |raws| ==> (raws + [raw])[i] == raws[i];
      assert (raws + [raw])[|raws|] == raw;
    }
  }

  lemma {:induction false} ScanIsFrames(c: Codec, src: Bytes, n: nat)
    ensures Agrees(c, Scan(c, src, n), GetFrames(src, n))
  {
    if n > 0 {
      ScanIsFrames(c, src, n - 1);
      OneMoreAgrees(c, Scan(c, src, n - 1), GetFrames(src, n - 1));
    }
  }

  lemma CollectionIsReplay(c: Codec, src: Bytes)
    ensures CollectionPart(c, src).whole <==> GetCollection(src).Some? && Readable(c, GetCollection(src).value.0)
    ensures CollectionPart(c, src).whole ==>
              CollectionPart(c, src)
              == Part(ReplayCollection(c, GetCollection(src).value.0), true, GetCollection(src).value.1)
  {
    if GetFrame(src).Some? {
      var r1 := GetFrame(src).value.1;
      if GetUvarint(r1, 0).Some? {
        ScanIsFrames(c, GetUvarint(r1, 0).value.1, GetUvarint(r1, 0).value.0);
        if GetCounted(r1).Some? {
          var r2 := GetCounted(r1).value.1;
          if GetUvarint(r2, 0).Some? {
            ScanIsFrames(c, GetUvarint(r2, 0).value.1, GetUvarint(r2, 0).value.0);
          }
        }
      }
    }
  }

  lemma ReplaySnoc(c: Codec, ks: seq<Collection>, k: Collection)
    requires AllDecode(c, ks) && Readable(c, k)
    ensures AllDecode(c, ks + [k]) && Replay(c, ks + [k]) == Replay(c, ks) + ReplayCollection(c, k)
  {
    assert (ks + [k])[..|ks|] == ks;
  }

  ghost predicate Replays(c: Codec, p: Part, r: Option<(seq<Collection>, Bytes)>) {
    && (p.whole <==> r.Some? && AllDecode(c, r.value.0))
    && (p.whole ==> p.calls == Replay(c, r.value.0) && p.rest == r.value.1)
  }

  lemma OneMoreReplays(c: Codec, p: Part, r: Option<(seq<Collection>, Bytes)>)
    requires Replays(c, p, r)
    ensures Replays(c, NextPart(c, p), AddItem(GetCollection, r))
  {
    if r.Some? {
      CollectionIsReplay(c, r.value.1);
      if GetCollection(r.value.1).Some? {
        var ks, k := r.value.0, GetCollection(r.value.1).value.0;
        assert forall i :: 0 <= i < |ks| ==> (ks + [k])[i] == ks[i];
        assert (ks + [k])[|ks|] == k;
        if AllDecode(c, ks) && Readable(c, k) {
          ReplaySnoc(c, ks, k);
        }
      }
    }
  }

  lemma {:induction false} CollectionsAreReplay(c: Codec, src: Bytes, n: nat)
    ensures Replays(c, CollectionsPart(c, src, n), GetCollections(src, n))
  {
    if n > 0 {
      CollectionsAreReplay(c, src, n - 1);
      OneMoreReplays(c, CollectionsPart(c, src, n - 1), GetCollections(src, n - 1));
    }
  }

  /** A file is restored to its end exactly if it parses and decodes, and then with
      exactly the calls of its replay. */
  lemma WholeFileIsReplay(c: Codec, file: Bytes)
    ensures FilePart(c, file).whole <==> Restorable(c, file)
    ensures FilePart(c, file).whole ==>
              FilePart(c, file) == Part(Replay(c, GetArchive(file).value.0), true, GetArchive(file).value.1)
  {
    if |file| >= 4 && GetUvarint(file[4..], 0).Some? {
      CollectionsAreReplay(c, GetUvarint(file[4..], 0).value.1, GetUvarint(file[4..], 0).value.0);
    }
  }

  // ----- What a restore recovers -----

  ghost predicate Countable(ds: seq<Bytes>) {
    |ds| < MAX_UINT64 && forall i :: 0 <= i < |ds| ==> |ds[i]| < MAX_UINT64
  }

  /** Everything the writer holds has a length that fits its 64-bit counters. */
  ghost predicate FitsCounters(cs: seq<Collection>) {
    |cs| < MAX_UINT64
    && forall i :: 0 <= i < |cs| ==> |cs[i].name| < MAX_UINT64 && Countable(cs[i].specs) && Countable(cs[i].docs)
  }

  ghost predicate SmallFrames(ds: seq<Bytes>) {
    forall i :: 0 <= i < |ds| ==> |ds[i]| <= 0x1000_0000
  }

  ghost predicate SmallCollection(c: Collection) {
    |c.name| <= 0x1000_0000 && SmallFrames(c.specs) && SmallFrames(c.docs)
  }

  ghost predicate AllSmall(cs: seq<Collection>) {
    forall i :: 0 <= i < |cs| ==> SmallCollection(cs[i])
  }

  lemma FrameRoundTrip(d: Bytes, rest: Bytes)
    requires |d| < MAX_UINT64
    ensures GetFrame(Frame(d) + rest) == if |d| <= MAX_FRAME then Some((d, rest)) else None
  {
    LengthRoundTrip(|d|, d + rest);
    Assoc(Length(|d|), d, rest);
    assert (d + rest)[..|d|] == d && (d + rest)[|d|..] == rest;
  }

  lemma {:induction false} FramesRoundTrip(ds: seq<Bytes>, rest: Bytes)
    requires Countable(ds)
    ensures GetFrames(Frames(ds) + rest, |ds|) == if SmallFrames(ds) then Some((ds, rest)) else None
    decreases |ds|
  {
    if ds == [] {
      assert Frames(ds) + rest == rest;
    } else {
      var init, d := ds[..|ds| - 1], ds[|ds| - 1];
      FramesRoundTrip(init, Frame(d) + rest);
      FrameRoundTrip(d, rest);
      Assoc(Frames(init), Frame(d), rest);
      assert ds == init + [d];
    }
  }

  lemma CountedRoundTrip(ds: seq<Bytes>, rest: Bytes)
    requires Countable(ds)
    ensures GetCounted(Counted(ds) + rest) == if SmallFrames(ds) then Some((ds, rest)) else None
  {
    Assoc(Length(|ds|), Frames(ds), rest);
    LengthRoundTrip(|ds|, Frames(ds) + rest);
    FramesRoundTrip(ds, rest);
  }

  lemma CollectionRoundTrip(c: Collection, rest: Bytes)
    requires |c.name| < MAX_UINT64 && Countable(c.specs) && Countable(c.docs)
    ensures GetCollection(CollectionBytes(c) + rest) == if SmallCollection(c) then Some((c, rest)) else None
  {
    var specs, docs := Counted(c.specs), Counted(c.docs);
    Assoc(Frame(c.name) + specs, docs, rest);
    Assoc(Frame(c.name), specs, docs + rest);
    FrameRoundTrip(c.name, specs + (docs + rest));
    CountedRoundTrip(c.specs, docs + rest);
    CountedRoundTrip(c.docs, rest);
  }

  lemma {:induction false} CollectionsRoundTrip(cs: seq<Collection>, rest: Bytes)
    requires FitsCounters(cs)
    ensures GetCollections(CollectionsBytes(cs) + rest, |cs|) == if AllSmall(cs) then Some((cs, rest)) else None
    decreases |cs|
  {
    if cs == [] {
      assert CollectionsBytes(cs) + rest == rest;
    } else {
      var init, c := cs[..|cs| - 1], cs[|cs| - 1];
      CollectionsRoundTrip(init, CollectionBytes(c) + rest);
      CollectionRoundTrip(c, rest);
      Assoc(CollectionsBytes(init), CollectionBytes(c), rest);
      AllSmallSnoc(cs);
    }
  }

  lemma AllSmallSnoc(cs: seq<Collection>)
    requires cs != []
    ensures cs == cs[..|cs| - 1] + [cs[|cs| - 1]]
    ensures AllSmall(cs) <==> AllSmall(cs[..|cs| - 1]) && SmallCollection(cs[|cs| - 1])
  {
  }

  /** An archive byte for byte: "VGM1", the number of collections, and for each its name, its
      specs and its documents, every one behind its length and every list behind its count. */
  lemma ArchiveLayout(cs: seq<Collection>)
    ensures Archive(cs)[..4] == [86, 71, 77, 49]
    ensures Archive(cs) == [86, 71, 77, 49] + Length(|cs|) + CollectionsBytes(cs)
    ensures forall c: Collection :: CollectionBytes(c) ==
              Length(|c.name|) + c.name + (Length(|c.specs|) + Frames(c.specs)) + (Length(|c.docs|) + Frames(c.docs))
    ensures forall ds: seq<Bytes>, d :: Frames(ds + [d]) == Frames(ds) + (Length(|d|) + d)
  {
    forall ds: seq<Bytes>, d ensures Frames(ds + [d]) == Frames(ds) + (Length(|d|) + d) {
      FramesSnoc(ds, d);
    }
  }

  /** A written archive reads back whole, with nothing left over, exactly when every
      frame is at most 256 MiB; otherwise it does not read back at all. */
  lemma ArchiveRoundTrip(cs: seq<Collection>)
    requires FitsCounters(cs)
    ensures GetArchive(Archive(cs)) == if AllSmall(cs) then Some((cs, [])) else None
  {
    var body := Length(|cs|) + CollectionsBytes(cs);
    Assoc(MAGIC, Length(|cs|), CollectionsBytes(cs));
    assert (MAGIC + body)[..4] == MAGIC && (MAGIC + body)[4..] == body;
    LengthRoundTrip(|cs|, CollectionsBytes(cs));
    CollectionsRoundTrip(cs, []);
    assert CollectionsBytes(cs) + [] == CollectionsBytes(cs);
  }

  /** All documents inserted into a collection, in the order of the calls. */
  function InsertedInto(calls: seq<Call>, name: Bytes): seq<seq<Elem>> {
    if calls == [] then []
    else
      var last := calls[|calls| - 1];
      InsertedInto(calls[..|calls| - 1], name) + if last.Insert? && last.coll == name then last.docs else []
  }

  function IndexesOf(calls: seq<Call>, name: Bytes): seq<IndexModel> {
    if calls == [] then []
    else
      var last := calls[|calls| - 1];
      IndexesOf(calls[..|calls| - 1], name) + if last.CreateIndexes? && last.coll == name then last.models else []
  }

  lemma {:induction false} CallsConcat(a: seq<Call>, b: seq<Call>, name: Bytes)
    ensures InsertedInto(a + b, name) == InsertedInto(a, name) + InsertedInto(b, name)
    ensures IndexesOf(a + b, name) == IndexesOf(a, name) + IndexesOf(b, name)
  {
    if b == [] {
      assert a + b == a;
    } else {
      var init, last := b[..|b| - 1], b[|b| - 1];
      CallsConcat(a, init, name);
      assert (a + b)[..|a + b| - 1] == a + init && (a + b)[|a + b| - 1] == last;
      var docs := if last.Insert? && last.coll == name then last.docs else [];
      Assoc(InsertedInto(a, name), InsertedInto(init, name), docs);
      var models := if last.CreateIndexes? && last.coll == name then last.models else [];
      Assoc(IndexesOf(a, name), IndexesOf(init, name), models);
    }
  }

  ghost predicate GoodBatches(calls: seq<Call>) {
    forall i :: 0 <= i < |calls| && calls[i].Insert? ==> 1 <= |calls[i].docs| <= 500
  }

  lemma {:induction false} BatchesInsertAll(name: Bytes, docs: seq<seq<Elem>>, other: Bytes)
    ensures InsertedInto(Batches(name, docs), other) == if other == name then docs else []
    ensures IndexesOf(Batches(name, docs), other) == [] && GoodBatches(Batches(name, docs))
    decreases |docs|
  {
    if 0 < |docs| <= BATCH {
      assert Batches(name, docs)[..0] == [];
    } else if docs != [] {
      var first, rest := [Insert(name, docs[..BATCH])], docs[BATCH..];
      BatchesInsertAll(name, rest, other);
      CallsConcat(first, Batches(name, rest), other);
      assert first[..0] == [] && docs[..BATCH] + rest == docs;
      GoodBatchesConcat(first, Batches(name, rest));
    }
  }

  /** The index each listed spec comes back as. */
  function IndexModels(indexes: seq<seq<Elem>>): seq<IndexModel> {
    if indexes == [] then [] else IndexModels(indexes[..|indexes| - 1]) + [ToModel(Clean(indexes[|indexes| - 1]))]
  }

  lemma {:induction false} DocsReadBack(c: Codec, docs: seq<seq<Elem>>)
    requires CodecLaw(c)
    ensures Decodes(c, MarshalDocs(c, docs)) && Decoded(c, MarshalDocs(c, docs)) == docs
  {
    if docs != [] {
      var init, last := docs[..|docs| - 1], docs[|docs| - 1];
      DocsReadBack(c, init);
      DecodedSnoc(c, MarshalDocs(c, init), c.Marshal(last));
      assert docs == init + [last];
    }
  }

  lemma {:induction false} SpecsReadBack(c: Codec, indexes: seq<seq<Elem>>)
    requires CodecLaw(c)
    ensures Decodes(c, MarshalSpecs(c, indexes)) && Models(Decoded(c, MarshalSpecs(c, indexes))) == IndexModels(indexes)
  {
    if indexes != [] {
      var init, last := indexes[..|indexes| - 1], indexes[|indexes| - 1];
      SpecsReadBack(c, init);
      DecodedSnoc(c, MarshalSpecs(c, init), c.Marshal(Clean(last)));
    }
  }

  function MadeIndexes(s: Source): seq<Call> {
    if s.indexes == [] then [] else [CreateIndexes(s.name, IndexModels(s.indexes))]
  }

  lemma ReplayIs(c: Codec, s: Source)
    requires CodecLaw(c)
    ensures Readable(c, Encode(c, s)) && ReplayCollection(c, Encode(c, s)) == Batches(s.name, s.docs) + MadeIndexes(s)
  {
    DocsReadBack(c, s.docs);
    SpecsReadBack(c, s.indexes);
  }

  lemma MadeIndexesInsertNothing(s: Source, other: Bytes)
    ensures GoodBatches(MadeIndexes(s)) && InsertedInto(MadeIndexes(s), other) == []
    ensures IndexesOf(MadeIndexes(s), other) == if other == s.name then IndexModels(s.indexes) else []
  {
    if s.indexes == [] {
      assert other == s.name ==> IndexModels(s.indexes) == [];
    } else {
      var calls := MadeIndexes(s);
      assert calls[..0] == [];
      assert InsertedInto(calls[..0], other) == [] && IndexesOf(calls[..0], other) == [];
    }
  }

  lemma ReplayedCollection(c: Codec, s: Source, other: Bytes)
    requires CodecLaw(c)
    ensures Readable(c, Encode(c, s)) && GoodBatches(ReplayCollection(c, Encode(c, s)))
    ensures InsertedInto(ReplayCollection(c, Encode(c, s)), other) == if other == s.name then s.docs else []
    ensures IndexesOf(ReplayCollection(c, Encode(c, s)), other) == if other == s.name then IndexModels(s.indexes)
              else []
  {
    ReplayIs(c, s);
    BatchesInsertAll(s.name, s.docs, other);
    MadeIndexesInsertNothing(s, other);
    CallsConcat(Batches(s.name, s.docs), MadeIndexes(s), other);
    GoodBatchesConcat(Batches(s.name, s.docs), MadeIndexes(s));
  }

  /** What the listed collections called `name` hold, in listing order. */
  function DocsNamed(db: seq<Source>, name: Bytes): seq<seq<Elem>> {
    if db == [] then []
    else DocsNamed(db[..|db| - 1], name) + if db[|db| - 1].name == name then db[|db| - 1].docs else []
  }

  function ModelsNamed(db: seq<Source>, name: Bytes): seq<IndexModel> {
    if db == [] then []
    else ModelsNamed(db[..|db| - 1], name) + if db[|db| - 1].name == name then IndexModels(db[|db| - 1].indexes) else []
  }

  lemma EncodeAllSnoc(c: Codec, db: seq<Source>, s: Source)
    ensures EncodeAll(c, db + [s]) == EncodeAll(c, db) + [Encode(c, s)]
  {
    assert (db + [s])[..|db|] == db;
  }

  lemma GoodBatchesConcat(a: seq<Call>, b: seq<Call>)
    requires GoodBatches(a) && GoodBatches(b)
    ensures GoodBatches(a + b)
  {
  }

  /** The replay of a database is that of all but its last collection, and then that one's. */
  lemma ReplayLast(c: Codec, init: seq<Source>, last: Source)
    requires CodecLaw(c) && AllDecode(c, EncodeAll(c, init))
    ensures Readable(c, Encode(c, last)) && AllDecode(c, EncodeAll(c, init + [last]))
    ensures Replay(c, EncodeAll(c, init + [last]))
              == Replay(c, EncodeAll(c, init)) + ReplayCollection(c, Encode(c, last))
  {
    DocsReadBack(c, last.docs);
    SpecsReadBack(c, last.indexes);
    EncodeAllSnoc(c, init, last);
    ReplaySnoc(c, EncodeAll(c, init), Encode(c, last));
  }

  /** Replaying the dump of a database gives every name what the database holds for it. */
  ghost predicate Recovers(c: Codec, db: seq<Source>, name: Bytes) {
    var cs := EncodeAll(c, db);
    && AllDecode(c, cs) && GoodBatches(Replay(c, cs))
    && InsertedInto(Replay(c, cs), name) == DocsNamed(db, name)
    && IndexesOf(Replay(c, cs), name) == ModelsNamed(db, name)
  }

  lemma RecoversSnoc(c: Codec, init: seq<Source>, last: Source, name: Bytes)
    requires CodecLaw(c) && Recovers(c, init, name)
    ensures Recovers(c, init + [last], name)
  {
    ReplayLast(c, init, last);
    ReplayedCollection(c, last, name);
    var before, now := Replay(c, EncodeAll(c, init)), ReplayCollection(c, Encode(c, last));
    CallsConcat(before, now, name);
    GoodBatchesConcat(before, now);
    NamedSnoc(init, last, name);
  }

  lemma NamedSnoc(init: seq<Source>, last: Source, name: Bytes)
    ensures DocsNamed(init + [last], name) == DocsNamed(init, name) + if last.name == name then last.docs else []
    ensures ModelsNamed(init + [last], name) == ModelsNamed(init, name) + if last.name == name
              then IndexModels(last.indexes) else []
  {
    assert (init + [last])[..|init|] == init;
  }

  lemma {:induction false} ReplayRecovers(c: Codec, db: seq<Source>, name: Bytes)
    requires CodecLaw(c)
    ensures Recovers(c, db, name)
    decreases |db|
  {
    if db != [] {
      var init, last := db[..|db| - 1], db[|db| - 1];
      ReplayRecovers(c, init, name);
      RecoversSnoc(c, init, last, name);
      assert db == init + [last];
    }
  }

  ghost predicate DistinctNames(db: seq<Source>) {
    forall i, j :: 0 <= i < j < |db| ==> db[i].name != db[j].name
  }

  lemma {:induction false} UnlistedHoldsNothing(db: seq<Source>, name: Bytes)
    requires forall i :: 0 <= i < |db| ==> db[i].name != name
    ensures DocsNamed(db, name) == [] && ModelsNamed(db, name) == []
  {
    if db != [] {
      UnlistedHoldsNothing(db[..|db| - 1], name);
    }
  }

  lemma {:induction false} ListedHoldsItsOwn(db: seq<Source>, k: nat)
    requires DistinctNames(db) && k < |db|
    ensures DocsNamed(db, db[k].name) == db[k].docs && ModelsNamed(db, db[k].name) == IndexModels(db[k].indexes)
    decreases |db|
  {
    var init := db[..|db| - 1];
    if k == |init| {
      UnlistedHoldsNothing(init, db[k].name);
    } else {
      ListedHoldsItsOwn(init, k);
    }
  }

  ghost predicate AllComeBack(specs: seq<seq<Elem>>, models: seq<IndexModel>) {
    |models| == |specs| && forall i :: 0 <= i < |specs| ==> ComesBackAs(specs[i], models[i])
  }

  lemma {:induction false} IndexesComeBack(specs: seq<seq<Elem>>)
    ensures AllComeBack(specs, IndexModels(specs))
  {
    if specs != [] {
      var init, last := specs[..|specs| - 1], specs[|specs| - 1];
      IndexesComeBack(init);
      IndexComesBack(last);
      ComeBackSnoc(init, IndexModels(init), last, ToModel(Clean(last)));
      assert specs == init + [last];
    }
  }

  lemma ComeBackSnoc(specs: seq<seq<Elem>>, models: seq<IndexModel>, spec: seq<Elem>, m: IndexModel)
    requires AllComeBack(specs, models) && ComesBackAs(spec, m)
    ensures AllComeBack(specs + [spec], models + [m])
  {
    forall i | 0 <= i <= |specs| ensures ComesBackAs((specs + [spec])[i], (models + [m])[i]) {
      if i < |specs| {
        assert ComesBackAs(specs[i], models[i]);
      }
    }
  }

  /** Backing up a database and restoring the archive: it works exactly when no frame
      exceeds 256 MiB, and then every collection receives exactly its documents in
      order, in batches of 1 to 500, and for each of its specs the index that this says;
      no other collection receives anything. */
  lemma RestoreRecoversDatabase(c: Codec, db: seq<Source>)
    requires CodecLaw(c) && DistinctNames(db) && FitsCounters(EncodeAll(c, db))
    ensures Restorable(c, Archive(EncodeAll(c, db))) <==> AllSmall(EncodeAll(c, db))
    ensures AllSmall(EncodeAll(c, db)) ==>
              var calls := Replay(c, GetArchive(Archive(EncodeAll(c, db))).value.0);
              && GoodBatches(calls)
              && (forall k :: 0 <= k < |db| ==>
                   InsertedInto(calls, db[k].name) == db[k].docs
                   && IndexesOf(calls, db[k].name) == IndexModels(db[k].indexes)
                   && AllComeBack(db[k].indexes, IndexesOf(calls, db[k].name)))
              && (forall name :: (forall k :: 0 <= k < |db| ==> db[k].name != name) ==>
                   InsertedInto(calls, name) == [] && IndexesOf(calls, name) == [])
  {
    ArchiveRoundTrip(EncodeAll(c, db));
    ReplayRecovers(c, db, []);
    forall k | 0 <= k < |db|
      ensures DocsNamed(db, db[k].name) == db[k].docs && ModelsNamed(db, db[k].name) == IndexModels(db[k].indexes)
    {
      ListedHoldsItsOwn(db, k);
    }
    forall k | 0 <= k < |db| ensures AllComeBack(db[k].indexes, IndexModels(db[k].indexes)) {
      IndexesComeBack(db[k].indexes);
    }
    forall name
      ensures InsertedInto(Replay(c, EncodeAll(c, db)), name) == DocsNamed(db, name)
      ensures IndexesOf(Replay(c, EncodeAll(c, db)), name) == ModelsNamed(db, name)
    {
      ReplayRecovers(c, db, name);
    }
    forall name | forall k :: 0 <= k < |db| ==> db[k].name != name
      ensures DocsNamed(db, name) == [] && ModelsNamed(db, name) == []
    {
      UnlistedHoldsNothing(db, name);
    }
  }

  // ----- Truncated archives -----

  lemma Appended(b: Bytes, x: Bytes, n: nat)
    requires n <= |b|
    ensures (b + x)[..n] == b[..n] && (b + x)[n..] == b[n..] + x
  {
  }

  /** What was read of a file is read of a longer one. */
  lemma {:induction false} UvarintMore(src: Bytes, x: Bytes, i: nat)
    requires GetUvarint(src, i).Some?
    ensures var (v, rest) := GetUvarint(src, i).value; GetUvarint(src + x, i) == Some((v, rest + x))
    decreases |src|
  {
    Appended(src, x, 1);
    assert (src + x)[0] == src[0];
    if src[0] >= 128 {
      UvarintMore(src[1..], x, i + 1);
    }
  }

  lemma FrameMore(src: Bytes, x: Bytes)
    requires GetFrame(src).Some?
    ensures var (d, rest) := GetFrame(src).value; GetFrame(src + x) == Some((d, rest + x))
  {
    UvarintMore(src, x, 0);
    var (n, rest) := GetUvarint(src, 0).value;
    Appended(rest, x, n);
  }

  /** b is a scan of what a scans followed by x. */
  ghost predicate ScanExtends(a: Scanned, b: Scanned, x: Bytes) {
    a.docs <= b.docs && (a.ok ==> b == Scanned(true, a.docs, a.rest + x))
  }

  lemma OneScanExtends(c: Codec, a: Scanned, b: Scanned, x: Bytes)
    requires ScanExtends(a, b, x)
    ensures ScanExtends(ScanOne(c, a), ScanOne(c, b), x)
  {
    if a.ok && GetFrame(a.rest).Some? {
      FrameMore(a.rest, x);
    }
  }

  lemma {:induction false} ScanMore(c: Codec, src: Bytes, x: Bytes, n: nat)
    ensures ScanExtends(Scan(c, src, n), Scan(c, src + x, n), x)
  {
    if n > 0 {
      ScanMore(c, src, x, n - 1);
      OneScanExtends(c, Scan(c, src, n - 1), Scan(c, src + x, n - 1), x);
    }
  }

  lemma ScanListMore(c: Codec, src: Bytes, x: Bytes)
    ensures ScanExtends(ScanList(c, src), ScanList(c, src + x), x)
  {
    if GetUvarint(src, 0).Some? {
      UvarintMore(src, x, 0);
      ScanMore(c, GetUvarint(src, 0).value.1, x, GetUvarint(src, 0).value.0);
    }
  }

  /** b restores what a restores followed by x. */
  ghost predicate PartExtends(a: Part, b: Part, x: Bytes) {
    a.calls <= b.calls && (a.whole ==> b == Part(a.calls, true, a.rest + x))
  }

  lemma DocsExtend(name: Bytes, a: Scanned, b: Scanned, x: Bytes)
    requires ScanExtends(a, b, x)
    ensures PartExtends(DocsPart(name, a), DocsPart(name, b), x)
  {
    if !a.ok {
      BatchesPrefix(name, Whole(a.docs), b.docs);
    }
  }

  lemma CollectionMore(c: Codec, src: Bytes, x: Bytes)
    ensures PartExtends(CollectionPart(c, src), CollectionPart(c, src + x), x)
  {
    if GetFrame(src).Some? {
      FrameMore(src, x);
      var (name, r1) := GetFrame(src).value;
      ScanListMore(c, r1, x);
      var specs := ScanList(c, r1);
      if specs.ok {
        ScanListMore(c, specs.rest, x);
        DocsExtend(name, ScanList(c, specs.rest), ScanList(c, specs.rest + x), x);
      }
    }
  }

  lemma OnePartExtends(c: Codec, a: Part, b: Part, x: Bytes)
    requires PartExtends(a, b, x)
    ensures PartExtends(NextPart(c, a), NextPart(c, b), x)
  {
    if a.whole {
      CollectionMore(c, a.rest, x);
    }
  }

  lemma {:induction false} CollectionsMore(c: Codec, src: Bytes, x: Bytes, n: nat)
    ensures PartExtends(CollectionsPart(c, src, n), CollectionsPart(c, src + x, n), x)
  {
    if n > 0 {
      CollectionsMore(c, src, x, n - 1);
      OnePartExtends(c, CollectionsPart(c, src, n - 1), CollectionsPart(c, src + x, n - 1), x);
    }
  }

  lemma FileMore(c: Codec, file: Bytes, x: Bytes)
    ensures PartExtends(FilePart(c, file), FilePart(c, file + x), x)
  {
    if |file| >= 4 {
      Appended(file, x, 4);
      if file[..4] == MAGIC && GetUvarint(file[4..], 0).Some? {
        UvarintMore(file[4..], x, 0);
        CollectionsMore(c, GetUvarint(file[4..], 0).value.1, x, GetUvarint(file[4..], 0).value.0);
      }
    }
  }

  /** Restoring a written archive makes the calls of its replay and leaves nothing over. */
  lemma WholeArchive(c: Codec, db: seq<Source>)
    requires CodecLaw(c) && FitsCounters(EncodeAll(c, db)) && AllSmall(EncodeAll(c, db))
    ensures AllDecode(c, EncodeAll(c, db))
    ensures FilePart(c, Archive(EncodeAll(c, db))) == Part(Replay(c, EncodeAll(c, db)), true, [])
  {
    ArchiveRoundTrip(EncodeAll(c, db));
    ReplayRecovers(c, db, []);
    WholeFileIsReplay(c, Archive(EncodeAll(c, db)));
  }

  lemma CutIsNotWhole(c: Codec, file: Bytes, cut: nat)
    requires cut < |file| && FilePart(c, file).rest == []
    ensures !FilePart(c, file[..cut]).whole && FilePart(c, file[..cut]).calls <= FilePart(c, file).calls
  {
    assert file[..cut] + file[cut..] == file;
    FileMore(c, file[..cut], file[cut..]);
  }

  /** An archive cut short anywhere is noticed: the restore fails. What it has sent by
      then is the beginning of what the whole archive sends. */
  lemma TruncationIsNoticed(c: Codec, db: seq<Source>, cut: nat)
    requires CodecLaw(c) && FitsCounters(EncodeAll(c, db)) && AllSmall(EncodeAll(c, db))
    requires cut < |Archive(EncodeAll(c, db))|
    ensures AllDecode(c, EncodeAll(c, db))
    ensures var p := FilePart(c, Archive(EncodeAll(c, db))[..cut]);
            !p.whole && p.calls <= Replay(c, EncodeAll(c, db))
  {
    WholeArchive(c, db);
    CutIsNotWhole(c, Archive(EncodeAll(c, db)), cut);
  }
}
