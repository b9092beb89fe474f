/**
 Index specs of a Mongo database: cleaned of server-stamped fields when they are backed up,
 and split into keys and options when they are restored.
 */
module MongoIndex {
  import opened Common

  datatype Value = Doc(doc: seq<Elem>) | Str(s: string) | Bool(b: bool) | Int32(i: int) | Int64(i: int)
      | Other(raw: Bytes)
  datatype Elem = Elem(key: string, value: Value)

  datatype IndexOptions = IndexOptions(name: Option<string>, unique: Option<bool>, sparse: Option<bool>,
      expireAfter: Option<int>)
  datatype IndexModel = IndexModel(keys: seq<Elem>, options: Option<IndexOptions>)

  const NO_OPTIONS := IndexOptions(None, None, None, None)

  /** Server-stamped fields are dropped before an index spec is stored. */
  function Clean(spec: seq<Elem>): seq<Elem> {
    if spec == [] then []
    else
      var e := spec[|spec| - 1];
      Clean(spec[..|spec| - 1]) + if e.key == "ns" || e.key == "v" then [] else [e]
  }

  predicate IsKey(e: Elem) {
    e.key == "key" && e.value.Doc?
  }

  /** The last `key` document, if any. */
  function KeyDoc(spec: seq<Elem>): seq<Elem> {
    if spec == [] then []
    else if IsKey(spec[|spec| - 1]) then spec[|spec| - 1].value.doc
    else KeyDoc(spec[..|spec| - 1])
  }

  function OptDoc(spec: seq<Elem>): seq<Elem> {
    if spec == [] then []
    else OptDoc(spec[..|spec| - 1]) + if IsKey(spec[|spec| - 1]) then [] else [spec[|spec| - 1]]
  }

  function Wrap32(i: int): int {
    var m := i % 0x1_0000_0000;
    if m < 0x8000_0000 then m else m - 0x1_0000_0000
  }

  /** One option element; kinds and keys the restore does not know are ignored. */
  function SetOption(o: IndexOptions, e: Elem): IndexOptions {
    if e.key == "name" && e.value.Str? then o.(name := Some(e.value.s))
    else if e.key == "unique" && e.value.Bool? then o.(unique := Some(e.value.b))
    else if e.key == "sparse" && e.value.Bool? then o.(sparse := Some(e.value.b))
    else if e.key == "expireAfterSeconds" && e.value.Int32? then o.(expireAfter := Some(e.value.i))
    else if e.key == "expireAfterSeconds" && e.value.Int64? then o.(expireAfter := Some(Wrap32(e.value.i)))
    else o
  }

  function SetOptions(opts: seq<Elem>): IndexOptions {
    if opts == [] then NO_OPTIONS else SetOption(SetOptions(opts[..|opts| - 1]), opts[|opts| - 1])
  }

  /** The value of the last option with this key and of a fitting kind. */
  function LastOption(opts: seq<Elem>, key: string, fits: Value -> bool): Option<Value> {
    if opts == [] then None
    else
      var e := opts[|opts| - 1];
      if e.key == key && fits(e.value) then Some(e.value) else LastOption(opts[..|opts| - 1], key, fits)
  }

  predicate IsText(v: Value) {
    v.Str?
  }

  predicate IsFlag(v: Value) {
    v.Bool?
  }

  predicate IsWhole(v: Value) {
    v.Int32? || v.Int64?
  }

  function TextOf(v: Option<Value>): Option<string> {
    if v.Some? && v.value.Str? then Some(v.value.s) else None
  }

  function FlagOf(v: Option<Value>): Option<bool> {
    if v.Some? && v.value.Bool? then Some(v.value.b) else None
  }

  function SecondsOf(v: Option<Value>): Option<int> {
    if v.Some? && v.value.Int32? then Some(v.value.i)
    else if v.Some? && v.value.Int64? then Some(Wrap32(v.value.i))
    else None
  }

  /** Each of the four known options is what its last well-typed occurrence says. */
  lemma {:induction false} OptionsAreLast(opts: seq<Elem>)
    ensures var o := SetOptions(opts);
            && o.name == TextOf(LastOption(opts, "name", IsText))
            && o.unique == FlagOf(LastOption(opts, "unique", IsFlag))
            && o.sparse == FlagOf(LastOption(opts, "sparse", IsFlag))
            && o.expireAfter == SecondsOf(LastOption(opts, "expireAfterSeconds", IsWhole))
  {
    if opts != [] {
      OptionsAreLast(opts[..|opts| - 1]);
    }
  }

  /** The index the restore creates from a stored spec. */
  function ToModel(spec: seq<Elem>): IndexModel {
    if KeyDoc(spec) == [] then IndexModel(spec, None)
    else IndexModel(KeyDoc(spec), if OptDoc(spec) == [] then None else Some(SetOptions(OptDoc(spec))))
  }

  /** Splits a stored spec into the keys and the options of its index. */
  method SplitSpec(spec: seq<Elem>) returns (m: IndexModel)
    ensures m == ToModel(spec) && SplitsInto(spec, m)
  {
    m := Split(spec);
    ModelSplits(spec);
  }

  method Split(spec: seq<Elem>) returns (m: IndexModel)
    ensures m == ToModel(spec)
  {
    var keyDoc: seq<Elem>, optDoc: seq<Elem> := [], [];
    for i := 0 to |spec|
      invariant keyDoc == KeyDoc(spec[..i]) && optDoc == OptDoc(spec[..i])
    {
      assert spec[..i + 1][..i] == spec[..i];
      if spec[i].key == "key" && spec[i].value.Doc? {
        keyDoc := spec[i].value.doc;
      } else {
        optDoc := optDoc + [spec[i]];
      }
    }
    assert spec[..|spec|] == spec;
    if keyDoc == [] {
      return IndexModel(spec, None);
    }
    if optDoc == [] {
      return IndexModel(keyDoc, None);
    }
    var options := NO_OPTIONS;
    for i := 0 to |optDoc|
      invariant options == SetOptions(optDoc[..i])
    {
      assert optDoc[..i + 1][..i] == optDoc[..i];
      options := SetOption(options, optDoc[i]);
    }
    assert optDoc[..|optDoc|] == optDoc;
    return IndexModel(keyDoc, Some(options));
  }

  method CleanSpec(spec: seq<Elem>) returns (clean: seq<Elem>)
    ensures clean == Clean(spec) && exists picks :: Unstamped(spec, clean, picks)
  {
    ghost var picks := CleanIsUnstamped(spec);
    clean := [];
    for i := 0 to |spec|
      invariant clean == Clean(spec[..i])
    {
      assert spec[..i + 1][..i] == spec[..i];
      if spec[i].key != "ns" && spec[i].key != "v" {
        clean := clean + [spec[i]];
      }
    }
    assert spec[..|spec|] == spec;
  }

  // ----- What a restored index is, in terms of the spec -----

  /** Element i is the last `key` document of the spec. */
  predicate LastKeyAt(spec: seq<Elem>, i: nat) {
    i < |spec| && IsKey(spec[i]) && forall j :: i < j < |spec| ==> !IsKey(spec[j])
  }

  /** Element i is the last with this key and a value of a fitting kind. */
  predicate LastAt(spec: seq<Elem>, key: string, fits: Value -> bool, i: nat) {
    && i < |spec| && spec[i].key == key && fits(spec[i].value)
    && forall j :: i < j < |spec| ==> !(spec[j].key == key && fits(spec[j].value))
  }

  ghost predicate HasKeys(spec: seq<Elem>) {
    exists i: nat :: LastKeyAt(spec, i) && spec[i].value.doc != []
  }

  predicate Stamped(e: Elem) {
    e.key == "ns" || e.key == "v"
  }

  /** `out` is what is left of the spec, in order, when the stamped elements are dropped:
      `picks` are the places it comes from. */
  ghost predicate Unstamped(spec: seq<Elem>, out: seq<Elem>, picks: seq<nat>) {
    && |picks| == |out|
    && (forall j :: 0 <= j < |out| ==> picks[j] < |spec| && out[j] == spec[picks[j]] && !Stamped(out[j]))
    && (forall j, k :: 0 <= j < k < |picks| ==> picks[j] < picks[k])
    && (forall i :: 0 <= i < |spec| && !Stamped(spec[i]) ==> i in picks)
  }

  /** n is the low 32 bits of i, as a signed number. */
  predicate Low32(i: int, n: int) {
    -0x8000_0000 <= n < 0x8000_0000 && (n - i) % 0x1_0000_0000 == 0
  }

  /** An expiry is a whole number, cut to 32 bits. */
  predicate SaysSeconds(v: Value, n: int) {
    || v == Int32(n)
    || (v.Int64? && Low32(v.i, n))
  }

  /** The options say of each of the four what its last well-typed occurrence says, and
      nothing of those that do not occur. */
  ghost predicate OptionsOf(spec: seq<Elem>, o: IndexOptions) {
    && (forall t :: o.name == Some(t) <==>
         exists i: nat :: LastAt(spec, "name", IsText, i) && spec[i].value == Str(t))
    && (forall b :: o.unique == Some(b) <==>
         exists i: nat :: LastAt(spec, "unique", IsFlag, i) && spec[i].value == Bool(b))
    && (forall b :: o.sparse == Some(b) <==>
         exists i: nat :: LastAt(spec, "sparse", IsFlag, i) && spec[i].value == Bool(b))
    && (forall n :: o.expireAfter == Some(n) <==>
         exists i: nat :: LastAt(spec, "expireAfterSeconds", IsWhole, i) && SaysSeconds(spec[i].value, n))
  }

  /** m is the index a listed spec comes back as. */
  ghost predicate ComesBackAs(spec: seq<Elem>, m: IndexModel) {
    if HasKeys(spec) then
      && (forall i: nat :: LastKeyAt(spec, i) ==> m.keys == spec[i].value.doc)
      && (m.options.None? <==> OnlyKeys(spec))
      && (m.options.Some? ==> OptionsOf(spec, m.options.value))
    else
      m.options.None? && exists picks :: Unstamped(spec, m.keys, picks)
  }

  lemma {:induction false} LastKeyIsKeyDoc(spec: seq<Elem>)
    ensures forall i: nat :: LastKeyAt(spec, i) ==> KeyDoc(spec) == spec[i].value.doc
    ensures KeyDoc(spec) != [] ==> exists i: nat :: LastKeyAt(spec, i)
  {
    if spec != [] {
      var init, n := spec[..|spec| - 1], |spec| - 1;
      LastKeyIsKeyDoc(init);
      if IsKey(spec[n]) {
        assert LastKeyAt(spec, n);
      } else {
        assert forall i: nat :: LastKeyAt(spec, i) <==> LastKeyAt(init, i);
      }
    }
  }

  lemma HasKeysIff(spec: seq<Elem>)
    ensures HasKeys(spec) <==> KeyDoc(spec) != []
  {
    LastKeyIsKeyDoc(spec);
  }

  lemma CleanSnoc(spec: seq<Elem>)
    requires spec != []
    ensures var init, e := Clean(spec[..|spec| - 1]), spec[|spec| - 1];
            Clean(spec) == if Stamped(e) then init else init + [e]
  {
  }

  lemma {:induction false} KeyDocOfClean(spec: seq<Elem>)
    ensures KeyDoc(Clean(spec)) == KeyDoc(spec)
  {
    if spec != [] {
      CleanSnoc(spec);
      KeyDocOfClean(spec[..|spec| - 1]);
    }
  }

  lemma OptDocSnoc(spec: seq<Elem>, e: Elem)
    ensures OptDoc(spec + [e]) == if IsKey(e) then OptDoc(spec) else OptDoc(spec) + [e]
  {
    assert (spec + [e])[..|spec|] == spec;
  }

  predicate OnlyKeys(spec: seq<Elem>) {
    forall i :: 0 <= i < |spec| ==> Stamped(spec[i]) || IsKey(spec[i])
  }

  lemma OnlyKeysSnoc(spec: seq<Elem>, e: Elem)
    ensures OnlyKeys(spec + [e]) <==> OnlyKeys(spec) && (Stamped(e) || IsKey(e))
  {
    if OnlyKeys(spec + [e]) {
      assert (spec + [e])[|spec|] == e && forall i :: 0 <= i < |spec| ==> (spec + [e])[i] == spec[i];
    }
  }

  lemma {:induction false} NothingButKeys(spec: seq<Elem>)
    ensures OptDoc(Clean(spec)) == [] <==> OnlyKeys(spec)
  {
    if spec != [] {
      var init, e := spec[..|spec| - 1], spec[|spec| - 1];
      CleanSnoc(spec);
      NothingButKeys(init);
      OptDocSnoc(Clean(init), e);
      OnlyKeysSnoc(init, e);
      assert spec == init + [e];
    }
  }

  lemma LastOptionSnoc(opts: seq<Elem>, e: Elem, key: string, fits: Value -> bool)
    ensures LastOption(opts + [e], key, fits)
            == if e.key == key && fits(e.value) then Some(e.value) else LastOption(opts, key, fits)
  {
    assert (opts + [e])[..|opts|] == opts;
  }

  lemma {:induction false} OptionOfClean(spec: seq<Elem>, key: string, fits: Value -> bool)
    requires key != "ns" && key != "v"
    ensures LastOption(Clean(spec), key, fits) == LastOption(spec, key, fits)
  {
    if spec != [] {
      var init, e := spec[..|spec| - 1], spec[|spec| - 1];
      CleanSnoc(spec);
      OptionOfClean(init, key, fits);
      LastOptionSnoc(Clean(init), e, key, fits);
    }
  }

  lemma {:induction false} OptionOfOptDoc(spec: seq<Elem>, key: string, fits: Value -> bool)
    requires key != "key"
    ensures LastOption(OptDoc(spec), key, fits) == LastOption(spec, key, fits)
  {
    if spec != [] {
      var init, e := spec[..|spec| - 1], spec[|spec| - 1];
      OptionOfOptDoc(init, key, fits);
      OptDocSnoc(init, e);
      assert spec == init + [e];
      LastOptionSnoc(OptDoc(init), e, key, fits);
    }
  }

  lemma {:induction false} LastOptionIsLast(spec: seq<Elem>, key: string, fits: Value -> bool)
    ensures forall i: nat :: LastAt(spec, key, fits, i) ==> LastOption(spec, key, fits) == Some(spec[i].value)
    ensures LastOption(spec, key, fits).Some? ==> exists i: nat :: LastAt(spec, key, fits, i)
    ensures LastOption(spec, key, fits).Some? ==> fits(LastOption(spec, key, fits).value)
  {
    if spec != [] {
      var init, n := spec[..|spec| - 1], |spec| - 1;
      LastOptionIsLast(init, key, fits);
      if spec[n].key == key && fits(spec[n].value) {
        assert LastAt(spec, key, fits, n);
      } else {
        assert forall i: nat :: LastAt(spec, key, fits, i) <==> LastAt(init, key, fits, i);
      }
    }
  }

  lemma {:induction false} CleanIsUnstamped(spec: seq<Elem>) returns (picks: seq<nat>)
    ensures Unstamped(spec, Clean(spec), picks)
  {
    picks := [];
    if spec != [] {
      CleanSnoc(spec);
      picks := CleanIsUnstamped(spec[..|spec| - 1]);
      UnstampedSnoc(spec[..|spec| - 1], spec[|spec| - 1], Clean(spec[..|spec| - 1]), picks);
      assert spec == spec[..|spec| - 1] + [spec[|spec| - 1]];
      if !Stamped(spec[|spec| - 1]) {
        picks := picks + [|spec| - 1];
      }
    }
  }

  lemma UnstampedSnoc(spec: seq<Elem>, e: Elem, out: seq<Elem>, picks: seq<nat>)
    requires Unstamped(spec, out, picks)
    ensures if Stamped(e) then Unstamped(spec + [e], out, picks)
            else Unstamped(spec + [e], out + [e], picks + [|spec|])
  {
    forall i | 0 <= i < |spec| && !Stamped((spec + [e])[i]) ensures i in picks {
      assert (spec + [e])[i] == spec[i];
    }
  }

  /** The two lists say the same of the four options. */
  predicate SameOptions(a: seq<Elem>, b: seq<Elem>) {
    && LastOption(a, "name", IsText) == LastOption(b, "name", IsText)
    && LastOption(a, "unique", IsFlag) == LastOption(b, "unique", IsFlag)
    && LastOption(a, "sparse", IsFlag) == LastOption(b, "sparse", IsFlag)
    && LastOption(a, "expireAfterSeconds", IsWhole) == LastOption(b, "expireAfterSeconds", IsWhole)
  }

  lemma OptDocSaysTheSame(spec: seq<Elem>)
    ensures SameOptions(OptDoc(spec), spec)
  {
    OptionOfOptDoc(spec, "name", IsText);
    OptionOfOptDoc(spec, "unique", IsFlag);
    OptionOfOptDoc(spec, "sparse", IsFlag);
    OptionOfOptDoc(spec, "expireAfterSeconds", IsWhole);
  }

  lemma CleanSaysTheSame(spec: seq<Elem>)
    ensures SameOptions(Clean(spec), spec)
  {
    OptionOfClean(spec, "name", IsText);
    OptionOfClean(spec, "unique", IsFlag);
    OptionOfClean(spec, "sparse", IsFlag);
    OptionOfClean(spec, "expireAfterSeconds", IsWhole);
  }

  lemma WrapIsLow32(i: int, n: int)
    ensures Wrap32(i) == n <==> Low32(i, n)
  {
  }

  lemma SecondsAreSaid(v: Value, n: int)
    requires IsWhole(v)
    ensures SecondsOf(Some(v)) == Some(n) <==> SaysSeconds(v, n)
  {
    if v.Int64? {
      WrapIsLow32(v.i, n);
    }
  }

  lemma ExpiryIsLast(spec: seq<Elem>, o: IndexOptions)
    requires o.expireAfter == SecondsOf(LastOption(spec, "expireAfterSeconds", IsWhole))
    ensures forall n :: o.expireAfter == Some(n) <==>
              exists i: nat :: LastAt(spec, "expireAfterSeconds", IsWhole, i) && SaysSeconds(spec[i].value, n)
  {
    LastOptionIsLast(spec, "expireAfterSeconds", IsWhole);
    var last := LastOption(spec, "expireAfterSeconds", IsWhole);
    if last.Some? {
      forall n ensures SecondsOf(last) == Some(n) <==> SaysSeconds(last.value, n) {
        SecondsAreSaid(last.value, n);
      }
    }
  }

  lemma OptionsAreThose(spec: seq<Elem>, opts: seq<Elem>)
    requires SameOptions(opts, spec)
    ensures OptionsOf(spec, SetOptions(opts))
  {
    OptionsAreLast(opts);
    LastOptionIsLast(spec, "name", IsText);
    LastOptionIsLast(spec, "unique", IsFlag);
    LastOptionIsLast(spec, "sparse", IsFlag);
    ExpiryIsLast(spec, SetOptions(opts));
  }

  /** m is what a stored spec is split into. */
  ghost predicate SplitsInto(spec: seq<Elem>, m: IndexModel) {
    if HasKeys(spec) then
      && (forall i: nat :: LastKeyAt(spec, i) ==> m.keys == spec[i].value.doc)
      && (m.options.None? <==> forall i :: 0 <= i < |spec| ==> IsKey(spec[i]))
      && (m.options.Some? ==> OptionsOf(spec, m.options.value))
    else m == IndexModel(spec, None)
  }

  lemma {:induction false} OptDocEmpty(spec: seq<Elem>)
    ensures OptDoc(spec) == [] <==> forall i :: 0 <= i < |spec| ==> IsKey(spec[i])
  {
    if spec != [] {
      var init, e := spec[..|spec| - 1], spec[|spec| - 1];
      OptDocEmpty(init);
      OptDocSnoc(init, e);
      assert spec == init + [e];
    }
  }

  lemma ModelSplits(spec: seq<Elem>)
    ensures SplitsInto(spec, ToModel(spec))
  {
    LastKeyIsKeyDoc(spec);
    HasKeysIff(spec);
    OptDocEmpty(spec);
    OptDocSaysTheSame(spec);
    OptionsAreThose(spec, OptDoc(spec));
  }

  /** What is restored of any listed spec: its last key document, or the whole unstamped spec
      if it has none or that is empty, and of every known option what it says last. */
  lemma IndexComesBack(spec: seq<Elem>)
    ensures ComesBackAs(spec, ToModel(Clean(spec)))
  {
    LastKeyIsKeyDoc(spec);
    HasKeysIff(spec);
    KeyDocOfClean(spec);
    NothingButKeys(spec);
    OptDocSaysTheSame(Clean(spec));
    CleanSaysTheSame(spec);
    OptionsAreThose(spec, OptDoc(Clean(spec)));
    if !HasKeys(spec) {
      var picks := CleanIsUnstamped(spec);
    }
  }
}
