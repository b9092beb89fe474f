/**
 Which BSON documents come through a JSON dump as they were. Relaxed extended JSON writes
 64-bit integers like 32-bit ones, mends text that is no UTF-8, and writes a document as it
 is even where its first key is one that stands for a type when it is read.
 */
module BsonJson {
  import opened Common
  import opened MongoExport

  /** Text as it is stored: characters, and bytes that are part of none. */
  datatype Rune = Good(c: char) | Bad(b: byte)

  type Text = seq<Rune>

  function Chars(s: string): Text {
    seq(|s|, i requires 0 <= i < |s| => Good(s[i]))
  }

  /** A BSON value. `Rest` is every kind whose relaxed rendering keeps it apart: booleans,
      doubles, dates, object ids and so on. */
  datatype Bson = Int32(i: int) | Int64(i: int) | Str(text: Text) | List(items: Items) | Nested(members: Members)
                | Rest(kind: nat)
  datatype Items = NoItem | Item(head: Bson, tail: Items)
  datatype Members = NoMember | Member(key: Text, value: Bson, rest: Members)

  // ----- What relaxed JSON forgets -----

  /** A bare number that fits 32 bits is read as a 32-bit one. */
  predicate Fits32(i: int) {
    -0x8000_0000 <= i < 0x8000_0000
  }

  function Mend(t: Text): Text {
    seq(|t|, i requires 0 <= i < |t| => if t[i].Bad? then Good('\U{FFFD}') else t[i])
  }

  predicate Broken(t: Text) {
    exists i :: 0 <= i < |t| && t[i].Bad?
  }

  function Relax(v: Bson): Bson
    decreases v
  {
    match v
    case Int64(i) => if Fits32(i) then Int32(i) else v
    case Str(text) => Str(Mend(text))
    case List(items) => List(RelaxItems(items))
    case Nested(members) => Nested(RelaxMembers(members))
    case _ => v
  }

  function RelaxItems(items: Items): Items
    decreases items
  {
    if items.NoItem? then NoItem else Item(Relax(items.head), RelaxItems(items.tail))
  }

  function RelaxMembers(members: Members): Members
    decreases members
  {
    if members.NoMember? then NoMember
    else Member(Mend(members.key), Relax(members.value), RelaxMembers(members.rest))
  }

  /** Somewhere in the value is a 64-bit integer that would fit 32 bits, or broken text. */
  predicate Forgets(v: Bson)
    decreases v
  {
    match v
    case Int64(i) => Fits32(i)
    case Str(text) => Broken(text)
    case List(items) => ItemsForget(items)
    case Nested(members) => MembersForget(members)
    case _ => false
  }

  predicate ItemsForget(items: Items)
    decreases items
  {
    items.Item? && (Forgets(items.head) || ItemsForget(items.tail))
  }

  predicate MembersForget(members: Members)
    decreases members
  {
    members.Member? && (Broken(members.key) || Forgets(members.value) || MembersForget(members.rest))
  }

  lemma MendKeepsIff(t: Text)
    ensures Mend(t) == t <==> !Broken(t)
  {
    if i :| 0 <= i < |t| && t[i].Bad? {
      assert Mend(t)[i] != t[i];
    }
  }

  lemma {:induction false} RelaxKeepsIff(v: Bson)
    ensures Relax(v) == v <==> !Forgets(v)
    decreases v
  {
    match v
    case Str(text) => MendKeepsIff(text);
    case List(items) => RelaxItemsKeepsIff(items);
    case Nested(members) => RelaxMembersKeepsIff(members);
    case _ =>
  }

  lemma {:induction false} RelaxItemsKeepsIff(items: Items)
    ensures RelaxItems(items) == items <==> !ItemsForget(items)
    decreases items
  {
    if items.Item? {
      RelaxKeepsIff(items.head);
      RelaxItemsKeepsIff(items.tail);
    }
  }

  lemma {:induction false} RelaxMembersKeepsIff(members: Members)
    ensures RelaxMembers(members) == members <==> !MembersForget(members)
    decreases members
  {
    if members.Member? {
      MendKeepsIff(members.key);
      RelaxKeepsIff(members.value);
      RelaxMembersKeepsIff(members.rest);
    }
  }

  // ----- What is read as something else -----

  /** Somewhere in the value is a document whose first key stands for a type. */
  predicate Wraps(wrapper: Text -> bool, v: Bson)
    decreases v
  {
    match v
    case List(items) => ItemsWrap(wrapper, items)
    case Nested(members) => (members.Member? && wrapper(members.key)) || MembersWrap(wrapper, members)
    case _ => false
  }

  predicate ItemsWrap(wrapper: Text -> bool, items: Items)
    decreases items
  {
    items.Item? && (Wraps(wrapper, items.head) || ItemsWrap(wrapper, items.tail))
  }

  /** For a document at the top, whose own first key is taken as it is. */
  predicate MembersWrap(wrapper: Text -> bool, members: Members)
    decreases members
  {
    members.Member? && (Wraps(wrapper, members.value) || MembersWrap(wrapper, members.rest))
  }

  // ----- Somewhere in a value -----

  predicate InItems(items: Items, v: Bson) {
    items.Item? && (items.head == v || InItems(items.tail, v))
  }

  predicate InMembers(members: Members, v: Bson) {
    members.Member? && (members.value == v || InMembers(members.rest, v))
  }

  /** v is an element of the list or the value of a member. */
  predicate Holds(whole: Bson, v: Bson) {
    (whole.List? && InItems(whole.items, v)) || (whole.Nested? && InMembers(whole.members, v))
  }

  /** From a value to one inside it, each holding the next. */
  predicate Chain(vs: seq<Bson>) {
    vs != [] && forall i :: 0 <= i < |vs| - 1 ==> Holds(vs[i], vs[i + 1])
  }

  predicate Ends(vs: seq<Bson>, v: Bson, at: Bson -> bool) {
    Chain(vs) && vs[0] == v && at(vs[|vs| - 1])
  }

  ghost predicate Somewhere(v: Bson, at: Bson -> bool) {
    exists vs :: Ends(vs, v, at)
  }

  lemma HeldSomewhere(whole: Bson, v: Bson, at: Bson -> bool)
    requires Holds(whole, v) && Somewhere(v, at)
    ensures Somewhere(whole, at)
  {
    var vs :| Ends(vs, v, at);
    assert Ends([whole] + vs, whole, at);
  }

  /** A value in one it holds, or the value itself. */
  lemma SomewhereInside(v: Bson, at: Bson -> bool) returns (part: Bson)
    requires Somewhere(v, at)
    ensures (part == v && at(v)) || (Holds(v, part) && Somewhere(part, at))
  {
    var vs :| Ends(vs, v, at);
    if |vs| == 1 {
      part := v;
    } else {
      part := vs[1];
      assert Ends(vs[1..], part, at);
    }
  }

  /** What relaxed JSON forgets of a value by itself: the width of an integer, text that is no
      UTF-8, a member's key that is none. */
  predicate Loses(v: Bson) {
    match v
    case Int64(i) => Fits32(i)
    case Str(text) => Broken(text)
    case Nested(members) => BrokenKey(members)
    case _ => false
  }

  predicate BrokenKey(members: Members) {
    members.Member? && (Broken(members.key) || BrokenKey(members.rest))
  }

  /** A document whose first key stands for a type. */
  function BeginsWithType(wrapper: Text -> bool): Bson -> bool {
    (v: Bson) => v.Nested? && v.members.Member? && wrapper(v.members.key)
  }

  /** A value is changed exactly when somewhere in it, at any depth, something is lost. */
  lemma {:induction false} ForgetsIffSomewhere(v: Bson)
    ensures Forgets(v) <==> Somewhere(v, Loses)
    decreases v
  {
    if Loses(v) {
      assert Ends([v], v, Loses);
    }
    match v {
      case List(items) => ItemsForgetIff(items);
      case Nested(members) => MembersForgetIff(members);
      case _ =>
    }
    if Somewhere(v, Loses) {
      var part := SomewhereInside(v, Loses);
    }
    if Forgets(v) && !Loses(v) {
      var part :| Holds(v, part) && Somewhere(part, Loses);
      HeldSomewhere(v, part, Loses);
    }
  }

  lemma {:induction false} ItemsForgetIff(items: Items)
    ensures ItemsForget(items) <==> exists v :: InItems(items, v) && Somewhere(v, Loses)
    decreases items
  {
    if items.Item? {
      ForgetsIffSomewhere(items.head);
      ItemsForgetIff(items.tail);
    }
  }

  lemma {:induction false} MembersForgetIff(members: Members)
    ensures MembersForget(members) <==>
              BrokenKey(members) || exists v :: InMembers(members, v) && Somewhere(v, Loses)
    decreases members
  {
    if members.Member? {
      ForgetsIffSomewhere(members.value);
      MembersForgetIff(members.rest);
    }
  }

  lemma {:induction false} WrapsIffSomewhere(wrapper: Text -> bool, v: Bson)
    ensures Wraps(wrapper, v) <==> Somewhere(v, BeginsWithType(wrapper))
    decreases v
  {
    var at := BeginsWithType(wrapper);
    if at(v) {
      assert Ends([v], v, at);
    }
    match v {
      case List(items) => ItemsWrapIff(wrapper, items);
      case Nested(members) => MembersWrapIff(wrapper, members);
      case _ =>
    }
    if Somewhere(v, at) {
      var part := SomewhereInside(v, at);
    }
    if Wraps(wrapper, v) && !at(v) {
      var part :| Holds(v, part) && Somewhere(part, at);
      HeldSomewhere(v, part, at);
    }
  }

  lemma {:induction false} ItemsWrapIff(wrapper: Text -> bool, items: Items)
    ensures ItemsWrap(wrapper, items) <==>
              exists v :: InItems(items, v) && Somewhere(v, BeginsWithType(wrapper))
    decreases items
  {
    if items.Item? {
      WrapsIffSomewhere(wrapper, items.head);
      ItemsWrapIff(wrapper, items.tail);
    }
  }

  /** A document is taken for something else exactly when somewhere inside one of its values,
      at any depth, is a document whose first key stands for a type. */
  lemma {:induction false} MembersWrapIff(wrapper: Text -> bool, members: Members)
    ensures MembersWrap(wrapper, members) <==>
              exists v :: InMembers(members, v) && Somewhere(v, BeginsWithType(wrapper))
    decreases members
  {
    if members.Member? {
      WrapsIffSomewhere(wrapper, members.value);
      MembersWrapIff(wrapper, members.rest);
    }
  }

  // ----- Documents that come through -----

  /** The codec is that of BSON documents; `wrapper` knows the keys that stand for a type. */
  ghost predicate BsonLaw(c: Json<Members>, wrapper: Text -> bool) {
    forall d :: c.Relaxed(d) == RelaxMembers(d) && c.Wrapped(d) == MembersWrap(wrapper, d)
  }

  ghost predicate NothingIsLost(db: seq<Collection<Members>>) {
    forall k, i :: 0 <= k < |db| && 0 <= i < |db[k].docs| ==> !Somewhere(Nested(db[k].docs[i]), Loses)
  }

  ghost predicate NoneWraps(wrapper: Text -> bool, db: seq<Collection<Members>>) {
    forall k, i, v :: 0 <= k < |db| && 0 <= i < |db[k].docs| && InMembers(db[k].docs[i], v) ==>
      !Somewhere(v, BeginsWithType(wrapper))
  }

  /** A dump sends exactly the documents that were dumped if and only if its names, markers
      and lines are in order, no document holds, at any depth, a 64-bit integer that would fit
      32 bits or text that is no UTF-8, and none holds a document whose first key stands for a
      type. */
  lemma JsonKeepsDocumentsIff(c: Json<Members>, wrapper: Text -> bool, db: seq<Collection<Members>>)
    requires JsonLaw(c) && BsonLaw(c, wrapper) && Named(db)
    ensures Replayed(c, db).ok && Replayed(c, db).all == Everything(db)
            <==> AllPlain(c, db) && NothingIsLost(db) && NoneWraps(wrapper, db)
  {
    JsonReplaysExactlyIff(c, db);
    forall k, i | 0 <= k < |db| && 0 <= i < |db[k].docs|
      ensures c.Relaxed(db[k].docs[i]) == db[k].docs[i] <==> !Somewhere(Nested(db[k].docs[i]), Loses)
      ensures c.Wrapped(db[k].docs[i]) <==>
                exists v :: InMembers(db[k].docs[i], v) && Somewhere(v, BeginsWithType(wrapper))
    {
      RelaxMembersKeepsIff(db[k].docs[i]);
      ForgetsIffSomewhere(Nested(db[k].docs[i]));
      MembersWrapIff(wrapper, db[k].docs[i]);
    }
  }

  /** The dump of one document in one collection. */
  function OneDoc(name: string, d: Members): seq<Collection<Members>> {
    [Collection(name, [d])]
  }

  lemma EverythingOfOne(name: string, d: Members)
    ensures Everything(OneDoc(name, d)) == [(name, d)]
  {
    var db := OneDoc(name, d);
    assert db[..0] == [] && Everything(db[..0]) == [];
  }

  /** A document with the 64-bit integer 5 comes back with a 32-bit one. */
  lemma Int64Example(c: Json<Members>, wrapper: Text -> bool, name: string)
    requires JsonLaw(c) && BsonLaw(c, wrapper) && name != ""
    requires AllPlain(c, OneDoc(name, Member(Chars("n"), Int64(5), NoMember)))
    ensures Replayed(c, OneDoc(name, Member(Chars("n"), Int64(5), NoMember))).all
            == [(name, Member(Chars("n"), Int32(5), NoMember))]
  {
    var d := Member(Chars("n"), Int64(5), NoMember);
    var db := OneDoc(name, d);
    JsonReplaysRelaxedIff(c, db);
    MapDumpOfOne(c.Relaxed, name, d);
    EverythingOfOne(name, c.Relaxed(d));
    FiveIsRelaxed();
    NothingWrapped(c, wrapper, name);
  }

  lemma MapDumpOfOne(f: Members -> Members, name: string, d: Members)
    ensures MapDump(f, OneDoc(name, d)) == OneDoc(name, f(d))
  {
    assert MapDump(f, OneDoc(name, d))[0].docs == [f(d)];
  }

  lemma FiveIsRelaxed()
    ensures RelaxMembers(Member(Chars("n"), Int64(5), NoMember)) == Member(Chars("n"), Int32(5), NoMember)
  {
    MendKeepsIff(Chars("n"));
  }

  lemma NothingWrapped(c: Json<Members>, wrapper: Text -> bool, name: string)
    requires BsonLaw(c, wrapper)
    ensures NoneWrapped(c, OneDoc(name, Member(Chars("n"), Int64(5), NoMember)))
  {
    assert !MembersWrap(wrapper, Member(Chars("n"), Int64(5), NoMember));
  }

  lemma OidIsTaken(wrapper: Text -> bool, d: Members)
    requires wrapper(Chars("$oid"))
    requires d == Member(Chars("x"), Nested(Member(Chars("$oid"), Str(Chars("zz")), NoMember)), NoMember)
    ensures InMembers(d, d.value) && Somewhere(d.value, BeginsWithType(wrapper))
    ensures !Somewhere(Nested(d), Loses)
  {
    assert Ends([d.value], d.value, BeginsWithType(wrapper));
    ForgetsIffSomewhere(Nested(d));
    assert !MembersForget(d.value.members);
  }

  /** The document {x: {$oid: ...}}: it forgets nothing, and does not come back. */
  lemma OidKeyExample(c: Json<Members>, wrapper: Text -> bool, name: string)
    requires JsonLaw(c) && BsonLaw(c, wrapper) && name != "" && wrapper(Chars("$oid"))
    ensures var d := Member(Chars("x"), Nested(Member(Chars("$oid"), Str(Chars("zz")), NoMember)), NoMember);
            && !Somewhere(Nested(d), Loses)
            && !(Replayed(c, OneDoc(name, d)).ok && Replayed(c, OneDoc(name, d)).all == [(name, d)])
  {
    var d := Member(Chars("x"), Nested(Member(Chars("$oid"), Str(Chars("zz")), NoMember)), NoMember);
    var db := OneDoc(name, d);
    JsonKeepsDocumentsIff(c, wrapper, db);
    EverythingOfOne(name, d);
    OidIsTaken(wrapper, d);
    assert InMembers(db[0].docs[0], d.value);
  }
}
