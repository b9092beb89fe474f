/**
 What each step on the alert table writes, and exactly when; what a raise that nobody
 disturbs leads to, and which alerts retention takes away.
 */
module AlertEffects {
  import opened Common
  import opened Alerts

  /** Row i is the newest firing alert of the subject that is still there. */
  predicate NewestFiring(rows: seq<Row>, subject: Subject, i: nat) {
    && i < |rows| && rows[i].subject == subject && rows[i].status == Firing && !rows[i].pruned
    && forall j :: i < j < |rows| ==> !(rows[j].subject == subject && rows[j].status == Firing && !rows[j].pruned)
  }

  predicate NoneFiring(rows: seq<Row>, subject: Subject) {
    forall i :: 0 <= i < |rows| && rows[i].subject == subject && rows[i].status == Firing ==> rows[i].pruned
  }

  lemma {:induction false} FoundIsNewest(rows: seq<Row>, subject: Subject)
    ensures forall i: nat :: FindFiring(rows, subject) == Some(i) <==> NewestFiring(rows, subject, i)
    ensures FindFiring(rows, subject) == None <==> NoneFiring(rows, subject)
  {
    if rows != [] {
      var init, n := rows[..|rows| - 1], |rows| - 1;
      FoundIsNewest(init, subject);
      if FiringNow(rows[n], subject) {
        assert NewestFiring(rows, subject, n);
        assert FindFiring(rows, subject) == Some(n);
      } else {
        assert forall i: nat :: NewestFiring(rows, subject, i) <==> NewestFiring(init, subject, i);
        assert forall i :: 0 <= i < n ==> rows[i] == init[i];
      }
    }
  }

  /** Only raise r may differ, and only in its phase. */
  ghost predicate OnlyRaise(s: Board, t: Board, r: nat) {
    && |t.raises| == |s.raises| && t.resolvers == s.resolvers
    && (forall i :: 0 <= i < |s.raises| && i != r ==> t.raises[i] == s.raises[i])
    && (r < |s.raises| ==> t.raises[r].(phase := s.raises[r].phase) == s.raises[r])
  }

  ghost predicate OnlyRow(s: Board, t: Board, i: nat) {
    |t.rows| == |s.rows| && forall j :: 0 <= j < |s.rows| && j != i ==> t.rows[j] == s.rows[j]
  }

  predicate SameAlert(a: Row, b: Row) {
    b.subject == a.subject && b.kind == a.kind && b.createdAt == a.createdAt && b.emails == a.emails
  }

  // ----- Raising -----

  /** A raise with a key looks for a firing alert first; one without inserts at once. */
  lemma RaiseBegins(s: Board, subject: Subject, kind: nat, email: bool)
    ensures var t := Step(s, BeginRaise(subject, kind, email));
            && t.rows == s.rows && t.resolvers == s.resolvers
            && t.raises == s.raises + [Raise(subject, kind, email, if subject.key.Some? then Started else Inserting)]
  {
  }

  /** The lookup finds the newest firing alert of the subject, if there is one. */
  lemma LookUpFinds(s: Board, r: nat)
    requires r < |s.raises| && s.raises[r].phase == Started
    ensures var t := Step(s, LookUpFirst(r));
            && t.rows == s.rows && OnlyRaise(s, t, r)
            && (t.raises[r].phase == Inserting <==> NoneFiring(s.rows, s.raises[r].subject))
            && forall i: nat :: t.raises[r].phase == Found(i) <==> NewestFiring(s.rows, s.raises[r].subject, i)
  {
    FoundIsNewest(s.rows, s.raises[r].subject);
  }

  /** A bump counts one occurrence more on the alert found, unless that was pruned. */
  lemma BumpCounts(s: Board, r: nat, i: nat)
    requires r < |s.raises| && i < |s.rows| && (s.raises[r].phase == Found(i) || s.raises[r].phase == FoundAgain(i))
    ensures var t := Step(s, BumpFound(r));
            && OnlyRaise(s, t, r) && t.raises[r].phase == Returned && OnlyRow(s, t, i)
            && SameAlert(s.rows[i], t.rows[i])
            && t.rows[i].status == s.rows[i].status && t.rows[i].pruned == s.rows[i].pruned
            && t.rows[i].count == s.rows[i].count + if s.rows[i].pruned then 0 else 1
  {
  }

  /** A bump that fails sends the raise on to an insert, or the second time to give up. */
  lemma FailedBump(s: Board, r: nat, i: nat)
    requires r < |s.raises|
    ensures s.raises[r].phase == Found(i) ==>
              var t := Step(s, FailBump(r)); t.rows == s.rows && OnlyRaise(s, t, r) && t.raises[r].phase == Inserting
    ensures s.raises[r].phase == FoundAgain(i) ==>
              var t := Step(s, FailBump(r)); t.rows == s.rows && OnlyRaise(s, t, r) && t.raises[r].phase == GaveUp
  {
  }

  /** An insert makes a firing alert with one occurrence, emailed about exactly if the raise
      asks for that; a keyed subject that fires already is refused. */
  lemma InsertMakes(s: Board, r: nat, now: int)
    requires r < |s.raises| && s.raises[r].phase == Inserting
    ensures var t, raise := Step(s, InsertRow(r, now)), s.raises[r];
            && OnlyRaise(s, t, r)
            && if raise.subject.key.Some? && !NoneFiring(s.rows, raise.subject) then
                 t.rows == s.rows && t.raises[r].phase == Refused
               else
                 && t.raises[r].phase == Returned && |t.rows| == |s.rows| + 1 && s.rows <= t.rows
                 && var row := t.rows[|s.rows|];
                    && row.subject == raise.subject && row.kind == raise.kind && row.createdAt == now
                    && row.status == Firing && !row.pruned && row.count == 1
                    && row.emails == if raise.email then 1 else 0
  {
    FoundIsNewest(s.rows, s.raises[r].subject);
  }

  /** A refused insert looks once more, for a keyed subject, and else gives up. */
  lemma LookAgainFinds(s: Board, r: nat)
    requires r < |s.raises|
    ensures s.raises[r].phase == Inserting ==>
              var t := Step(s, FailInsert(r)); t.rows == s.rows && OnlyRaise(s, t, r) && t.raises[r].phase == Refused
    ensures s.raises[r].phase == Refused ==>
              var t := Step(s, LookUpAgain(r));
              && t.rows == s.rows && OnlyRaise(s, t, r)
              && (t.raises[r].phase == GaveUp <==>
                    s.raises[r].subject.key == None || NoneFiring(s.rows, s.raises[r].subject))
              && forall i: nat :: t.raises[r].phase == FoundAgain(i) <==>
                   s.raises[r].subject.key != None && NewestFiring(s.rows, s.raises[r].subject, i)
  {
    FoundIsNewest(s.rows, s.raises[r].subject);
  }

  // ----- Closing -----

  /** Acknowledging closes a firing alert only; resolving any that is not resolved yet. */
  lemma ClosedIff(s: Board, i: nat)
    requires i < |s.rows|
    ensures var t := Step(s, AckRow(i));
            && t.raises == s.raises && t.resolvers == s.resolvers && OnlyRow(s, t, i)
            && SameAlert(s.rows[i], t.rows[i]) && t.rows[i].count == s.rows[i].count
            && t.rows[i].pruned == s.rows[i].pruned
            && t.rows[i].status == if s.rows[i].status == Firing && !s.rows[i].pruned
                                   then Acknowledged else s.rows[i].status
    ensures var t := Step(s, ResolveRow(i));
            && t.raises == s.raises && t.resolvers == s.resolvers && OnlyRow(s, t, i)
            && SameAlert(s.rows[i], t.rows[i]) && t.rows[i].count == s.rows[i].count
            && t.rows[i].pruned == s.rows[i].pruned
            && t.rows[i].status == if s.rows[i].pruned then s.rows[i].status else Resolved
  {
  }

  /** Resolving by key lists the firing alerts of that subject and kind ... */
  lemma ListedIff(s: Board, subject: Subject, kind: nat)
    ensures var t := Step(s, ListSubject(subject, kind));
            && t.rows == s.rows && t.raises == s.raises
            && (subject.key == None ==> t == s)
            && (subject.key != None ==>
                 && |t.resolvers| == |s.resolvers| + 1 && s.resolvers <= t.resolvers
                 && forall i: nat :: i in t.resolvers[|s.resolvers|] <==>
                      && i < |s.rows| && s.rows[i].subject == subject && s.rows[i].kind == kind
                      && s.rows[i].status == Firing && !s.rows[i].pruned)
  {
  }

  /** ... and resolves those of the list that are still there. */
  lemma ListIsResolved(s: Board, k: nat)
    requires k < |s.resolvers|
    ensures var t := Step(s, ResolveList(k));
            && t.raises == s.raises && t.resolvers == s.resolvers && |t.rows| == |s.rows|
            && forall i: nat :: i < |s.rows| ==>
                 && SameAlert(s.rows[i], t.rows[i]) && t.rows[i].count == s.rows[i].count
                 && t.rows[i].pruned == s.rows[i].pruned
                 && t.rows[i].status == if i in s.resolvers[k] && !s.rows[i].pruned then Resolved else s.rows[i].status
  {
  }

  /** Retention prunes exactly the acknowledged and the resolved alerts from before the cutoff. */
  lemma PrunedIff(s: Board, cutoff: int)
    ensures var t := Step(s, PruneBefore(cutoff));
            && t.raises == s.raises && t.resolvers == s.resolvers && |t.rows| == |s.rows|
            && forall i :: 0 <= i < |s.rows| ==>
                 && SameAlert(s.rows[i], t.rows[i]) && t.rows[i].count == s.rows[i].count
                 && t.rows[i].status == s.rows[i].status
                 && (t.rows[i].pruned <==>
                       || s.rows[i].pruned
                       || ((s.rows[i].status == Acknowledged || s.rows[i].status == Resolved)
                           && s.rows[i].createdAt < cutoff))
  {
  }

  // ----- Raises nobody disturbs -----

  /** Where nothing fires, a raise makes one alert; where one does, it counts on that. */
  lemma UndisturbedRaise(s: Board, subject: Subject, kind: nat, email: bool, now: int)
    requires subject.key.Some?
    ensures NoneFiring(s.rows, subject) ==>
              var r := |s.raises|;
              var t := Step(Step(Step(s, BeginRaise(subject, kind, email)), LookUpFirst(r)), InsertRow(r, now));
              t.rows == s.rows + [Row(subject, kind, Firing, now, 1, if email then 1 else 0, false)]
    ensures forall i: nat :: NewestFiring(s.rows, subject, i) ==>
              var r := |s.raises|;
              var t := Step(Step(Step(s, BeginRaise(subject, kind, email)), LookUpFirst(r)), BumpFound(r));
              t.rows == s.rows[i := s.rows[i].(count := s.rows[i].count + 1)]
  {
    var r := |s.raises|;
    var s1 := Step(s, BeginRaise(subject, kind, email));
    RaiseBegins(s, subject, kind, email);
    LookUpFinds(s1, r);
    var s2 := Step(s1, LookUpFirst(r));
    if NoneFiring(s.rows, subject) {
      InsertMakes(s2, r, now);
      assert s2.raises[r] == Raise(subject, kind, email, Inserting);
      var row := Step(s2, InsertRow(r, now)).rows[|s.rows|];
      assert row == Row(subject, kind, Firing, now, 1, if email then 1 else 0, false);
    }
    forall i: nat | NewestFiring(s.rows, subject, i)
      ensures Step(s2, BumpFound(r)).rows == s.rows[i := s.rows[i].(count := s.rows[i].count + 1)]
    {
      BumpCounts(s2, r, i);
    }
  }
}
