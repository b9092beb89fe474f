/**
 Alert coalescing. Raising an alert first looks for a firing one with the same
 organization and dedup key and bumps it by id; otherwise it inserts a row, and a unique
 index admits one firing row per organization and key; a refused insert looks once more.
 Each lookup and each write is a step of its own. Pruned rows stay in the model's table,
 marked, so that occurrences can be accounted for.

 Rows and raises are numbered in creation order.
 */
module Alerts {
  import opened Common

  datatype Key = Key(text: string)
  datatype Status = Firing | Acknowledged | Resolved

  /** What a row is about. Without a dedup key nothing coalesces. */
  datatype Subject = Subject(org: nat, key: Option<Key>)

  /** `emails` counts the notifications sent for the row. */
  datatype Row = Row(subject: Subject, kind: nat, status: Status, createdAt: int, count: nat, emails: nat, pruned: bool)

  datatype Phase = Started | Found(row: nat) | Inserting | Refused | FoundAgain(row: nat) | Returned | GaveUp
  datatype Raise = Raise(subject: Subject, kind: nat, email: bool, phase: Phase)

  datatype Board = Board(rows: seq<Row>, raises: seq<Raise>, resolvers: seq<set<nat>>)

  const EMPTY := Board([], [], [])

  predicate FiringNow(row: Row, subject: Subject) {
    row.status.Firing? && !row.pruned && row.subject == subject
  }

  /** The firing row of a subject. */
  function FindFiring(rows: seq<Row>, subject: Subject): (r: Option<nat>)
    ensures r.Some? ==> r.value < |rows| && FiringNow(rows[r.value], subject)
    ensures r.None? ==> forall i :: 0 <= i < |rows| ==> !FiringNow(rows[i], subject)
  {
    if rows == [] then None
    else if FiringNow(rows[|rows| - 1], subject) then Some(|rows| - 1)
    else FindFiring(rows[..|rows| - 1], subject)
  }

  // ----- Raising -----

  function Begin(s: Board, subject: Subject, kind: nat, email: bool): Board {
    s.(raises := s.raises + [Raise(subject, kind, email, if subject.key.Some? then Started else Inserting)])
  }

  function Become(s: Board, r: nat, phase: Phase): Board
    requires r < |s.raises|
  {
    s.(raises := s.raises[r := s.raises[r].(phase := phase)])
  }

  function LookUp(s: Board, r: nat): Board
    requires r < |s.raises|
  {
    var found := FindFiring(s.rows, s.raises[r].subject);
    Become(s, r, if found.Some? then Found(found.value) else Inserting)
  }

  function LookAgain(s: Board, r: nat): Board
    requires r < |s.raises|
  {
    var subject := s.raises[r].subject;
    var found := if subject.key.Some? then FindFiring(s.rows, subject) else None;
    Become(s, r, if found.Some? then FoundAgain(found.value) else GaveUp)
  }

  /** Bumping a pruned row writes nothing. */
  function Bumped(row: Row): Row {
    if row.pruned then row else row.(count := row.count + 1)
  }

  /** The bump is by id: whatever became of the row, the raise returns it. */
  function Bump(s: Board, r: nat, i: nat): Board
    requires r < |s.raises| && i < |s.rows|
  {
    Become(s, r, Returned).(rows := s.rows[i := Bumped(s.rows[i])])
  }

  /** The unique index refuses a second firing row of a keyed subject. */
  function Insert(s: Board, r: nat, now: int): Board
    requires r < |s.raises|
  {
    var raise := s.raises[r];
    if raise.subject.key.Some? && FindFiring(s.rows, raise.subject).Some? then Become(s, r, Refused)
    else Become(s, r, Returned).(rows := s.rows
        + [Row(raise.subject, raise.kind, Firing, now, 1, if raise.email then 1 else 0, false)])
  }

  // ----- Acknowledging, resolving, pruning -----

  function Ack(s: Board, i: nat): Board
    requires i < |s.rows|
  {
    if s.rows[i].pruned || !s.rows[i].status.Firing? then s
    else s.(rows := s.rows[i := s.rows[i].(status := Acknowledged)])
  }

  function Resolve(s: Board, i: nat): Board
    requires i < |s.rows|
  {
    if s.rows[i].pruned || s.rows[i].status.Resolved? then s
    else s.(rows := s.rows[i := s.rows[i].(status := Resolved)])
  }

  /** Resolving by subject and kind: first the firing rows are listed ... */
  function ListFiring(s: Board, subject: Subject, kind: nat): Board {
    if subject.key.None? then s
    else s.(resolvers := s.resolvers
        + [set i: nat | i < |s.rows| && FiringNow(s.rows[i], subject) && s.rows[i].kind == kind])
  }

  /** ... then they are resolved by id. */
  function ResolveListed(rows: seq<Row>, ids: set<nat>): seq<Row> {
    seq(|rows|, i requires 0 <= i < |rows| => if i in ids && !rows[i].pruned then rows[i].(status := Resolved)
        else rows[i])
  }

  /** Retention: acknowledged and resolved rows created before the cutoff go. */
  function Prune(rows: seq<Row>, cutoff: int): seq<Row> {
    seq(|rows|, i requires 0 <= i < |rows| =>
      if !rows[i].status.Firing? && rows[i].createdAt < cutoff then rows[i].(pruned := true) else rows[i])
  }

  // ----- Executions -----

  datatype Label = BeginRaise(subject: Subject, kind: nat, email: bool) | LookUpFirst(raise: nat)
      | BumpFound(raise: nat)
                 | FailBump(raise: nat) | InsertRow(raise: nat, now: int) | FailInsert(raise: nat)
                 | LookUpAgain(raise: nat) | AckRow(row: nat) | ResolveRow(row: nat)
                 | ListSubject(subject: Subject, kind: nat) | ResolveList(resolver: nat) | PruneBefore(cutoff: int)

  /** A raise does what its phase allows; anything else is no step. A database error makes a
      bump fail (the raise goes on as if it had found nothing) or an insert. */
  function Step(s: Board, l: Label): Board {
    match l
    case BeginRaise(subject, kind, email) => Begin(s, subject, kind, email)
    case LookUpFirst(r) => if r < |s.raises| && s.raises[r].phase.Started? then LookUp(s, r) else s
    case BumpFound(r) => if r < |s.raises| && Target(s.raises[r].phase).Some?
        && Target(s.raises[r].phase).value < |s.rows|
                         then Bump(s, r, Target(s.raises[r].phase).value) else s
    case FailBump(r) => if r < |s.raises| && Target(s.raises[r].phase).Some?
                        then Become(s, r, if s.raises[r].phase.Found? then Inserting else GaveUp) else s
    case InsertRow(r, now) => if r < |s.raises| && s.raises[r].phase.Inserting? then Insert(s, r, now) else s
    case FailInsert(r) => if r < |s.raises| && s.raises[r].phase.Inserting? then Become(s, r, Refused) else s
    case LookUpAgain(r) => if r < |s.raises| && s.raises[r].phase.Refused? then LookAgain(s, r) else s
    case AckRow(i) => if i < |s.rows| then Ack(s, i) else s
    case ResolveRow(i) => if i < |s.rows| then Resolve(s, i) else s
    case ListSubject(subject, kind) => ListFiring(s, subject, kind)
    case ResolveList(k) => if k < |s.resolvers| then s.(rows := ResolveListed(s.rows, s.resolvers[k])) else s
    case PruneBefore(cutoff) => s.(rows := Prune(s.rows, cutoff))
  }

  function Target(phase: Phase): Option<nat> {
    match phase
    case Found(i) => Some(i)
    case FoundAgain(i) => Some(i)
    case _ => None
  }

  function Exec(s: Board, ls: seq<Label>): Board {
    if ls == [] then s else Step(Exec(s, ls[..|ls| - 1]), ls[|ls| - 1])
  }

  // ----- The statements, on the table -----

  class AlertTable {
    var rows: seq<Row>

    constructor ()
      ensures rows == []
    {
      rows := [];
    }

    method FirstFiring(subject: Subject) returns (r: Option<nat>)
      ensures r == FindFiring(rows, subject)
    {
      var i := |rows|;
      assert rows[..i] == rows;
      while i > 0
        invariant 0 <= i <= |rows| && FindFiring(rows, subject) == FindFiring(rows[..i], subject)
      {
        assert rows[..i][..i - 1] == rows[..i - 1];
        i := i - 1;
        if FiringNow(rows[i], subject) {
          return Some(i);
        }
      }
      return None;
    }

    /** UPDATE ... WHERE status = firing: whether a row changed. */
    method Acknowledge(i: nat) returns (changed: bool)
      requires i < |rows|
      modifies this
      ensures rows == Ack(Board(old(rows), [], []), i).rows && changed == (rows != old(rows))
    {
      changed := !rows[i].pruned && rows[i].status.Firing?;
      if changed {
        rows := rows[i := rows[i].(status := Acknowledged)];
      }
    }

    /** DELETE ... WHERE status IN (resolved, acknowledged) AND created_at < cutoff. */
    method EnforceRetention(cutoff: int)
      modifies this
      ensures rows == Prune(old(rows), cutoff)
    {
      ghost var was := rows;
      for i := 0 to |rows|
        invariant rows == Prune(was[..i], cutoff) + was[i..]
      {
        PruneNext(was, cutoff, i);
        if !rows[i].status.Firing? && rows[i].createdAt < cutoff {
          rows := rows[i := rows[i].(pruned := true)];
        }
      }
      assert was[..|was|] == was;
    }

    /** UPDATE ... WHERE id IN (...). */
    method ResolveIds(ids: set<nat>)
      modifies this
      ensures rows == ResolveListed(old(rows), ids)
    {
      ghost var was := rows;
      for i := 0 to |rows|
        invariant rows == ResolveListed(was[..i], ids) + was[i..]
      {
        ResolveNext(was, ids, i);
        if i in ids && !rows[i].pruned {
          rows := rows[i := rows[i].(status := Resolved)];
        }
      }
      assert was[..|was|] == was;
    }
  }

  lemma PruneNext(was: seq<Row>, cutoff: int, i: nat)
    requires i < |was|
    ensures var rows := Prune(was[..i], cutoff) + was[i..];
            (if !rows[i].status.Firing? && rows[i].createdAt < cutoff then rows[i := rows[i].(pruned := true)]
                else rows)
            == Prune(was[..i + 1], cutoff) + was[i + 1..]
  {
  }

  lemma ResolveNext(was: seq<Row>, ids: set<nat>, i: nat)
    requires i < |was|
    ensures var rows := ResolveListed(was[..i], ids) + was[i..];
            (if i in ids && !rows[i].pruned then rows[i := rows[i].(status := Resolved)] else rows)
            == ResolveListed(was[..i + 1], ids) + was[i + 1..]
  {
  }

  // ----- One firing row per subject -----

  ghost predicate OneFiring(rows: seq<Row>) {
    forall i, j :: 0 <= i < j < |rows| && rows[i].subject == rows[j].subject && rows[i].subject.key.Some? ==>
      !(FiringNow(rows[i], rows[i].subject) && FiringNow(rows[j], rows[j].subject))
  }

  /** A row keeps what it is about and its email count; its status only moves on; a pruned
      row stays as it is. */
  predicate Aged(r: Row, r': Row) {
    && r'.subject == r.subject && r'.kind == r.kind && r'.createdAt == r.createdAt && r'.emails == r.emails
    && Rank(r.status) <= Rank(r'.status) && r.count <= r'.count
    && (r.pruned ==> r'.pruned && r'.count == r.count)
  }

  /** In one step it is also pruned only when it is not firing. */
  predicate RowStep(r: Row, r': Row) {
    Aged(r, r') && (r'.pruned && !r.pruned ==> !r.status.Firing?)
  }

  function Rank(status: Status): nat {
    match status
    case Firing => 0
    case Acknowledged => 1
    case Resolved => 2
  }

  /** The table's change in one step: rows move on, and at most one is added, firing, with
      one occurrence and at most one email, when its subject has no firing row. */
  ghost predicate TableStep(rows: seq<Row>, rows': seq<Row>) {
    && |rows| <= |rows'| <= |rows| + 1
    && (forall i :: 0 <= i < |rows| ==> RowStep(rows[i], rows'[i]))
    && (|rows'| > |rows| ==>
         && NewRow(rows'[|rows|])
         && (rows'[|rows|].subject.key.Some? ==> FindFiring(rows, rows'[|rows|].subject).None?))
  }

  predicate NewRow(row: Row) {
    row.status.Firing? && !row.pruned && row.count == 1 && row.emails <= 1
  }

  lemma StepTable(s: Board, l: Label)
    ensures TableStep(s.rows, Step(s, l).rows)
  {
  }

  predicate RowOk(row: Row) {
    row.count >= 1 && row.emails <= 1 && (row.pruned ==> !row.status.Firing?)
  }

  ghost predicate TableOk(rows: seq<Row>) {
    OneFiring(rows) && forall i :: 0 <= i < |rows| ==> RowOk(rows[i])
  }

  lemma TableKept(rows: seq<Row>, rows': seq<Row>)
    requires TableOk(rows) && TableStep(rows, rows')
    ensures TableOk(rows')
  {
    forall i | 0 <= i < |rows'| ensures RowOk(rows'[i]) {
      if i < |rows| {
        assert RowStep(rows[i], rows'[i]) && RowOk(rows[i]);
      }
    }
    forall i, j | 0 <= i < j < |rows'| && rows'[i].subject == rows'[j].subject && rows'[i].subject.key.Some?
      ensures !(FiringNow(rows'[i], rows'[i].subject) && FiringNow(rows'[j], rows'[j].subject))
    {
      assert RowStep(rows[i], rows'[i]);
      if j < |rows| {
        assert RowStep(rows[j], rows'[j]);
      }
    }
  }

  /** In every execution an organization and key have at most one firing alert, no firing
      row is pruned, and no row is emailed about twice. */
  lemma {:induction false} AlwaysOneFiring(ls: seq<Label>)
    ensures TableOk(Exec(EMPTY, ls).rows)
  {
    if ls != [] {
      AlwaysOneFiring(ls[..|ls| - 1]);
      StepTable(Exec(EMPTY, ls[..|ls| - 1]), ls[|ls| - 1]);
      TableKept(Exec(EMPTY, ls[..|ls| - 1]).rows, Exec(EMPTY, ls).rows);
    }
  }

  /** An acknowledged or resolved alert never fires again, and a pruned one stays pruned;
      an alert is never emailed about after its creation. */
  lemma {:induction false} ClosedStaysClosed(s: Board, ls: seq<Label>, i: nat)
    requires i < |s.rows|
    ensures i < |Exec(s, ls).rows| && Aged(s.rows[i], Exec(s, ls).rows[i])
  {
    if ls != [] {
      var before := Exec(s, ls[..|ls| - 1]);
      ClosedStaysClosed(s, ls[..|ls| - 1], i);
      StepTable(before, ls[|ls| - 1]);
      assert RowStep(before.rows[i], Exec(s, ls).rows[i]);
    }
  }

  // ----- Occurrences are conserved -----

  function CountsOf(rows: seq<Row>, subject: Subject): nat {
    if rows == [] then 0
    else CountsOf(rows[..|rows| - 1], subject) + if rows[|rows| - 1].subject == subject then rows[|rows| - 1].count
        else 0
  }

  function ReturnedOf(raises: seq<Raise>, subject: Subject): nat {
    if raises == [] then 0
    else ReturnedOf(raises[..|raises| - 1], subject)
         + if raises[|raises| - 1].subject == subject && raises[|raises| - 1].phase.Returned? then 1 else 0
  }

  /** The step is a bump of this subject whose row has been pruned since it was found. */
  predicate LosesBump(s: Board, l: Label, subject: Subject) {
    && l.BumpFound? && l.raise < |s.raises| && s.raises[l.raise].subject == subject
    && var target := Target(s.raises[l.raise].phase);
         target.Some? && target.value < |s.rows| && s.rows[target.value].pruned
  }

  /** Step k of an execution is such a bump. */
  predicate LostAt(ls: seq<Label>, k: nat, subject: Subject)
    requires k < |ls|
  {
    LosesBump(Exec(EMPTY, ls[..k]), ls[k], subject)
  }

  /** How many steps of an execution were such bumps. */
  function LostBumps(ls: seq<Label>, subject: Subject): nat {
    if ls == [] then 0
    else LostBumps(ls[..|ls| - 1], subject) + if LostAt(ls, |ls| - 1, subject) then 1 else 0
  }

  /** A raise that has found a row found one of its own subject. */
  ghost predicate RaisesValid(s: Board) {
    forall r :: 0 <= r < |s.raises| && Target(s.raises[r].phase).Some? ==>
      Target(s.raises[r].phase).value < |s.rows|
          && s.rows[Target(s.raises[r].phase).value].subject == s.raises[r].subject
  }

  /** The raises of a subject that returned, less its counted occurrences. */
  function Deficit(s: Board, subject: Subject): int {
    ReturnedOf(s.raises, subject) - CountsOf(s.rows, subject)
  }

  lemma {:induction false} RowChanged(rows: seq<Row>, i: nat, row: Row, subject: Subject)
    requires i < |rows| && row.subject == rows[i].subject
    ensures CountsOf(rows[i := row], subject) - CountsOf(rows, subject)
            == if row.subject == subject then row.count - rows[i].count else 0
    decreases |rows|
  {
    var init, rows' := rows[..|rows| - 1], rows[i := row];
    if i == |init| {
      assert rows'[..|rows| - 1] == init;
    } else {
      RowChanged(init, i, row, subject);
      assert rows'[..|rows| - 1] == init[i := row];
    }
  }

  lemma {:induction false} SameAccount(rows: seq<Row>, rows': seq<Row>, subject: Subject)
    requires |rows| == |rows'|
    requires forall i :: 0 <= i < |rows| ==> rows'[i].subject == rows[i].subject && rows'[i].count == rows[i].count
    ensures CountsOf(rows', subject) == CountsOf(rows, subject)
  {
    if rows != [] {
      SameAccount(rows[..|rows| - 1], rows'[..|rows| - 1], subject);
    }
  }

  lemma {:induction false} RaiseChanged(raises: seq<Raise>, r: nat, phase: Phase, subject: Subject)
    requires r < |raises| && !raises[r].phase.Returned?
    ensures ReturnedOf(raises[r := raises[r].(phase := phase)], subject)
            == ReturnedOf(raises, subject) + if raises[r].subject == subject && phase.Returned? then 1 else 0
    decreases |raises|
  {
    var init, raises' := raises[..|raises| - 1], raises[r := raises[r].(phase := phase)];
    if r == |init| {
      assert raises'[..|raises| - 1] == init;
    } else {
      RaiseChanged(init, r, phase, subject);
      assert raises'[..|raises| - 1] == init[r := init[r].(phase := phase)];
    }
  }

  lemma BumpAccounts(s: Board, r: nat, i: nat, subject: Subject)
    requires r < |s.raises| && Target(s.raises[r].phase) == Some(i) && RaisesValid(s)
    ensures RaisesValid(Bump(s, r, i))
    ensures Deficit(Bump(s, r, i), subject) - Deficit(s, subject)
            == if s.raises[r].subject == subject && s.rows[i].pruned then 1 else 0
  {
    RaiseChanged(s.raises, r, Returned, subject);
    RowChanged(s.rows, i, Bumped(s.rows[i]), subject);
  }

  lemma RowAdded(rows: seq<Row>, row: Row, subject: Subject)
    ensures CountsOf(rows + [row], subject) == CountsOf(rows, subject) + if row.subject == subject then row.count else 0
  {
    assert (rows + [row])[..|rows|] == rows;
  }

  lemma InsertAccounts(s: Board, r: nat, now: int, subject: Subject)
    requires r < |s.raises| && s.raises[r].phase.Inserting? && RaisesValid(s)
    ensures RaisesValid(Insert(s, r, now)) && Deficit(Insert(s, r, now), subject) == Deficit(s, subject)
  {
    var s' := Insert(s, r, now);
    RaiseChanged(s.raises, r, s'.raises[r].phase, subject);
    if s'.rows != s.rows {
      RowAdded(s.rows, s'.rows[|s.rows|], subject);
    }
  }

  lemma BecomeAccounts(s: Board, r: nat, phase: Phase, subject: Subject)
    requires r < |s.raises| && RaisesValid(s)
    requires !s.raises[r].phase.Returned? && !phase.Returned?
    requires Target(phase).Some? ==>
               Target(phase).value < |s.rows| && s.rows[Target(phase).value].subject == s.raises[r].subject
    ensures RaisesValid(Become(s, r, phase)) && Deficit(Become(s, r, phase), subject) == Deficit(s, subject)
  {
    RaiseChanged(s.raises, r, phase, subject);
  }

  lemma RowsAccount(s: Board, rows: seq<Row>, subject: Subject)
    requires RaisesValid(s) && |rows| == |s.rows|
    requires forall i :: 0 <= i < |rows| ==> rows[i].subject == s.rows[i].subject && rows[i].count == s.rows[i].count
    ensures RaisesValid(s.(rows := rows)) && Deficit(s.(rows := rows), subject) == Deficit(s, subject)
  {
    SameAccount(s.rows, rows, subject);
  }

  lemma RaiseStepAccounts(s: Board, l: Label, subject: Subject)
    requires RaisesValid(s)
    requires l.LookUpFirst? || l.BumpFound? || l.FailBump? || l.InsertRow? || l.FailInsert? || l.LookUpAgain?
    ensures RaisesValid(Step(s, l))
    ensures Deficit(Step(s, l), subject) - Deficit(s, subject) == if LosesBump(s, l, subject) then 1 else 0
  {
    var r := l.raise;
    if r < |s.raises| {
      var phase := s.raises[r].phase;
      if l.BumpFound? && Target(phase).Some? {
        BumpAccounts(s, r, Target(phase).value, subject);
      } else if l.InsertRow? && phase.Inserting? {
        InsertAccounts(s, r, l.now, subject);
      } else if Step(s, l) != s {
        BecomeAccounts(s, r, Step(s, l).raises[r].phase, subject);
      }
    }
  }

  lemma BeginAccounts(s: Board, sub: Subject, kind: nat, email: bool, subject: Subject)
    requires RaisesValid(s)
    ensures RaisesValid(Begin(s, sub, kind, email))
              && Deficit(Begin(s, sub, kind, email), subject) == Deficit(s, subject)
  {
    assert Begin(s, sub, kind, email).raises[..|s.raises|] == s.raises;
  }

  /** Acknowledging, resolving and pruning count nothing. */
  lemma OtherStepCounts(s: Board, l: Label)
    requires l.AckRow? || l.ResolveRow? || l.ResolveList? || l.PruneBefore?
    ensures var rows := Step(s, l).rows;
            && Step(s, l) == s.(rows := rows) && |rows| == |s.rows|
            && forall i :: 0 <= i < |rows| ==> rows[i].subject == s.rows[i].subject && rows[i].count == s.rows[i].count
  {
  }

  /** Only a bump that comes too late leaves a returned raise uncounted. */
  lemma StepAccounts(s: Board, l: Label, subject: Subject)
    requires RaisesValid(s)
    ensures RaisesValid(Step(s, l))
    ensures Deficit(Step(s, l), subject) - Deficit(s, subject) == if LosesBump(s, l, subject) then 1 else 0
  {
    if l.BeginRaise? {
      BeginAccounts(s, l.subject, l.kind, l.email, subject);
    } else if l.AckRow? || l.ResolveRow? || l.ResolveList? || l.PruneBefore? {
      OtherStepCounts(s, l);
      RowsAccount(s, Step(s, l).rows, subject);
    } else if !l.ListSubject? {
      RaiseStepAccounts(s, l, subject);
    }
  }

  lemma {:induction false} ExecAccounts(ls: seq<Label>, subject: Subject)
    ensures RaisesValid(Exec(EMPTY, ls)) && Deficit(Exec(EMPTY, ls), subject) == LostBumps(ls, subject)
  {
    if ls != [] {
      ExecAccounts(ls[..|ls| - 1], subject);
      StepAccounts(Exec(EMPTY, ls[..|ls| - 1]), ls[|ls| - 1], subject);
    }
  }

  lemma LostInPrefix(ls: seq<Label>, n: nat, k: nat, subject: Subject)
    requires k < n <= |ls|
    ensures LostAt(ls[..n], k, subject) == LostAt(ls, k, subject)
  {
    assert ls[..n][..k] == ls[..k];
  }

  lemma {:induction false} NoneLostIff(ls: seq<Label>, subject: Subject)
    ensures LostBumps(ls, subject) == 0 <==> forall k :: 0 <= k < |ls| ==> !LostAt(ls, k, subject)
  {
    if ls != [] {
      var n := |ls| - 1;
      NoneLostIff(ls[..n], subject);
      if LostBumps(ls, subject) == 0 {
        forall k | 0 <= k < |ls| ensures !LostAt(ls, k, subject) {
          if k < n {
            LostInPrefix(ls, n, k, subject);
            assert !LostAt(ls[..n], k, subject);
          }
        }
      } else if forall k :: 0 <= k < |ls| ==> !LostAt(ls, k, subject) {
        forall k | 0 <= k < n ensures !LostAt(ls[..n], k, subject) {
          LostInPrefix(ls, n, k, subject);
        }
      }
    }
  }

  /** The raises of a subject that returned an alert exceed the occurrences its rows count,
      pruned rows included, by the number of bumps that came to a row after it was pruned.
      So the two agree exactly when in the execution no bump came that late. */
  lemma RaisesAreCountedIff(ls: seq<Label>, subject: Subject)
    ensures var s := Exec(EMPTY, ls);
            && ReturnedOf(s.raises, subject) == CountsOf(s.rows, subject) + LostBumps(ls, subject)
            && (ReturnedOf(s.raises, subject) == CountsOf(s.rows, subject) <==>
                  forall k :: 0 <= k < |ls| ==> !LostAt(ls, k, subject))
  {
    ExecAccounts(ls, subject);
    NoneLostIff(ls, subject);
  }

  // ----- A lost bump -----

  lemma ExecSnoc(ls: seq<Label>, l: Label, s: Board)
    requires Exec(EMPTY, ls) == s
    ensures Exec(EMPTY, ls + [l]) == Step(s, l)
  {
    assert (ls + [l])[..|ls|] == ls;
  }

  /** One alert, raised once, and a second raise of it under way. */
  function Example(row: Row, second: Phase): Board {
    Board([row], [Raise(row.subject, row.kind, false, Returned), Raise(row.subject, row.kind, false, second)], [])
  }

  lemma FoundExample(subject: Subject) returns (ls: seq<Label>)
    requires subject.key.Some?
    ensures ls == [BeginRaise(subject, 0, false)] + [LookUpFirst(0)] + [InsertRow(0, 10)]
              + [BeginRaise(subject, 0, false)] + [LookUpFirst(1)]
    ensures Exec(EMPTY, ls) == Example(Row(subject, 0, Firing, 10, 1, 0, false), Found(0))
  {
    var begin, row := BeginRaise(subject, 0, false), Row(subject, 0, Firing, 10, 1, 0, false);
    var at := (phase: Phase) => Raise(subject, 0, false, phase);
    ls := [begin];
    assert [] + ls == ls;
    ExecSnoc([], begin, EMPTY);
    assert Step(EMPTY, begin) == Board([], [at(Started)], []);
    ExecSnoc(ls, LookUpFirst(0), Board([], [at(Started)], []));
    ExecSnoc(ls + [LookUpFirst(0)], InsertRow(0, 10), Board([], [at(Inserting)], []));
    ls := ls + [LookUpFirst(0)] + [InsertRow(0, 10)];
    assert Exec(EMPTY, ls) == Board([row], [at(Returned)], []);
    ExecSnoc(ls, begin, Board([row], [at(Returned)], []));
    ls := ls + [begin];
    assert Exec(EMPTY, ls) == Example(row, Started);
    ExecSnoc(ls, LookUpFirst(1), Example(row, Started));
    ls := ls + [LookUpFirst(1)];
  }

  /** An alert acknowledged and pruned between the lookup and the bump of a second raise:
      that raise returns an alert and is counted nowhere. */
  lemma LostBumpExample(subject: Subject)
    requires subject.key.Some?
    ensures var s := Exec(EMPTY, [BeginRaise(subject, 0, false)] + [LookUpFirst(0)] + [InsertRow(0, 10)]
              + [BeginRaise(subject, 0, false)] + [LookUpFirst(1)]
                                 + [AckRow(0)] + [PruneBefore(20)] + [BumpFound(1)]);
            ReturnedOf(s.raises, subject) == 2 && CountsOf(s.rows, subject) == 1
  {
    var ls := FoundExample(subject);
    var row := Row(subject, 0, Firing, 10, 1, 0, false);
    var acked := row.(status := Acknowledged);
    ExecSnoc(ls, AckRow(0), Example(row, Found(0)));
    ExecSnoc(ls + [AckRow(0)], PruneBefore(20), Example(acked, Found(0)));
    PrunedExample(row);
    ExecSnoc(ls + [AckRow(0)] + [PruneBefore(20)], BumpFound(1), Example(acked.(pruned := true), Found(0)));
    CountExample(acked.(pruned := true));
  }

  lemma PrunedExample(row: Row)
    requires row.status.Firing? && !row.pruned && row.createdAt == 10
    ensures Step(Example(row, Found(0)), AckRow(0)) == Example(row.(status := Acknowledged), Found(0))
    ensures Step(Example(row.(status := Acknowledged), Found(0)), PruneBefore(20))
              == Example(row.(status := Acknowledged, pruned := true), Found(0))
    ensures Step(Example(row.(status := Acknowledged, pruned := true), Found(0)), BumpFound(1))
            == Example(row.(status := Acknowledged, pruned := true), Returned)
  {
  }

  lemma CountExample(row: Row)
    ensures ReturnedOf(Example(row, Returned).raises, row.subject) == 2
              && CountsOf(Example(row, Returned).rows, row.subject) == row.count
  {
    var raises := Example(row, Returned).raises;
    assert raises[..1][..0] == [] && [row][..0] == [];
    assert ReturnedOf(raises[..1], row.subject) == 1;
  }
}
