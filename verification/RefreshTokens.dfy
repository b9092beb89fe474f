/**
 Refresh-token families. A login starts a family; each refresh revokes the presented
 token and creates its successor in one transaction; presenting a revoked token revokes
 what is unrevoked in its family. A transaction keeps its row locked from the read to
 its end, and nothing it wrote is seen before it commits. The statement that revokes a
 family sees the rows committed when it starts (read committed isolation), then waits
 for the locks on those it found and looks at them again.

 Rows and families are numbered in creation order.
 */
module RefreshTokens {
  import opened Common

  datatype Token = Token(hash: string)
  datatype Row = Row(user: nat, family: nat, token: Token, expiresAt: int, revoked: bool)

  /** A refresh: rotating an unrevoked token, or having found a revoked one, or revoking
      its family, having found the rows `found`. */
  datatype Phase = Rotating | Reused | Revoking(found: set<nat>) | Closed
  datatype Tx = Tx(row: nat, phase: Phase)

  datatype Auth = Auth(rows: seq<Row>, txs: seq<Tx>, families: nat)

  const EMPTY := Auth([], [], 0)

  /** The row of a token: tokens are unique. */
  function FindToken(rows: seq<Row>, token: Token): (r: Option<nat>)
    ensures r.Some? ==> r.value < |rows| && rows[r.value].token == token
    ensures r.None? ==> forall i :: 0 <= i < |rows| ==> rows[i].token != token
  {
    if rows == [] then None
    else if rows[|rows| - 1].token == token then Some(|rows| - 1)
    else FindToken(rows[..|rows| - 1], token)
  }

  predicate Open(s: Auth, t: nat) {
    t < |s.txs| && !s.txs[t].phase.Closed?
  }

  predicate Locked(s: Auth, i: nat) {
    exists t :: 0 <= t < |s.txs| && !s.txs[t].phase.Closed? && s.txs[t].row == i
  }

  predicate Live(s: Auth, family: nat, i: nat) {
    i < |s.rows| && s.rows[i].family == family && !s.rows[i].revoked
  }

  /** Unrevoked rows of a family. */
  function LiveRows(s: Auth, family: nat): set<nat> {
    set i: nat | i < |s.rows| && Live(s, family, i)
  }

  predicate Dead(s: Auth, family: nat) {
    forall i: nat :: i < |s.rows| ==> !Live(s, family, i)
  }

  // ----- Statements and transactions -----

  /** The row of a login; a failed insert is ignored. */
  function Login(s: Auth, user: nat, token: Token, expiresAt: int): Auth {
    if FindToken(s.rows, token).Some? then s
    else s.(rows := s.rows + [Row(user, s.families, token, expiresAt, false)], families := s.families + 1)
  }

  /** A refresh reads and locks the token's row; it waits while the row is locked. */
  function Begin(s: Auth, token: Token, user: nat, now: int): Auth {
    var found := FindToken(s.rows, token);
    if found.None? || s.rows[found.value].user != user || s.rows[found.value].expiresAt <= now
        || Locked(s, found.value) then s
    else s.(txs := s.txs + [Tx(found.value, if s.rows[found.value].revoked then Reused else Rotating)])
  }

  function Close(s: Auth, t: nat): Auth
    requires t < |s.txs|
  {
    s.(txs := s.txs[t := s.txs[t].(phase := Closed)])
  }

  /** A rotation commits: the old token is revoked and its successor exists. A successor
      that equals an existing token fails the insert, and all is rolled back. */
  function Commit(s: Auth, t: nat, token: Token, expiresAt: int): Auth
    requires t < |s.txs| && s.txs[t].row < |s.rows|
  {
    if FindToken(s.rows, token).Some? then Close(s, t)
    else
      var row := s.rows[s.txs[t].row];
      Close(s, t).(rows := s.rows[s.txs[t].row := row.(revoked := true)]
          + [Row(row.user, row.family, token, expiresAt, false)])
  }

  /** The statement that revokes the family starts: these are the rows it found. */
  function Snapshot(s: Auth, t: nat): Auth
    requires t < |s.txs| && s.txs[t].row < |s.rows|
  {
    s.(txs := s.txs[t := s.txs[t].(phase := Revoking(LiveRows(s, s.rows[s.txs[t].row].family)))])
  }

  function Revoke(rows: seq<Row>, which: set<nat>): seq<Row> {
    seq(|rows|, i requires 0 <= i < |rows| => if i in which then rows[i].(revoked := true) else rows[i])
  }

  /** It ends: waits for the locks on the rows it found and revokes them. */
  function Finish(s: Auth, t: nat): Auth
    requires t < |s.txs| && s.txs[t].phase.Revoking?
  {
    if exists i :: i in s.txs[t].phase.found && Locked(s, i) then s
    else Close(s, t).(rows := Revoke(s.rows, s.txs[t].phase.found))
  }

  /** Logging out revokes the presented token, waiting while its row is locked. */
  function Logout(s: Auth, token: Token): Auth {
    var found := FindToken(s.rows, token);
    if found.None? || Locked(s, found.value) then s
    else s.(rows := s.rows[found.value := s.rows[found.value].(revoked := true)])
  }

  // ----- Executions -----

  datatype Label = LoginAs(user: nat, token: Token, expiresAt: int) | BeginRefresh(token: Token, user: nat, now: int)
                 | CommitRotation(tx: nat, token: Token, expiresAt: int) | Rollback(tx: nat)
                 | FindFamily(tx: nat) | RevokeFamily(tx: nat) | LogoutOf(token: Token)

  /** One step; a transaction does what its phase allows, and anything else is no step. */
  function Step(s: Auth, l: Label): Auth {
    match l
    case LoginAs(user, token, expiresAt) => Login(s, user, token, expiresAt)
    case BeginRefresh(token, user, now) => Begin(s, token, user, now)
    case CommitRotation(t, token, expiresAt) => if Rotates(s, t) then Commit(s, t, token, expiresAt) else s
    case Rollback(t) => if Open(s, t) then Close(s, t) else s
    case FindFamily(t) => if t < |s.txs| && s.txs[t].phase.Reused? && s.txs[t].row < |s.rows| then Snapshot(s, t) else s
    case RevokeFamily(t) => if t < |s.txs| && s.txs[t].phase.Revoking? then Finish(s, t) else s
    case LogoutOf(token) => Logout(s, token)
  }

  predicate Rotates(s: Auth, t: nat) {
    t < |s.txs| && s.txs[t].phase.Rotating? && s.txs[t].row < |s.rows|
  }

  function Exec(s: Auth, ls: seq<Label>): Auth {
    if ls == [] then s else Step(Exec(s, ls[..|ls| - 1]), ls[|ls| - 1])
  }

  // ----- The handlers, on the table -----

  class TokenTable {
    var rows: seq<Row>
    var txs: seq<Tx>
    var families: nat

    function State(): Auth
      reads this
    {
      Auth(rows, txs, families)
    }

    constructor ()
      ensures State() == EMPTY
    {
      rows, txs, families := [], [], 0;
    }

    method Find(token: Token) returns (r: Option<nat>)
      ensures r == FindToken(rows, token)
    {
      var i := |rows|;
      assert rows[..i] == rows;
      while i > 0
        invariant 0 <= i <= |rows| && FindToken(rows, token) == FindToken(rows[..i], token)
      {
        assert rows[..i][..i - 1] == rows[..i - 1];
        i := i - 1;
        if rows[i].token == token {
          return Some(i);
        }
      }
      return None;
    }

    method IsLocked(i: nat) returns (locked: bool)
      ensures locked == Locked(State(), i)
    {
      for t := 0 to |txs|
        invariant forall u :: 0 <= u < t ==> txs[u].phase.Closed? || txs[u].row != i
      {
        if !txs[t].phase.Closed? && txs[t].row == i {
          return true;
        }
      }
      return false;
    }

    /** Inserts a row unless its token is taken. */
    method Create(row: Row) returns (ok: bool)
      modifies this`rows
      ensures ok == FindToken(old(rows), row.token).None?
      ensures rows == if ok then old(rows) + [row] else old(rows)
    {
      var taken := Find(row.token);
      ok := taken.None?;
      if ok {
        rows := rows + [row];
      }
    }

    method StartSession(user: nat, token: Token, expiresAt: int)
      modifies this
      ensures State() == Login(old(State()), user, token, expiresAt)
    {
      var ok := Create(Row(user, families, token, expiresAt, false));
      if ok {
        families := families + 1;
      }
    }

    method BeginRefreshing(token: Token, user: nat, now: int)
      modifies this
      ensures State() == Begin(old(State()), token, user, now)
    {
      var found := Find(token);
      if found.Some? && rows[found.value].user == user && rows[found.value].expiresAt > now {
        var locked := IsLocked(found.value);
        if !locked {
          txs := txs + [Tx(found.value, if rows[found.value].revoked then Reused else Rotating)];
        }
      }
    }

    /** Revokes the old token and creates its successor, or rolls both back. */
    method CommitRotating(t: nat, token: Token, expiresAt: int)
      requires Rotates(State(), t)
      modifies this
      ensures State() == Commit(old(State()), t, token, expiresAt)
    {
      var i, before := txs[t].row, rows;
      rows := rows[i := rows[i].(revoked := true)];
      SameTokens(before, rows, token);
      var ok := Create(Row(rows[i].user, rows[i].family, token, expiresAt, false));
      if !ok {
        rows := before;
      }
      txs := txs[t := txs[t].(phase := Closed)];
    }

    /** UPDATE ... WHERE on the rows the statement found. */
    method RevokeRows(found: set<nat>)
      modifies this`rows
      ensures rows == Revoke(old(rows), found)
    {
      ghost var was := rows;
      for i := 0 to |rows|
        invariant rows == Revoke(was[..i], found) + was[i..]
      {
        RevokeNext(was, found, i);
        if i in found {
          rows := rows[i := rows[i].(revoked := true)];
        }
      }
      assert was[..|was|] == was;
    }

    method FinishRevoking(t: nat)
      requires t < |txs| && txs[t].phase.Revoking?
      modifies this
      ensures State() == Finish(old(State()), t)
    {
      var found, waiting := txs[t].phase.found, txs[t].phase.found;
      while waiting != {}
        invariant State() == old(State()) && waiting <= found
        invariant forall i :: i in found - waiting ==> !Locked(State(), i)
      {
        var i :| i in waiting;
        var locked := IsLocked(i);
        if locked {
          return;
        }
        waiting := waiting - {i};
      }
      RevokeRows(found);
      txs := txs[t := txs[t].(phase := Closed)];
    }

    method EndSession(token: Token)
      modifies this
      ensures State() == Logout(old(State()), token)
    {
      var found := Find(token);
      if found.Some? {
        var locked := IsLocked(found.value);
        if !locked {
          rows := rows[found.value := rows[found.value].(revoked := true)];
        }
      }
    }
  }

  lemma {:induction false} SameTokens(a: seq<Row>, b: seq<Row>, token: Token)
    requires |a| == |b| && forall i :: 0 <= i < |a| ==> a[i].token == b[i].token
    ensures FindToken(a, token) == FindToken(b, token)
  {
    if a != [] {
      SameTokens(a[..|a| - 1], b[..|b| - 1], token);
    }
  }

  lemma RevokeNext(was: seq<Row>, found: set<nat>, i: nat)
    requires i < |was|
    ensures var rows := Revoke(was[..i], found) + was[i..];
            (if i in found then rows[i := rows[i].(revoked := true)] else rows)
                == Revoke(was[..i + 1], found) + was[i + 1..]
  {
  }

  // ----- The invariant -----

  ghost predicate TxsValid(s: Auth) {
    && (forall t :: 0 <= t < |s.txs| ==> s.txs[t].row < |s.rows|)
    && (forall t, u :: 0 <= t < u < |s.txs| && !s.txs[t].phase.Closed? && !s.txs[u].phase.Closed? ==>
         s.txs[t].row != s.txs[u].row)
    && (forall t :: 0 <= t < |s.txs| && !s.txs[t].phase.Closed? ==>
         (s.txs[t].phase.Rotating? <==> !s.rows[s.txs[t].row].revoked))
    && (forall t, i :: 0 <= t < |s.txs| && s.txs[t].phase.Revoking? && i in s.txs[t].phase.found ==>
          i < |s.rows| && s.rows[i].family == s.rows[s.txs[t].row].family)
  }

  ghost predicate TokensUnique(s: Auth) {
    forall i, j :: 0 <= i < j < |s.rows| ==> s.rows[i].token != s.rows[j].token
  }

  ghost predicate FamiliesKnown(s: Auth) {
    forall i :: 0 <= i < |s.rows| ==> s.rows[i].family < s.families
  }

  ghost predicate OneLive(s: Auth) {
    forall i, j :: 0 <= i < j < |s.rows| && s.rows[i].family == s.rows[j].family ==>
        s.rows[i].revoked || s.rows[j].revoked
  }

  ghost predicate Inv(s: Auth) {
    TxsValid(s) && TokensUnique(s) && FamiliesKnown(s) && OneLive(s)
  }

  lemma LoginInv(s: Auth, user: nat, token: Token, expiresAt: int)
    requires Inv(s)
    ensures Inv(Login(s, user, token, expiresAt))
  {
  }

  lemma BeginInv(s: Auth, token: Token, user: nat, now: int)
    requires Inv(s)
    ensures Inv(Begin(s, token, user, now))
  {
  }

  lemma CloseInv(s: Auth, t: nat)
    requires Inv(s) && t < |s.txs|
    ensures Inv(Close(s, t))
  {
  }

  lemma CommitInv(s: Auth, t: nat, token: Token, expiresAt: int)
    requires Inv(s) && Rotates(s, t)
    ensures Inv(Commit(s, t, token, expiresAt))
  {
    var s' := Commit(s, t, token, expiresAt);
    if FindToken(s.rows, token).Some? {
      CloseInv(s, t);
    } else {
      assert forall u :: 0 <= u < |s.txs| ==> s'.txs[u].row == s.txs[u].row;
      assert forall i :: 0 <= i < |s.rows| && i != s.txs[t].row ==> s'.rows[i] == s.rows[i];
      assert TxsValid(s');
      assert TokensUnique(s');
    }
  }

  lemma SnapshotInv(s: Auth, t: nat)
    requires Inv(s) && t < |s.txs| && s.txs[t].phase.Reused?
    ensures Inv(Snapshot(s, t))
  {
    var s' := Snapshot(s, t);
    assert forall u :: 0 <= u < |s.txs| ==> s'.txs[u].row == s.txs[u].row && (u != t ==> s'.txs[u] == s.txs[u]);
  }

  lemma FinishInv(s: Auth, t: nat)
    requires Inv(s) && t < |s.txs| && s.txs[t].phase.Revoking?
    ensures Inv(Finish(s, t))
  {
    var s', found := Finish(s, t), s.txs[t].phase.found;
    if s' != s {
      forall u | 0 <= u < |s.txs| && u != t && !s.txs[u].phase.Closed? ensures s.txs[u].row !in found {
        assert Locked(s, s.txs[u].row);
      }
      assert forall i :: 0 <= i < |s.rows| ==>
          s'.rows[i].family == s.rows[i].family && s'.rows[i].token == s.rows[i].token;
      assert TxsValid(s');
      assert TokensUnique(s');
    }
  }

  lemma LogoutInv(s: Auth, token: Token)
    requires Inv(s)
    ensures Inv(Logout(s, token))
  {
    var s' := Logout(s, token);
    if s' != s {
      var i := FindToken(s.rows, token).value;
      forall u | 0 <= u < |s.txs| && !s.txs[u].phase.Closed? ensures s.txs[u].row != i {
        assert Locked(s, s.txs[u].row);
      }
      assert TxsValid(s');
    }
  }

  lemma StepInv(s: Auth, l: Label)
    requires Inv(s)
    ensures Inv(Step(s, l))
  {
    match l
    case LoginAs(user, token, expiresAt) => LoginInv(s, user, token, expiresAt);
    case BeginRefresh(token, user, now) => BeginInv(s, token, user, now);
    case CommitRotation(t, token, expiresAt) => if Rotates(s, t) { CommitInv(s, t, token, expiresAt); }
    case Rollback(t) => if Open(s, t) { CloseInv(s, t); }
    case FindFamily(t) => if t < |s.txs| && s.txs[t].phase.Reused? { SnapshotInv(s, t); }
    case RevokeFamily(t) => if t < |s.txs| && s.txs[t].phase.Revoking? { FinishInv(s, t); }
    case LogoutOf(token) => LogoutInv(s, token);
  }

  /** In every reachable state a family has at most one unrevoked token. */
  lemma {:induction false} ReachableInv(ls: seq<Label>)
    ensures Inv(Exec(EMPTY, ls))
  {
    if ls != [] {
      ReachableInv(ls[..|ls| - 1]);
      StepInv(Exec(EMPTY, ls[..|ls| - 1]), ls[|ls| - 1]);
    }
  }

  /** From s to s': rows are only added or revoked, and a row added to a family that was
      there before is the successor of that family's unrevoked row. */
  ghost predicate RowsOnlyAge(s: Auth, s': Auth) {
    && |s.rows| <= |s'.rows| && s.families <= s'.families
    && (forall i :: 0 <= i < |s.rows| ==> s'.rows[i] == s.rows[i] || s'.rows[i] == s.rows[i].(revoked := true))
    && (forall i :: |s.rows| <= i < |s'.rows| && s'.rows[i].family < s.families ==> !Dead(s, s'.rows[i].family))
  }

  lemma StepAges(s: Auth, l: Label)
    requires Inv(s)
    ensures RowsOnlyAge(s, Step(s, l))
  {
    if l.CommitRotation? && Rotates(s, l.tx) {
      var i := s.txs[l.tx].row;
      assert Live(s, s.rows[i].family, i);
    }
  }

  /** A family that once existed and has no unrevoked token never has one again. */
  lemma {:induction false} DeadStaysDead(s: Auth, ls: seq<Label>, family: nat)
    requires Inv(s) && family < s.families && Dead(s, family)
    ensures Dead(Exec(s, ls), family) && Inv(Exec(s, ls)) && family < Exec(s, ls).families
  {
    if ls != [] {
      var before, after := Exec(s, ls[..|ls| - 1]), Exec(s, ls);
      DeadStaysDead(s, ls[..|ls| - 1], family);
      StepAges(before, ls[|ls| - 1]);
      StepInv(before, ls[|ls| - 1]);
      forall i: nat | i < |after.rows| ensures !Live(after, family, i) {
        assert i < |before.rows| ==> !Live(before, family, i);
      }
    }
  }

  // ----- Who may refresh -----

  /** Step `at` presented the token of row i for its own user, before it expired. */
  predicate EntitledAt(ls: seq<Label>, at: nat, i: nat) {
    && at < |ls| && ls[at].BeginRefresh?
    && var s := Exec(EMPTY, ls[..at]);
       && i < |s.rows| && !Locked(s, i) && s.rows[i].token == ls[at].token
       && s.rows[i].user == ls[at].user && ls[at].now < s.rows[i].expiresAt
  }

  lemma NewTxsEntitled(s: Auth, l: Label, t: nat)
    requires t < |Step(s, l).txs|
    ensures |s.txs| <= |Step(s, l).txs|
    ensures if t < |s.txs| then Step(s, l).txs[t].row == s.txs[t].row
            else l.BeginRefresh? && Step(s, l).txs[t].row < |s.rows|
                 && (var i := Step(s, l).txs[t].row;
                     !Locked(s, i) && s.rows[i].token == l.token && s.rows[i].user == l.user
                         && l.now < s.rows[i].expiresAt)
  {
  }

  /** Behind every rotation and every detected reuse is a request that presented the row's
      token for its own user, before it expired and while nobody held the row. */
  lemma {:induction false} RefreshesWereEntitled(ls: seq<Label>, t: nat) returns (at: nat)
    requires t < |Exec(EMPTY, ls).txs|
    ensures EntitledAt(ls, at, Exec(EMPTY, ls).txs[t].row)
    decreases |ls|
  {
    var init, s := ls[..|ls| - 1], Exec(EMPTY, ls[..|ls| - 1]);
    NewTxsEntitled(s, ls[|ls| - 1], t);
    if t < |s.txs| {
      at := RefreshesWereEntitled(init, t);
      assert ls[..at] == init[..at];
    } else {
      at := |ls| - 1;
    }
  }

  // ----- Reuse -----

  /** A rotation of the family has committed between s and s'. */
  ghost predicate Rotated(s: Auth, s': Auth, family: nat) {
    exists i :: |s.rows| <= i < |s'.rows| && s'.rows[i].family == family
  }

  lemma AgesTransitive(s: Auth, t: Auth, u: Auth)
    requires RowsOnlyAge(s, t) && RowsOnlyAge(t, u)
    ensures RowsOnlyAge(s, u)
  {
    forall i | |s.rows| <= i < |u.rows| && u.rows[i].family < s.families ensures !Dead(s, u.rows[i].family) {
      var f := u.rows[i].family;
      if i >= |t.rows| {
        var j: nat :| j < |t.rows| && Live(t, f, j);
        if j < |s.rows| {
          assert Live(s, f, j);
        }
      }
    }
  }

  lemma {:induction false} ExecAges(s: Auth, ls: seq<Label>)
    requires Inv(s)
    ensures RowsOnlyAge(s, Exec(s, ls)) && Inv(Exec(s, ls))
  {
    if ls != [] {
      var before := Exec(s, ls[..|ls| - 1]);
      ExecAges(s, ls[..|ls| - 1]);
      StepInv(before, ls[|ls| - 1]);
      StepAges(before, ls[|ls| - 1]);
      AgesTransitive(s, before, Step(before, ls[|ls| - 1]));
    }
  }

  lemma OneLiveOnly(s: Auth, i: nat, j: nat)
    requires OneLive(s) && i < j < |s.rows| && s.rows[i].family == s.rows[j].family && !s.rows[j].revoked
    ensures s.rows[i].revoked
  {
  }

  lemma NewRowLive(s: Auth, l: Label, j: nat)
    requires |s.rows| <= j < |Step(s, l).rows|
    ensures !Step(s, l).rows[j].revoked
  {
  }

  /** A step that adds a row to an existing family revokes all older rows of it. */
  lemma RotationStep(s: Auth, l: Label, family: nat, i: nat)
    requires Inv(s) && family < s.families && Rotated(s, Step(s, l), family)
    requires i < |s.rows| && s.rows[i].family == family
    ensures Step(s, l).rows[i].revoked
  {
    StepInv(s, l);
    StepAges(s, l);
    var j :| |s.rows| <= j < |Step(s, l).rows| && Step(s, l).rows[j].family == family;
    NewRowLive(s, l, j);
    OneLiveOnly(Step(s, l), i, j);
  }

  /** Rows of a family that were there before a rotation of it are revoked after it. */
  lemma {:induction false} RotationRevokesOlder(s: Auth, ls: seq<Label>, family: nat, i: nat)
    requires Inv(s) && family < s.families && Rotated(s, Exec(s, ls), family)
    requires i < |s.rows| && s.rows[i].family == family
    ensures i < |Exec(s, ls).rows| && Exec(s, ls).rows[i].revoked
    decreases |ls|
  {
    var before, after := Exec(s, ls[..|ls| - 1]), Exec(s, ls);
    ExecAges(s, ls[..|ls| - 1]);
    StepAges(before, ls[|ls| - 1]);
    if Rotated(s, before, family) {
      RotationRevokesOlder(s, ls[..|ls| - 1], family, i);
    } else {
      var j :| |s.rows| <= j < |after.rows| && after.rows[j].family == family;
      assert j >= |before.rows|;
      RotationStep(before, ls[|ls| - 1], family, i);
    }
  }

  /** Revoking what was found in s leaves alive what lives in t and was not found. */
  lemma RevokedFound(t: Auth, found: set<nat>, family: nat, u: Auth)
    requires u.rows == Revoke(t.rows, found)
    ensures forall i: nat :: Live(u, family, i) <==> Live(t, family, i) && i !in found
  {
  }

  /** No row was added: all that lives was found. */
  lemma AllFound(s: Auth, t: Auth, family: nat, u: Auth)
    requires RowsOnlyAge(s, t) && !Rotated(s, t, family) && u.rows == Revoke(t.rows, LiveRows(s, family))
    ensures Dead(u, family)
  {
    RevokedFound(t, LiveRows(s, family), family, u);
    forall i: nat | i < |u.rows| ensures !Live(u, family, i) {
      if Live(t, family, i) {
        assert i < |s.rows| && Live(s, family, i);
      }
    }
  }

  /** Everything found has been revoked since: revoking it again changes nothing. */
  lemma NoneFound(t: Auth, found: set<nat>, family: nat, u: Auth)
    requires u.rows == Revoke(t.rows, found)
    requires forall i :: i in found ==> i < |t.rows| && t.rows[i].revoked
    ensures Dead(u, family) <==> Dead(t, family)
  {
    RevokedFound(t, found, family, u);
    assert |u.rows| == |t.rows|;
    assert forall i: nat :: i < |t.rows| ==> (Live(u, family, i) <==> Live(t, family, i));
  }

  lemma DeadIsLeftDead(t: Auth, found: set<nat>, family: nat, u: Auth)
    requires u.rows == Revoke(t.rows, found) && Dead(t, family)
    ensures Dead(u, family)
  {
    RevokedFound(t, found, family, u);
    assert forall i: nat :: i < |u.rows| ==> !Live(t, family, i);
  }

  /** A reuse was detected, its revoking statement found rows in s and finishes in s2 after
      whatever happened in between: the family is left without an unrevoked token exactly
      when it had none before the finish, or no rotation of it committed in between. */
  lemma ReuseEndsFamilyIff(s: Auth, t: nat, ls: seq<Label>)
    requires Inv(s) && t < |s.txs| && s.txs[t].phase.Reused?
    requires var s1 := Snapshot(s, t); var s2 := Exec(s1, ls);
             && t < |s2.txs| && s2.txs[t].phase == s1.txs[t].phase
             && forall i :: i in s1.txs[t].phase.found ==> !Locked(s2, i)
    ensures var s1 := Snapshot(s, t); var s2 := Exec(s1, ls); var family := s.rows[s.txs[t].row].family;
            Dead(Finish(s2, t), family) <==> Dead(s2, family) || !Rotated(s1, s2, family)
  {
    var s1, f := Snapshot(s, t), s.rows[s.txs[t].row].family;
    var s2, found := Exec(s1, ls), LiveRows(s1, f);
    SnapshotInv(s, t);
    ExecAges(s1, ls);
    assert found == s1.txs[t].phase.found;
    var s3 := Finish(s2, t);
    assert s3.rows == Revoke(s2.rows, found);
    if Dead(s2, f) {
      DeadIsLeftDead(s2, found, f, s3);
    } else if Rotated(s1, s2, f) {
      forall i | i in found ensures i < |s2.rows| && s2.rows[i].revoked {
        RotationRevokesOlder(s1, ls, f, i);
      }
      NoneFound(s2, found, f, s3);
    } else {
      AllFound(s1, s2, f, s3);
    }
  }

  /** A logout leaves the family without an unrevoked token exactly when the presented
      token was the unrevoked one, or there was none: logging out with a token that has
      been rotated leaves its successor in force. */
  lemma LogoutEndsFamilyIff(s: Auth, token: Token)
    requires Inv(s) && FindToken(s.rows, token).Some? && !Locked(s, FindToken(s.rows, token).value)
    ensures var row := s.rows[FindToken(s.rows, token).value];
            Dead(Logout(s, token), row.family) <==> Dead(s, row.family) || !row.revoked
  {
    var k := FindToken(s.rows, token).value;
    var f, s' := s.rows[k].family, Logout(s, token);
    assert forall i: nat :: i < |s.rows| ==> (Live(s', f, i) <==> Live(s, f, i) && i != k);
    if !s.rows[k].revoked {
      assert Live(s, f, k);
    }
  }

  // ----- A race -----

  lemma ExecSnoc(ls: seq<Label>, l: Label, s: Auth)
    requires Exec(EMPTY, ls) == s
    ensures Exec(EMPTY, ls + [l]) == Step(s, l)
  {
    assert (ls + [l])[..|ls|] == ls;
  }

  /** A session on its second token, whose rotation is in flight. */
  function Rotating2(a: Token, b: Token): Auth {
    Auth([Row(1, 0, a, 100, true), Row(1, 0, b, 100, false)], [Tx(0, Closed), Tx(1, Rotating)], 1)
  }

  lemma RaceBegins(a: Token, b: Token) returns (ls: seq<Label>)
    requires a != b
    ensures ls == [LoginAs(1, a, 100), BeginRefresh(a, 1, 0), CommitRotation(0, b, 100), BeginRefresh(b, 1, 0)]
    ensures Exec(EMPTY, ls) == Rotating2(a, b)
  {
    var r0, r1 := Row(1, 0, a, 100, false), Row(1, 0, b, 100, false);
    assert Exec(EMPTY, []) == EMPTY;
    ExecSnoc([], LoginAs(1, a, 100), EMPTY);
    ls := [LoginAs(1, a, 100)];
    assert [] + ls == ls;
    assert Exec(EMPTY, ls) == Auth([r0], [], 1);
    ExecSnoc(ls, BeginRefresh(a, 1, 0), Auth([r0], [], 1));
    ls := ls + [BeginRefresh(a, 1, 0)];
    assert Exec(EMPTY, ls) == Auth([r0], [Tx(0, Rotating)], 1);
    ExecSnoc(ls, CommitRotation(0, b, 100), Auth([r0], [Tx(0, Rotating)], 1));
    ls := ls + [CommitRotation(0, b, 100)];
    var s3 := Auth([r0.(revoked := true), r1], [Tx(0, Closed)], 1);
    assert Exec(EMPTY, ls) == s3;
    ExecSnoc(ls, BeginRefresh(b, 1, 0), s3);
    ls := ls + [BeginRefresh(b, 1, 0)];
  }

  lemma RaceReuse(a: Token, b: Token, c: Token)
    requires a != b && b != c && a != c
    ensures var s := Step(Rotating2(a, b), BeginRefresh(a, 1, 0));
            && s == Rotating2(a, b).(txs := [Tx(0, Closed), Tx(1, Rotating), Tx(0, Reused)])
            && Step(s, FindFamily(2)) == s.(txs := [Tx(0, Closed), Tx(1, Rotating), Tx(0, Revoking({1}))])
  {
    var s := Rotating2(a, b);
    assert s.rows[..1] == [s.rows[0]];
    assert FindToken(s.rows, a) == Some(0);
    var s' := Step(s, BeginRefresh(a, 1, 0));
    assert LiveRows(s', 0) == {1};
  }

  lemma RaceEnds(a: Token, b: Token, c: Token, s: Auth)
    requires a != b && b != c && a != c
    requires s == Rotating2(a, b).(txs := [Tx(0, Closed), Tx(1, Rotating), Tx(0, Revoking({1}))])
    ensures var s' := Step(Step(s, CommitRotation(1, c, 100)), RevokeFamily(2));
            s'.txs == [Tx(0, Closed), Tx(1, Closed), Tx(0, Closed)] && Live(s', 0, 2)
  {
    assert FindToken(s.rows, c) == None;
    var s1 := Step(s, CommitRotation(1, c, 100));
    assert s1.rows == [Row(1, 0, a, 100, true), Row(1, 0, b, 100, true), Row(1, 0, c, 100, false)];
    assert s1.txs == [Tx(0, Closed), Tx(1, Closed), Tx(0, Revoking({1}))];
    assert !Locked(s1, 1);
  }

  /** A rotation in flight when its family is revoked: the family keeps a live token. */
  lemma ReuseRaceExample(a: Token, b: Token, c: Token)
    requires a != b && b != c && a != c
    ensures var s := Exec(EMPTY, [LoginAs(1, a, 100), BeginRefresh(a, 1, 0), CommitRotation(0, b, 100),
              BeginRefresh(b, 1, 0)]
                                 + [BeginRefresh(a, 1, 0)] + [FindFamily(2)] + [CommitRotation(1, c, 100)]
                                     + [RevokeFamily(2)]);
            s.txs == [Tx(0, Closed), Tx(1, Closed), Tx(0, Closed)] && Live(s, 0, 2)
  {
    var l4 := RaceBegins(a, b);
    var s4 := Rotating2(a, b);
    RaceReuse(a, b, c);
    ExecSnoc(l4, BeginRefresh(a, 1, 0), s4);
    var s5 := Step(s4, BeginRefresh(a, 1, 0));
    ExecSnoc(l4 + [BeginRefresh(a, 1, 0)], FindFamily(2), s5);
    var s6 := Step(s5, FindFamily(2));
    RaceEnds(a, b, c, s6);
    ExecSnoc(l4 + [BeginRefresh(a, 1, 0)] + [FindFamily(2)], CommitRotation(1, c, 100), s6);
    ExecSnoc(l4 + [BeginRefresh(a, 1, 0)] + [FindFamily(2)] + [CommitRotation(1, c, 100)], RevokeFamily(2),
        Step(s6, CommitRotation(1, c, 100)));
  }
}
