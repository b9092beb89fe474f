/**
 What each step on the token table writes, and exactly when; and what a client gets out of
 a rotation: its old token is spent and the new one works until it expires.
 */
module RefreshEffects {
  import opened Common
  import opened RefreshTokens

  /** No open transaction holds row i. */
  predicate Free(s: Auth, i: nat) {
    forall t :: 0 <= t < |s.txs| && s.txs[t].row == i ==> s.txs[t].phase == Closed
  }

  lemma FreeIffNotLocked(s: Auth, i: nat)
    ensures Free(s, i) <==> !Locked(s, i)
  {
  }

  predicate Known(s: Auth, token: Token) {
    exists i :: 0 <= i < |s.rows| && s.rows[i].token == token
  }

  lemma KnownIffFound(s: Auth, token: Token)
    ensures Known(s, token) <==> FindToken(s.rows, token).Some?
  {
  }

  lemma FoundIs(s: Auth, i: nat)
    requires TokensUnique(s) && i < |s.rows|
    ensures FindToken(s.rows, s.rows[i].token) == Some(i)
  {
    var j := FindToken(s.rows, s.rows[i].token).value;
    assert s.rows[j].token == s.rows[i].token;
  }

  ghost predicate OnlyTx(s: Auth, t: Auth, k: nat) {
    && |t.txs| == |s.txs| && (forall i :: 0 <= i < |s.txs| && i != k ==> t.txs[i] == s.txs[i])
    && (k < |s.txs| ==> t.txs[k].row == s.txs[k].row)
  }

  /** Row i is as it was, but for being revoked. */
  predicate RevokedOnly(a: Row, b: Row) {
    b.user == a.user && b.family == a.family && b.token == a.token && b.expiresAt == a.expiresAt && b.revoked
  }

  // ----- Steps -----

  /** A login starts a family of its own with an unrevoked token, unless the token exists. */
  lemma LoginStarts(s: Auth, user: nat, token: Token, expiresAt: int)
    ensures var t := Step(s, LoginAs(user, token, expiresAt));
            if Known(s, token) then t == s
            else
              && |t.rows| == |s.rows| + 1 && s.rows <= t.rows && t.txs == s.txs && t.families == s.families + 1
              && var row := t.rows[|s.rows|];
                 && row.user == user && row.family == s.families && row.token == token
                 && row.expiresAt == expiresAt && !row.revoked
  {
    KnownIffFound(s, token);
  }

  /** A refresh gets in exactly with a token of its own user that has not expired, once the
      row is free; it is a reuse exactly if the token is revoked. */
  lemma BegunIff(s: Auth, i: nat, user: nat, now: int)
    requires TokensUnique(s) && i < |s.rows|
    ensures var t := Step(s, BeginRefresh(s.rows[i].token, user, now));
            if s.rows[i].user == user && now < s.rows[i].expiresAt && Free(s, i) then
              && t.rows == s.rows && t.families == s.families
              && |t.txs| == |s.txs| + 1 && s.txs <= t.txs && t.txs[|s.txs|].row == i
              && t.txs[|s.txs|].phase == if s.rows[i].revoked then Reused else Rotating
            else t == s
  {
    FoundIs(s, i);
    FreeIffNotLocked(s, i);
  }

  lemma UnknownIsRefused(s: Auth, token: Token, user: nat, now: int)
    requires !Known(s, token)
    ensures Step(s, BeginRefresh(token, user, now)) == s && Step(s, LogoutOf(token)) == s
  {
    KnownIffFound(s, token);
  }

  /** A rotation revokes its row and adds the successor: same user and family, the new token
      with the new expiry. If that token exists already nothing is written. */
  lemma RotationWrites(s: Auth, k: nat, token: Token, expiresAt: int)
    requires k < |s.txs| && s.txs[k].phase.Rotating? && s.txs[k].row < |s.rows|
    ensures var t, i := Step(s, CommitRotation(k, token, expiresAt)), s.txs[k].row;
            && OnlyTx(s, t, k) && t.txs[k].phase == Closed && t.families == s.families
            && if Known(s, token) then t.rows == s.rows
               else
                 && |t.rows| == |s.rows| + 1
                 && (forall j :: 0 <= j < |s.rows| && j != i ==> t.rows[j] == s.rows[j])
                 && RevokedOnly(s.rows[i], t.rows[i])
                 && var row := t.rows[|s.rows|];
                    && row.user == s.rows[i].user && row.family == s.rows[i].family
                    && row.token == token && row.expiresAt == expiresAt && !row.revoked
  {
    KnownIffFound(s, token);
  }

  lemma RollbackWritesNothing(s: Auth, k: nat)
    requires k < |s.txs|
    ensures var t := Step(s, Rollback(k));
            t.rows == s.rows && t.families == s.families && OnlyTx(s, t, k) && t.txs[k].phase == Closed
  {
  }

  /** The revoking statement finds exactly the unrevoked rows of its family ... */
  lemma FamilyIsFound(s: Auth, k: nat)
    requires k < |s.txs| && s.txs[k].phase.Reused? && s.txs[k].row < |s.rows|
    ensures var t := Step(s, FindFamily(k));
            && t.rows == s.rows && t.families == s.families && OnlyTx(s, t, k) && t.txs[k].phase.Revoking?
            && forall i: nat :: i in t.txs[k].phase.found <==>
                 i < |s.rows| && s.rows[i].family == s.rows[s.txs[k].row].family && !s.rows[i].revoked
  {
  }

  /** ... and revokes these, once all of them are free. */
  lemma FamilyIsRevoked(s: Auth, k: nat)
    requires k < |s.txs| && s.txs[k].phase.Revoking?
    ensures var t, found := Step(s, RevokeFamily(k)), s.txs[k].phase.found;
            if exists i :: i in found && !Free(s, i) then t == s
            else
              && |t.rows| == |s.rows| && t.families == s.families && OnlyTx(s, t, k) && t.txs[k].phase == Closed
              && forall i: nat :: i < |s.rows| ==>
                   if i in found then RevokedOnly(s.rows[i], t.rows[i]) else t.rows[i] == s.rows[i]
  {
    forall i: nat ensures Free(s, i) <==> !Locked(s, i) {
      FreeIffNotLocked(s, i);
    }
  }

  /** A logout revokes the row of its token, once that is free, and no other. */
  lemma LogoutRevokes(s: Auth, i: nat)
    requires TokensUnique(s) && i < |s.rows|
    ensures var t := Step(s, LogoutOf(s.rows[i].token));
            if !Free(s, i) then t == s
            else
              && t.txs == s.txs && t.families == s.families && |t.rows| == |s.rows|
              && RevokedOnly(s.rows[i], t.rows[i])
              && forall j :: 0 <= j < |s.rows| && j != i ==> t.rows[j] == s.rows[j]
  {
    FoundIs(s, i);
    FreeIffNotLocked(s, i);
  }

  // ----- What a rotation is for -----

  /** After a rotation that nobody disturbs, the new token gets its user in exactly until the
      new expiry, and the old token is taken for a reuse. */
  lemma SuccessorWorksUntilExpiry(s: Auth, i: nat, now: int, token: Token, expiresAt: int, later: int)
    requires Inv(s) && i < |s.rows| && !s.rows[i].revoked && now < s.rows[i].expiresAt && Free(s, i)
    requires !Known(s, token)
    ensures var user := s.rows[i].user;
            var t := Step(Step(s, BeginRefresh(s.rows[i].token, user, now)), CommitRotation(|s.txs|, token, expiresAt));
            && (later < expiresAt ==> Step(t, BeginRefresh(token, user, later)).txs == t.txs + [Tx(|s.rows|, Rotating)])
            && (later >= expiresAt ==> Step(t, BeginRefresh(token, user, later)) == t)
            && (later < s.rows[i].expiresAt ==>
                  Step(t, BeginRefresh(s.rows[i].token, user, later)).txs == t.txs + [Tx(i, Reused)])
  {
    var user, k, n := s.rows[i].user, |s.txs|, |s.rows|;
    BegunIff(s, i, user, now);
    var s1 := Step(s, BeginRefresh(s.rows[i].token, user, now));
    StepInv(s, BeginRefresh(s.rows[i].token, user, now));
    assert !Known(s1, token);
    RotationWrites(s1, k, token, expiresAt);
    var t := Step(s1, CommitRotation(k, token, expiresAt));
    StepInv(s1, CommitRotation(k, token, expiresAt));
    forall u | 0 <= u < |t.txs| && (t.txs[u].row == n || t.txs[u].row == i) ensures t.txs[u].phase == Closed {
      if u != k {
        assert t.txs[u] == s.txs[u] && s.txs[u].row < n;
      }
    }
    BegunIff(t, n, user, later);
    BegunIff(t, i, user, later);
    assert t.rows[i].token == s.rows[i].token && t.rows[n].token == token;
  }
}
