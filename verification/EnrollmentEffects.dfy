/**
 What each step of an enrollment or a revocation writes, and exactly when; that an
 enrollment nobody disturbs gets its credential; and that a revocation takes hold.
 */
module EnrollmentEffects {
  import opened Common
  import opened Enrollment

  /** No open transaction has claimed token k. */
  predicate Free(s: Store, k: nat) {
    forall e :: 0 <= e < |s.enrolls| && s.enrolls[e].token == k ==>
      s.enrolls[e].phase.Read? || s.enrolls[e].phase.Committed? || s.enrolls[e].phase.Aborted?
  }

  /** Neither used nor revoked. */
  predicate Fresh(t: Token) {
    t.usedAt == None && t.revokedAt == None
  }

  lemma FreeIffNotLocked(s: Store, k: nat)
    ensures Free(s, k) <==> !Locked(s, k)
  {
    if e :| 0 <= e < |s.enrolls| && Holds(s.enrolls[e], k) {
      assert s.enrolls[e].token == k;
    }
  }

  /** Only token k may differ. */
  ghost predicate OnlyToken(s: Store, t: Store, k: nat) {
    |t.tokens| == |s.tokens| && forall i :: 0 <= i < |s.tokens| && i != k ==> t.tokens[i] == s.tokens[i]
  }

  ghost predicate OnlyAgent(s: Store, t: Store, a: nat) {
    |t.agents| == |s.agents| && forall i :: 0 <= i < |s.agents| && i != a ==> t.agents[i] == s.agents[i]
  }

  /** Only enrollment e may differ, and only in its phase. */
  ghost predicate OnlyEnroll(s: Store, t: Store, e: nat) {
    && |t.enrolls| == |s.enrolls|
    && (forall i :: 0 <= i < |s.enrolls| && i != e ==> t.enrolls[i] == s.enrolls[i])
    && (e < |s.enrolls| ==> t.enrolls[e].token == s.enrolls[e].token)
  }

  // ----- Steps -----

  /** A new token is unspent, for a new agent that has no credential yet. */
  lemma GenerateMakes(s: Store, expiresAt: int)
    requires Valid(s)
    ensures var t, k, a := Step(s, GenerateToken(expiresAt)), |s.tokens|, |s.agents|;
            && |t.tokens| == k + 1 && s.tokens <= t.tokens && |t.agents| == a + 1 && s.agents <= t.agents
            && t.enrolls == s.enrolls
            && t.tokens[k].agent == a && t.tokens[k].expiresAt == expiresAt && Fresh(t.tokens[k])
            && t.agents[a].present && t.agents[a].revokedAt == None && t.agents[a].credential == None
  {
  }

  /** A token is accepted exactly while it is unspent and before it expires. */
  lemma PresentedIff(s: Store, k: nat, now: int)
    requires Valid(s)
    ensures var t := Step(s, PresentToken(k, now));
            if k < |s.tokens| && Fresh(s.tokens[k]) && now < s.tokens[k].expiresAt
            then t.tokens == s.tokens && t.agents == s.agents && t.enrolls == s.enrolls + [Enroll(k, Read)]
            else t == s
  {
  }

  /** A claim waits for its row; then it succeeds exactly on an unspent token, and otherwise
      ends the enrollment. */
  lemma ClaimedIff(s: Store, e: nat, now: int)
    requires Valid(s) && e < |s.enrolls|
    ensures var t, k := Step(s, ClaimToken(e, now)), s.enrolls[e].token;
            if !s.enrolls[e].phase.Read? || !Free(s, k) then t == s
            else
              && t.tokens == s.tokens && t.agents == s.agents && OnlyEnroll(s, t, e)
              && t.enrolls[e].phase == if Fresh(s.tokens[k]) then Claimed(now) else Aborted
  {
    FreeIffNotLocked(s, s.enrolls[e].token);
  }

  /** An enrollment goes on exactly if its agent is there and not revoked. */
  lemma CheckedIff(s: Store, e: nat)
    requires Valid(s) && e < |s.enrolls|
    ensures var t, agent := Step(s, CheckAgent(e)), s.agents[s.tokens[s.enrolls[e].token].agent];
            if !s.enrolls[e].phase.Claimed? then t == s
            else
              && t.tokens == s.tokens && t.agents == s.agents && OnlyEnroll(s, t, e)
              && t.enrolls[e].phase == if agent.present && agent.revokedAt == None
                                       then Checked(s.enrolls[e].phase.at) else Aborted
  {
  }

  /** The commit marks the token as used at the time of the claim and writes the credential. */
  lemma CommitWrites(s: Store, e: nat)
    requires Valid(s) && e < |s.enrolls| && s.enrolls[e].phase.Checked?
    ensures var t, k := Step(s, CommitEnroll(e)), s.enrolls[e].token;
            var a := s.tokens[k].agent;
            && OnlyToken(s, t, k) && OnlyAgent(s, t, a) && OnlyEnroll(s, t, e)
            && t.enrolls[e].phase == Committed
            && t.tokens[k].usedAt == Some(s.enrolls[e].phase.since) && t.tokens[k].revokedAt == s.tokens[k].revokedAt
            && t.tokens[k].agent == a && t.tokens[k].expiresAt == s.tokens[k].expiresAt
            && t.agents[a].present == s.agents[a].present && t.agents[a].revokedAt == s.agents[a].revokedAt
            && t.agents[a].credential == if s.agents[a].present then Some(e) else s.agents[a].credential
  {
  }

  /** A rollback leaves token and agent as they were and ends the enrollment. */
  lemma RollbackEnds(s: Store, e: nat)
    requires Valid(s) && e < |s.enrolls|
    ensures var t := Step(s, Rollback(e));
            && t.tokens == s.tokens && t.agents == s.agents && OnlyEnroll(s, t, e)
            && t.enrolls[e].phase == if s.enrolls[e].phase.Committed? then Committed else Aborted
  {
  }

  /** Revoking an agent marks it, if it is still there; deleting it removes it. */
  lemma AgentsShut(s: Store, a: nat, now: int)
    requires Valid(s) && a < |s.agents|
    ensures var t := Step(s, RevokeAgentOf(a, now));
            && t.tokens == s.tokens && t.enrolls == s.enrolls && OnlyAgent(s, t, a)
            && t.agents[a].present == s.agents[a].present && t.agents[a].credential == s.agents[a].credential
            && t.agents[a].revokedAt == if s.agents[a].present then Some(now) else s.agents[a].revokedAt
    ensures var t := Step(s, DeleteAgentOf(a));
            && t.tokens == s.tokens && t.enrolls == s.enrolls && OnlyAgent(s, t, a)
            && !t.agents[a].present && t.agents[a].credential == s.agents[a].credential
            && t.agents[a].revokedAt == s.agents[a].revokedAt
  {
  }

  /** Revoking a token marks it exactly if it is unspent and its row is free. */
  lemma RevokedIff(s: Store, k: nat, now: int)
    requires Valid(s) && k < |s.tokens|
    ensures var t := Step(s, Revoke(k, now));
            if Fresh(s.tokens[k]) && Free(s, k) then
              && OnlyToken(s, t, k) && t.agents == s.agents && t.enrolls == s.enrolls
              && t.tokens[k].revokedAt == Some(now) && t.tokens[k].usedAt == None
              && t.tokens[k].agent == s.tokens[k].agent && t.tokens[k].expiresAt == s.tokens[k].expiresAt
            else t == s
  {
    FreeIffNotLocked(s, k);
  }

  // ----- Whole runs -----

  lemma Snoc(ls: seq<Label>, l: Label)
    ensures Exec(EMPTY, ls + [l]) == Step(Exec(EMPTY, ls), l)
  {
    assert (ls + [l])[..|ls|] == ls;
  }

  lemma {:induction false} ExecConcat(s: Store, a: seq<Label>, b: seq<Label>)
    requires Valid(s)
    ensures Exec(s, a + b) == Exec(Exec(s, a), b)
    decreases |b|
  {
    if b == [] {
      assert a + b == a;
    } else {
      ExecConcat(s, a, b[..|b| - 1]);
      assert (a + b)[..|a + b| - 1] == a + b[..|b| - 1];
    }
  }

  /** A revocation that finds the token unspent and its row free takes hold: the token is
      revoked from then on, and no enrollment with it ever commits, whatever comes. */
  lemma RevocationTakesHold(ls: seq<Label>, k: nat, now: int, more: seq<Label>, e: nat)
    requires var s := Exec(EMPTY, ls); k < |s.tokens| && Fresh(s.tokens[k]) && Free(s, k)
    ensures k < |Exec(EMPTY, ls + [Revoke(k, now)]).tokens|
    ensures Exec(EMPTY, ls + [Revoke(k, now)]).tokens[k].revokedAt == Some(now)
    ensures var s := Exec(EMPTY, ls + [Revoke(k, now)] + more);
            !(e < |s.enrolls| && s.enrolls[e].token == k && s.enrolls[e].phase.Committed?)
  {
    var revoked := ls + [Revoke(k, now)];
    Snoc(ls, Revoke(k, now));
    RevokedIff(Exec(EMPTY, ls), k, now);
    ExecInv(EMPTY, revoked);
    ExecConcat(EMPTY, revoked, more);
    RevokedTokenNeverEnrolls(Exec(EMPTY, revoked), k, more, e);
  }

  /** An enrollment that nobody disturbs gets its credential: presented while unspent and
      unexpired, with a free row and an agent in good standing. */
  lemma UndisturbedEnrollmentSucceeds(s: Store, k: nat, now: int, later: int)
    requires Valid(s) && k < |s.tokens| && Fresh(s.tokens[k]) && now < s.tokens[k].expiresAt && Free(s, k)
    requires s.agents[s.tokens[k].agent].present && s.agents[s.tokens[k].agent].revokedAt == None
    ensures var e, a := |s.enrolls|, s.tokens[k].agent;
            var claimed := Step(Step(s, PresentToken(k, now)), ClaimToken(e, later));
            var t := Step(Step(claimed, CheckAgent(e)), CommitEnroll(e));
            && e < |t.enrolls| && t.enrolls[e] == Enroll(k, Committed)
            && k < |t.tokens| && t.tokens[k].usedAt == Some(later)
            && a < |t.agents| && t.agents[a].credential == Some(e)
  {
    var e := |s.enrolls|;
    PresentedIff(s, k, now);
    var s1 := Step(s, PresentToken(k, now));
    assert s1.enrolls[e] == Enroll(k, Read);
    ClaimedIff(s1, e, later);
    var s2 := Step(s1, ClaimToken(e, later));
    CheckedIff(s2, e);
    CommitWrites(Step(s2, CheckAgent(e)), e);
  }
}
