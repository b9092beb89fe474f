/**
 Single-use enrollment tokens. An enrollment reads the token, and then in one
 transaction claims it, reads the agent and writes the credential. The claim locks the
 token's row until the transaction ends; nothing written is seen before the commit.

 Tokens, agents and enrollments are numbered in creation order.
 */
module Enrollment {
  import opened Common

  datatype Token = Token(agent: nat, expiresAt: int, usedAt: Option<int>, revokedAt: Option<int>)

  /** `credential` is the enrollment that issued it. */
  datatype Agent = Agent(present: bool, revokedAt: Option<int>, credential: Option<nat>)

  datatype Phase = Read | Claimed(at: int) | Checked(since: int) | Committed | Aborted
  datatype Enroll = Enroll(token: nat, phase: Phase)

  datatype Store = Store(tokens: seq<Token>, agents: seq<Agent>, enrolls: seq<Enroll>)

  const EMPTY := Store([], [], [])

  predicate Holds(e: Enroll, k: nat) {
    e.token == k && Holding(e)
  }

  /** The token's row is locked by a transaction that has claimed it. */
  predicate Locked(s: Store, k: nat) {
    exists e :: 0 <= e < |s.enrolls| && Holds(s.enrolls[e], k)
  }

  predicate Holding(e: Enroll) {
    e.phase.Claimed? || e.phase.Checked?
  }

  predicate Spends(e: Enroll) {
    Holding(e) || e.phase.Committed?
  }

  predicate Unspent(t: Token) {
    t.usedAt.None? && t.revokedAt.None?
  }

  predicate Valid(s: Store) {
    && (forall k :: 0 <= k < |s.tokens| ==> s.tokens[k].agent < |s.agents|)
    && (forall e :: 0 <= e < |s.enrolls| ==> s.enrolls[e].token < |s.tokens|)
  }

  // ----- Steps -----

  /** A token comes with a new agent of its own. */
  function Generate(s: Store, expiresAt: int): Store {
    s.(agents := s.agents + [Agent(true, None, None)], tokens := s.tokens + [Token(|s.agents|, expiresAt, None, None)])
  }

  /** Used, revoked and expired tokens are turned away before any transaction. */
  function Present(s: Store, k: nat, now: int): Store {
    if k < |s.tokens| && Unspent(s.tokens[k]) && now < s.tokens[k].expiresAt
    then s.(enrolls := s.enrolls + [Enroll(k, Read)]) else s
  }

  function SetPhase(s: Store, e: nat, phase: Phase): Store
    requires e < |s.enrolls|
  {
    s.(enrolls := s.enrolls[e := s.enrolls[e].(phase := phase)])
  }

  /** The compare-and-set of the claim; it waits for the row's lock. */
  function Claim(s: Store, e: nat, now: int): Store
    requires Valid(s) && e < |s.enrolls| && s.enrolls[e].phase.Read?
  {
    var k := s.enrolls[e].token;
    if Locked(s, k) then s
    else SetPhase(s, e, if Unspent(s.tokens[k]) then Claimed(now) else Aborted)
  }

  /** The transaction reads the agent: a missing or revoked one rolls it back. */
  function Check(s: Store, e: nat): Store
    requires Valid(s) && e < |s.enrolls| && s.enrolls[e].phase.Claimed?
  {
    var agent := s.agents[s.tokens[s.enrolls[e].token].agent];
    SetPhase(s, e, if agent.present && agent.revokedAt.None? then Checked(s.enrolls[e].phase.at) else Aborted)
  }

  /** The credential is written and all commits. An agent deleted meanwhile takes no write. */
  function Commit(s: Store, e: nat): Store
    requires Valid(s) && e < |s.enrolls| && s.enrolls[e].phase.Checked?
  {
    var k, since := s.enrolls[e].token, s.enrolls[e].phase.since;
    var a := s.tokens[k].agent;
    var agent := s.agents[a];
    SetPhase(s, e, Committed).(
      tokens := s.tokens[k := s.tokens[k].(usedAt := Some(since))],
      agents := s.agents[a := if agent.present then agent.(credential := Some(e)) else agent])
  }

  /** Revokes an unused token; it waits for the row's lock. */
  function RevokeToken(s: Store, k: nat, now: int): Store
    requires k < |s.tokens|
  {
    if Locked(s, k) || !Unspent(s.tokens[k]) then s
    else s.(tokens := s.tokens[k := s.tokens[k].(revokedAt := Some(now))])
  }

  function RevokeAgent(s: Store, a: nat, now: int): Store
    requires a < |s.agents|
  {
    if !s.agents[a].present then s else s.(agents := s.agents[a := s.agents[a].(revokedAt := Some(now))])
  }

  function DeleteAgent(s: Store, a: nat): Store
    requires a < |s.agents|
  {
    s.(agents := s.agents[a := s.agents[a].(present := false)])
  }

  datatype Label = GenerateToken(expiresAt: int) | PresentToken(token: nat, now: int)
      | ClaimToken(enroll: nat, now: int)
                 | CheckAgent(enroll: nat) | CommitEnroll(enroll: nat) | Rollback(enroll: nat)
                 | Revoke(token: nat, now: int) | RevokeAgentOf(agent: nat, now: int) | DeleteAgentOf(agent: nat)

  /** An enrollment does what its phase allows; anything else is no step. */
  function Step(s: Store, l: Label): (s': Store)
    requires Valid(s)
    ensures Valid(s')
  {
    match l
    case GenerateToken(expiresAt) => Generate(s, expiresAt)
    case PresentToken(k, now) => Present(s, k, now)
    case ClaimToken(e, now) => if e < |s.enrolls| && s.enrolls[e].phase.Read? then Claim(s, e, now) else s
    case CheckAgent(e) => if e < |s.enrolls| && s.enrolls[e].phase.Claimed? then Check(s, e) else s
    case CommitEnroll(e) => if e < |s.enrolls| && s.enrolls[e].phase.Checked? then Commit(s, e) else s
    case Rollback(e) => if e < |s.enrolls| && !s.enrolls[e].phase.Committed? then SetPhase(s, e, Aborted) else s
    case Revoke(k, now) => if k < |s.tokens| then RevokeToken(s, k, now) else s
    case RevokeAgentOf(a, now) => if a < |s.agents| then RevokeAgent(s, a, now) else s
    case DeleteAgentOf(a) => if a < |s.agents| then DeleteAgent(s, a) else s
  }

  function Exec(s: Store, ls: seq<Label>): (s': Store)
    requires Valid(s)
    ensures Valid(s')
  {
    if ls == [] then s else Step(Exec(s, ls[..|ls| - 1]), ls[|ls| - 1])
  }

  // ----- The handlers, on the tables -----

  class Tables {
    var tokens: seq<Token>
    var agents: seq<Agent>
    var enrolls: seq<Enroll>

    function State(): Store
      reads this
    {
      Store(tokens, agents, enrolls)
    }

    constructor ()
      ensures State() == EMPTY
    {
      tokens, agents, enrolls := [], [], [];
    }

    method IsLocked(k: nat) returns (locked: bool)
      ensures locked == Locked(State(), k)
    {
      for e := 0 to |enrolls|
        invariant forall f :: 0 <= f < e ==> !Holds(enrolls[f], k)
      {
        if Holds(enrolls[e], k) {
          return true;
        }
      }
      return false;
    }

    method GenerateEnrollmentToken(expiresAt: int)
      modifies this
      ensures State() == Generate(old(State()), expiresAt)
    {
      tokens := tokens + [Token(|agents|, expiresAt, None, None)];
      agents := agents + [Agent(true, None, None)];
    }

    /** UPDATE ... WHERE used_at IS NULL AND revoked_at IS NULL: the rows affected. */
    method ClaimRow(e: nat, now: int) returns (affected: Option<nat>)
      requires ValidStore() && e < |enrolls| && enrolls[e].phase.Read?
      modifies this
      ensures State() == Claim(old(State()), e, now)
      ensures affected.None? <==> Locked(old(State()), enrolls[e].token)
      ensures affected.Some? ==> affected.value == if enrolls[e].phase.Claimed? then 1 else 0
    {
      var k := enrolls[e].token;
      var locked := IsLocked(k);
      if locked {
        return None;
      }
      if tokens[k].usedAt.None? && tokens[k].revokedAt.None? {
        enrolls := enrolls[e := enrolls[e].(phase := Claimed(now))];
        return Some(1);
      }
      enrolls := enrolls[e := enrolls[e].(phase := Aborted)];
      return Some(0);
    }

    ghost predicate ValidStore()
      reads this
    {
      Valid(State())
    }

    /** Writes the credential and the use of the token. */
    method WriteCredential(e: nat)
      requires ValidStore() && e < |enrolls| && enrolls[e].phase.Checked?
      modifies this
      ensures State() == Commit(old(State()), e)
    {
      var k, since := enrolls[e].token, enrolls[e].phase.since;
      var a := tokens[k].agent;
      tokens := tokens[k := tokens[k].(usedAt := Some(since))];
      if agents[a].present {
        agents := agents[a := agents[a].(credential := Some(e))];
      }
      enrolls := enrolls[e := enrolls[e].(phase := Committed)];
    }

    /** UPDATE ... WHERE used_at IS NULL AND revoked_at IS NULL: whether a row changed. */
    method RevokeRow(k: nat, now: int) returns (changed: bool)
      requires k < |tokens|
      modifies this
      ensures State() == RevokeToken(old(State()), k, now)
      ensures changed <==> !Locked(old(State()), k) && old(tokens)[k].usedAt.None? && old(tokens)[k].revokedAt.None?
      ensures tokens == if changed then old(tokens)[k := old(tokens)[k].(revokedAt := Some(now))] else old(tokens)
      ensures agents == old(agents) && enrolls == old(enrolls)
    {
      var locked := IsLocked(k);
      changed := !locked && tokens[k].usedAt.None? && tokens[k].revokedAt.None?;
      if changed {
        tokens := tokens[k := tokens[k].(revokedAt := Some(now))];
      }
    }
  }

  // ----- The invariant -----

  /** At most one enrollment at a time holds or has consumed a token. */
  ghost predicate OneHolder(s: Store) {
    forall e, f :: 0 <= e < f < |s.enrolls| && s.enrolls[e].token == s.enrolls[f].token ==>
      !(Spends(s.enrolls[e]) && Spends(s.enrolls[f]))
  }

  ghost predicate ConsumedBy(s: Store, k: nat, e: nat) {
    e < |s.enrolls| && s.enrolls[e].token == k && s.enrolls[e].phase.Committed?
  }

  /** Used means that an enrollment committed; a token held by one is unspent. */
  ghost predicate UsedByOne(s: Store)
    requires Valid(s)
  {
    && (forall k :: 0 <= k < |s.tokens| ==> s.tokens[k].usedAt.Some? ==> exists e: nat :: ConsumedBy(s, k, e))
    && (forall e :: 0 <= e < |s.enrolls| ==> PhaseMatches(s.enrolls[e], s.tokens[s.enrolls[e].token]))
  }

  predicate PhaseMatches(e: Enroll, t: Token) {
    (e.phase.Committed? ==> t.usedAt.Some?) && (Holding(e) ==> Unspent(t))
  }

  ghost predicate NeverBoth(s: Store) {
    forall k :: 0 <= k < |s.tokens| ==> s.tokens[k].usedAt.None? || s.tokens[k].revokedAt.None?
  }

  /** A credential comes from a committed enrollment with a token of the agent. */
  ghost predicate CredentialsEarned(s: Store)
    requires Valid(s)
  {
    forall a :: 0 <= a < |s.agents| && s.agents[a].credential.Some? ==> EarnedBy(s, a, s.agents[a].credential.value)
  }

  predicate EarnedBy(s: Store, a: nat, e: nat)
    requires Valid(s)
  {
    e < |s.enrolls| && s.enrolls[e].phase.Committed? && s.tokens[s.enrolls[e].token].agent == a
  }

  ghost predicate Inv(s: Store) {
    Valid(s) && OneHolder(s) && UsedByOne(s) && NeverBoth(s) && CredentialsEarned(s)
  }

  /** What keeps earlier commits in place: they stay committed, with the same token. */
  ghost predicate CommitsStay(s: Store, s': Store) {
    && |s.enrolls| <= |s'.enrolls| && |s.tokens| <= |s'.tokens|
    && (forall e :: 0 <= e < |s.enrolls| ==>
         s'.enrolls[e].token == s.enrolls[e].token && (s.enrolls[e].phase.Committed? ==> s'.enrolls[e] == s.enrolls[e]))
    && (forall k :: 0 <= k < |s.tokens| ==> s'.tokens[k].agent == s.tokens[k].agent)
  }

  lemma UsedStaysEarned(s: Store, s': Store)
    requires Inv(s) && Valid(s') && CommitsStay(s, s')
    ensures forall k :: 0 <= k < |s.tokens| && s.tokens[k].usedAt.Some? ==> exists e: nat :: ConsumedBy(s', k, e)
    ensures forall a, e: nat :: 0 <= a < |s.agents| && EarnedBy(s, a, e) ==> EarnedBy(s', a, e)
  {
    forall k | 0 <= k < |s.tokens| && s.tokens[k].usedAt.Some? ensures exists e: nat :: ConsumedBy(s', k, e) {
      var e: nat :| ConsumedBy(s, k, e);
      assert ConsumedBy(s', k, e);
    }
  }

  lemma GenerateInv(s: Store, expiresAt: int)
    requires Inv(s)
    ensures Inv(Generate(s, expiresAt)) && CommitsStay(s, Generate(s, expiresAt))
  {
    UsedStaysEarned(s, Generate(s, expiresAt));
  }

  lemma PresentInv(s: Store, k: nat, now: int)
    requires Inv(s)
    ensures Inv(Present(s, k, now)) && CommitsStay(s, Present(s, k, now))
  {
    UsedStaysEarned(s, Present(s, k, now));
  }

  /** An enrollment moves on, but not to Committed. */
  lemma PhaseInv(s: Store, e: nat, phase: Phase)
    requires Inv(s) && e < |s.enrolls| && !s.enrolls[e].phase.Committed? && !phase.Committed?
    requires Holding(Enroll(0, phase)) && s.enrolls[e].phase.Read? ==>
               !Locked(s, s.enrolls[e].token) && Unspent(s.tokens[s.enrolls[e].token])
    requires s.enrolls[e].phase.Aborted? ==> phase.Aborted?
    ensures Inv(SetPhase(s, e, phase)) && CommitsStay(s, SetPhase(s, e, phase))
  {
    var s' := SetPhase(s, e, phase);
    UsedStaysEarned(s, s');
    if Holding(Enroll(0, phase)) && s.enrolls[e].phase.Read? {
      forall f | 0 <= f < |s.enrolls| && f != e && s.enrolls[f].token == s.enrolls[e].token
        ensures !Spends(s.enrolls[f]) {
        assert !Holds(s.enrolls[f], s.enrolls[e].token) && PhaseMatches(s.enrolls[f], s.tokens[s.enrolls[f].token]);
      }
    }
  }

  lemma ClaimInv(s: Store, e: nat, now: int)
    requires Inv(s) && e < |s.enrolls| && s.enrolls[e].phase.Read?
    ensures Inv(Claim(s, e, now)) && CommitsStay(s, Claim(s, e, now))
  {
    if !Locked(s, s.enrolls[e].token) {
      PhaseInv(s, e, if Unspent(s.tokens[s.enrolls[e].token]) then Claimed(now) else Aborted);
    }
  }

  lemma CheckInv(s: Store, e: nat)
    requires Inv(s) && e < |s.enrolls| && s.enrolls[e].phase.Claimed?
    ensures Inv(Check(s, e)) && CommitsStay(s, Check(s, e))
  {
    var agent := s.agents[s.tokens[s.enrolls[e].token].agent];
    PhaseInv(s, e, if agent.present && agent.revokedAt.None? then Checked(s.enrolls[e].phase.at) else Aborted);
  }

  lemma CommitInv(s: Store, e: nat)
    requires Inv(s) && e < |s.enrolls| && s.enrolls[e].phase.Checked?
    ensures Inv(Commit(s, e)) && CommitsStay(s, Commit(s, e))
  {
    var s', k := Commit(s, e), s.enrolls[e].token;
    UsedStaysEarned(s, s');
    assert ConsumedBy(s', k, e);
    assert EarnedBy(s', s.tokens[k].agent, e);
    assert PhaseMatches(s.enrolls[e], s.tokens[k]);
    forall f | 0 <= f < |s.enrolls| ensures PhaseMatches(s'.enrolls[f], s'.tokens[s'.enrolls[f].token]) {
      assert PhaseMatches(s.enrolls[f], s.tokens[s.enrolls[f].token]);
    }
  }

  lemma RevokeTokenInv(s: Store, k: nat, now: int)
    requires Inv(s) && k < |s.tokens|
    ensures Inv(RevokeToken(s, k, now)) && CommitsStay(s, RevokeToken(s, k, now))
  {
    var s' := RevokeToken(s, k, now);
    UsedStaysEarned(s, s');
    if s' != s {
      forall f | 0 <= f < |s.enrolls| ensures PhaseMatches(s'.enrolls[f], s'.tokens[s'.enrolls[f].token]) {
        assert PhaseMatches(s.enrolls[f], s.tokens[s.enrolls[f].token]) && !Holds(s.enrolls[f], k);
      }
    }
  }

  lemma AgentInv(s: Store, a: nat, agent: Agent)
    requires Inv(s) && a < |s.agents| && agent.credential == s.agents[a].credential
    ensures Inv(s.(agents := s.agents[a := agent])) && CommitsStay(s, s.(agents := s.agents[a := agent]))
  {
    UsedStaysEarned(s, s.(agents := s.agents[a := agent]));
  }

  /** Steps of one enrollment. */
  lemma EnrollInv(s: Store, l: Label)
    requires Inv(s) && (l.ClaimToken? || l.CheckAgent? || l.CommitEnroll? || l.Rollback?)
    ensures Inv(Step(s, l)) && CommitsStay(s, Step(s, l))
  {
    match l
    case ClaimToken(e, now) => if e < |s.enrolls| && s.enrolls[e].phase.Read? { ClaimInv(s, e, now); }
    case CheckAgent(e) => if e < |s.enrolls| && s.enrolls[e].phase.Claimed? { CheckInv(s, e); }
    case CommitEnroll(e) => if e < |s.enrolls| && s.enrolls[e].phase.Checked? { CommitInv(s, e); }
    case Rollback(e) => if e < |s.enrolls| && !s.enrolls[e].phase.Committed? { PhaseInv(s, e, Aborted); }
  }

  lemma StepInv(s: Store, l: Label)
    requires Inv(s)
    ensures Inv(Step(s, l)) && CommitsStay(s, Step(s, l))
  {
    match l
    case GenerateToken(expiresAt) => GenerateInv(s, expiresAt);
    case PresentToken(k, now) => PresentInv(s, k, now);
    case Revoke(k, now) => if k < |s.tokens| { RevokeTokenInv(s, k, now); }
    case RevokeAgentOf(a, now) => if a < |s.agents| { AgentInv(s, a, s.agents[a].(revokedAt := Some(now))); }
    case DeleteAgentOf(a) => if a < |s.agents| { AgentInv(s, a, s.agents[a].(present := false)); }
    case _ => EnrollInv(s, l);
  }

  lemma {:induction false} ExecInv(s: Store, ls: seq<Label>)
    requires Inv(s)
    ensures Inv(Exec(s, ls)) && CommitsStay(s, Exec(s, ls))
  {
    if ls != [] {
      ExecInv(s, ls[..|ls| - 1]);
      StepInv(Exec(s, ls[..|ls| - 1]), ls[|ls| - 1]);
    }
  }

  // ----- Whole runs -----

  /** In every reachable state: no two enrollments got a credential from one token; a token
      is used exactly when one did, so an aborted transaction leaves it unused; no token is
      both used and revoked; and every credential was earned with a token of its agent. */
  lemma TokensAreSingleUse(ls: seq<Label>)
    ensures var s := Exec(EMPTY, ls);
            && (forall e, f :: 0 <= e < f < |s.enrolls|
                               && s.enrolls[e].phase.Committed? && s.enrolls[f].phase.Committed? ==>
                  s.enrolls[e].token != s.enrolls[f].token)
            && (forall k :: 0 <= k < |s.tokens| ==>
                 (s.tokens[k].usedAt.Some? <==> exists e: nat :: ConsumedBy(s, k, e)))
            && (forall k :: 0 <= k < |s.tokens| ==> s.tokens[k].usedAt.None? || s.tokens[k].revokedAt.None?)
            && (forall a :: 0 <= a < |s.agents| && s.agents[a].credential.Some? ==>
                 EarnedBy(s, a, s.agents[a].credential.value))
  {
    ExecInv(EMPTY, ls);
    var s := Exec(EMPTY, ls);
    forall k, e: nat | 0 <= k < |s.tokens| && ConsumedBy(s, k, e) ensures s.tokens[k].usedAt.Some? {
      assert PhaseMatches(s.enrolls[e], s.tokens[s.enrolls[e].token]);
    }
  }

  /** Step `at` presented token k, which was then unspent and not expired. */
  predicate PresentedAt(ls: seq<Label>, at: nat, k: nat) {
    && at < |ls| && ls[at].PresentToken? && ls[at].token == k
    && var s := Exec(EMPTY, ls[..at]);
       k < |s.tokens| && Unspent(s.tokens[k]) && ls[at].now < s.tokens[k].expiresAt
  }

  lemma NewEnrollsPresented(s: Store, l: Label, e: nat)
    requires Valid(s) && e < |Step(s, l).enrolls|
    ensures |s.enrolls| <= |Step(s, l).enrolls|
    ensures if e < |s.enrolls| then Step(s, l).enrolls[e].token == s.enrolls[e].token
            else l.PresentToken? && l.token == Step(s, l).enrolls[e].token && l.token < |s.tokens|
                 && Unspent(s.tokens[l.token]) && l.now < s.tokens[l.token].expiresAt
  {
  }

  /** Behind every enrollment, and so behind every credential, is a presentation of its
      token before it expired, while it was neither used nor revoked. */
  lemma {:induction false} EnrollsWerePresented(ls: seq<Label>, e: nat) returns (at: nat)
    requires e < |Exec(EMPTY, ls).enrolls|
    ensures PresentedAt(ls, at, Exec(EMPTY, ls).enrolls[e].token)
    decreases |ls|
  {
    var init, s := ls[..|ls| - 1], Exec(EMPTY, ls[..|ls| - 1]);
    NewEnrollsPresented(s, ls[|ls| - 1], e);
    if e < |s.enrolls| {
      at := EnrollsWerePresented(init, e);
      assert ls[..at] == init[..at];
    } else {
      at := |ls| - 1;
    }
  }

  predicate TokenRevoked(s: Store, k: nat) {
    k < |s.tokens| && s.tokens[k].revokedAt.Some?
  }

  lemma {:induction false} RevokedStaysRevoked(s: Store, k: nat, ls: seq<Label>)
    requires Inv(s) && TokenRevoked(s, k)
    ensures TokenRevoked(Exec(s, ls), k)
  {
    if ls != [] {
      var before := Exec(s, ls[..|ls| - 1]);
      RevokedStaysRevoked(s, k, ls[..|ls| - 1]);
      ExecInv(s, ls[..|ls| - 1]);
      assert forall e :: 0 <= e < |before.enrolls| && Holding(before.enrolls[e]) ==>
          PhaseMatches(before.enrolls[e], before.tokens[before.enrolls[e].token]);
    }
  }

  lemma UnspentByCommit(s: Store, k: nat, e: nat)
    requires Inv(s)
    ensures ConsumedBy(s, k, e) ==> s.tokens[k].usedAt.Some? && s.tokens[k].revokedAt.None?
  {
    if ConsumedBy(s, k, e) {
      assert PhaseMatches(s.enrolls[e], s.tokens[k]);
    }
  }

  /** Once revoked, a token never enrolls anyone. */
  lemma RevokedTokenNeverEnrolls(s: Store, k: nat, ls: seq<Label>, e: nat)
    requires Inv(s) && TokenRevoked(s, k)
    ensures !ConsumedBy(Exec(s, ls), k, e)
  {
    RevokedStaysRevoked(s, k, ls);
    ExecInv(s, ls);
    UnspentByCommit(Exec(s, ls), k, e);
  }

  /** The agent is revoked or deleted. */
  predicate Shut(s: Store, a: nat) {
    a < |s.agents| && (s.agents[a].revokedAt.Some? || !s.agents[a].present)
  }

  /** Agent a is shut, and enrollment e, if it is for a, has not read it and passed. */
  predicate Barred(s: Store, a: nat, e: nat)
    requires Valid(s)
  {
    Shut(s, a) && (e < |s.enrolls| && s.tokens[s.enrolls[e].token].agent == a ==>
                     s.enrolls[e].phase.Read? || s.enrolls[e].phase.Claimed? || s.enrolls[e].phase.Aborted?)
  }

  lemma StepKeepsBarred(s: Store, l: Label, a: nat, e: nat)
    requires Inv(s) && Barred(s, a, e)
    ensures Barred(Step(s, l), a, e)
  {
    StepInv(s, l);
  }

  /** An agent revoked (or deleted) before an enrollment reads it gets no credential from
      that enrollment, whatever else happens. */
  lemma {:induction false} RevokedAgentGetsNothing(s: Store, a: nat, e: nat, ls: seq<Label>)
    requires Inv(s) && Barred(s, a, e)
    ensures Barred(Exec(s, ls), a, e) && Exec(s, ls).agents[a].credential != Some(e)
  {
    if ls != [] {
      ExecInv(s, ls[..|ls| - 1]);
      RevokedAgentGetsNothing(s, a, e, ls[..|ls| - 1]);
      StepKeepsBarred(Exec(s, ls[..|ls| - 1]), ls[|ls| - 1], a, e);
    }
    ExecInv(s, ls);
    EarnedPhase(Exec(s, ls), a, e);
  }

  /** A barred enrollment is not the one that issued the agent's credential. */
  lemma EarnedPhase(s: Store, a: nat, e: nat)
    requires Inv(s) && Barred(s, a, e)
    ensures s.agents[a].credential != Some(e)
  {
    if s.agents[a].credential.Some? {
      assert EarnedBy(s, a, s.agents[a].credential.value);
    }
  }

  lemma ExecSnoc(ls: seq<Label>, l: Label, s: Store)
    requires Valid(s) && Exec(EMPTY, ls) == s
    ensures Exec(EMPTY, ls + [l]) == Step(s, l)
  {
    assert (ls + [l])[..|ls|] == ls;
  }

  /** One token, its agent, and one enrollment with it. */
  function Example(phase: Phase): (s: Store)
    ensures Valid(s)
  {
    Store([Token(0, 30, None, None)], [Agent(true, None, None)], [Enroll(0, phase)])
  }

  lemma PresentedExample()
    ensures Exec(EMPTY, [GenerateToken(30)] + [PresentToken(0, 1)]) == Example(Read)
  {
    var s := Store([Token(0, 30, None, None)], [Agent(true, None, None)], []);
    FirstSteps(s);
    ExecSnoc([], GenerateToken(30), EMPTY);
    assert [] + [GenerateToken(30)] == [GenerateToken(30)];
    ExecSnoc([GenerateToken(30)], PresentToken(0, 1), s);
  }

  lemma FirstSteps(s: Store)
    requires s == Store([Token(0, 30, None, None)], [Agent(true, None, None)], [])
    ensures Exec(EMPTY, []) == EMPTY && Step(EMPTY, GenerateToken(30)) == s
    ensures Step(s, PresentToken(0, 1)) == Example(Read)
  {
  }

  lemma ExampleSteps()
    ensures Step(Example(Read), ClaimToken(0, 1)) == Example(Claimed(1))
    ensures Step(Example(Claimed(1)), CheckAgent(0)) == Example(Checked(1))
  {
  }

  /** Revoked after the transaction read it, an agent is still given a credential. */
  lemma LateRevocationExample()
    ensures Exec(EMPTY, [GenerateToken(30)] + [PresentToken(0, 1)] + [ClaimToken(0, 1)] + [CheckAgent(0)]
              + [RevokeAgentOf(0, 2)] + [CommitEnroll(0)]).agents
            == [Agent(true, Some(2), Some(0))]
  {
    var l2 := [GenerateToken(30)] + [PresentToken(0, 1)];
    PresentedExample();
    ExampleSteps();
    ExecSnoc(l2, ClaimToken(0, 1), Example(Read));
    ExecSnoc(l2 + [ClaimToken(0, 1)], CheckAgent(0), Example(Claimed(1)));
    var l4, revoked := l2 + [ClaimToken(0, 1)] + [CheckAgent(0)],
        Example(Checked(1)).(agents := [Agent(true, Some(2), None)]);
    ExecSnoc(l4, RevokeAgentOf(0, 2), Example(Checked(1)));
    LateCommit(revoked);
    ExecSnoc(l4 + [RevokeAgentOf(0, 2)], CommitEnroll(0), revoked);
  }

  lemma LateCommit(revoked: Store)
    requires revoked == Example(Checked(1)).(agents := [Agent(true, Some(2), None)])
    ensures Step(Example(Checked(1)), RevokeAgentOf(0, 2)) == revoked
    ensures Step(revoked, CommitEnroll(0)).agents == [Agent(true, Some(2), Some(0))]
  {
  }
}
