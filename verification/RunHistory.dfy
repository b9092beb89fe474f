/** Theorems about whole executions of the run server: any number of handlers,
    scheduler ticks, retries, claims, cancels and monitor passes, interleaved in any
    way their database statements allow. */
module RunHistory {
  import opened Common
  import opened BackupRun
  import opened RunServer

  /** Rows are only added, and those there before have only moved on. */
  ghost predicate Grows(a: seq<Run>, b: seq<Run>) {
    |a| <= |b| && forall i :: 0 <= i < |a| ==> RowsReach(a[i], b[i])
  }

  lemma {:induction false} ExecGrows(ls: seq<Label>, more: seq<Label>)
    ensures Grows(Exec(ls).rows, Exec(ls + more).rows)
  {
    if more == [] {
      assert ls + more == ls;
      GrowsNot(Exec(ls).rows);
    } else {
      ExecGrows(ls, more[..|more| - 1]);
      assert (ls + more)[..|ls + more| - 1] == ls + more[..|more| - 1];
      LastStepGrows(Exec(ls).rows, ls + more);
    }
  }

  lemma GrowsNot(rows: seq<Run>)
    ensures Grows(rows, rows)
  {
  }

  lemma LastStepGrows(rows: seq<Run>, ls: seq<Label>)
    requires ls != [] && Grows(rows, Exec(ls[..|ls| - 1]).rows)
    ensures Grows(rows, Exec(ls).rows)
  {
    ExecInv(ls[..|ls| - 1]);
    OneMoreStep(rows, Exec(ls[..|ls| - 1]), ls[|ls| - 1]);
  }

  lemma ExecSnoc(ls: seq<Label>, l: Label)
    ensures Exec(ls + [l]) == Step(Exec(ls), l)
  {
    assert (ls + [l])[..|ls|] == ls;
  }

  lemma OneMoreStep(rows: seq<Run>, s: Server, l: Label)
    requires HandlersValid(s) && Grows(rows, s.rows)
    ensures Grows(rows, Step(s, l).rows)
  {
    StepRows(s, l);
    forall i | 0 <= i < |rows| ensures RowsReach(rows[i], Step(s, l).rows[i]) {
      StepReaches(rows[i], s.rows[i], Step(s, l).rows[i]);
    }
  }

  lemma StepReaches(a: Run, b: Run, c: Run)
    requires RowsReach(a, b) && RowStep(b, c)
    ensures RowsReach(a, c)
  {
  }

  /** Many steps of one row: identity fixed, never back, finished means finished. */
  ghost predicate RowsReach(a: Run, b: Run) {
    && a.job == b.job && a.agent == b.agent && a.scheduledFor == b.scheduledFor
    && a.retryOf == b.retryOf && a.attempt == b.attempt && a.createdAt == b.createdAt
    && (a.status == b.status || Rank(a.status) < Rank(b.status))
    && (Terminal(a.status) ==> a == b)
    && (a.cancelRequested ==> b.cancelRequested)
  }

  /** A finished run is sealed: status, counters, checksum, path, error and times
      stay what they were, whatever happens next. */
  lemma FinishedRunsAreSealed(ls: seq<Label>, more: seq<Label>, r: nat)
    requires r < |Exec(ls).rows| && Terminal(Exec(ls).rows[r].status)
    ensures r < |Exec(ls + more).rows| && Exec(ls + more).rows[r] == Exec(ls).rows[r]
  {
    ExecGrows(ls, more);
  }

  /** How often run r changed status in an execution. */
  ghost function Changes(ls: seq<Label>, r: nat): nat {
    if ls == [] then 0
    else
      var before, after := Exec(ls[..|ls| - 1]), Exec(ls);
      Changes(ls[..|ls| - 1], r)
      + if r < |before.rows| && r < |after.rows| && before.rows[r].status != after.rows[r].status then 1 else 0
  }

  /** Every status write is a legal transition, and no run sees more than four. */
  lemma {:induction false} StatusWritesAreTransitions(ls: seq<Label>, r: nat)
    requires r < |Exec(ls).rows|
    ensures Changes(ls, r) <= Rank(Exec(ls).rows[r].status) <= 4
    ensures forall k :: 0 <= k < |ls| && r < |Exec(ls[..k]).rows| ==>
              && r < |Exec(ls[..k + 1]).rows|
              && (Exec(ls[..k]).rows[r].status == Exec(ls[..k + 1]).rows[r].status
                  || CanTransition(Exec(ls[..k]).rows[r].status, Exec(ls[..k + 1]).rows[r].status))
  {
    var init := ls[..|ls| - 1];
    ExecInv(init);
    StepRows(Exec(init), ls[|ls| - 1]);
    if r < |Exec(init).rows| {
      StatusWritesAreTransitions(init, r);
    } else {
      UnbornNeverChanged(init, r);
    }
    forall k | 0 <= k < |ls| && r < |Exec(ls[..k]).rows|
      ensures r < |Exec(ls[..k + 1]).rows|
              && (Exec(ls[..k]).rows[r].status == Exec(ls[..k + 1]).rows[r].status
                  || CanTransition(Exec(ls[..k]).rows[r].status, Exec(ls[..k + 1]).rows[r].status))
    {
      OneTransition(ls, r, k);
    }
  }

  lemma OneTransition(ls: seq<Label>, r: nat, k: nat)
    requires k < |ls| && r < |Exec(ls[..k]).rows|
    ensures r < |Exec(ls[..k + 1]).rows|
            && (Exec(ls[..k]).rows[r].status == Exec(ls[..k + 1]).rows[r].status
                || CanTransition(Exec(ls[..k]).rows[r].status, Exec(ls[..k + 1]).rows[r].status))
  {
    assert ls[..k + 1][..k] == ls[..k];
    ExecInv(ls[..k]);
    StepRows(Exec(ls[..k]), ls[k]);
  }

  lemma {:induction false} UnbornNeverChanged(ls: seq<Label>, r: nat)
    requires |Exec(ls).rows| <= r
    ensures Changes(ls, r) == 0
  {
    if ls != [] {
      NoneVanish(ls);
      UnbornNeverChanged(ls[..|ls| - 1], r);
    }
  }

  lemma NoneVanish(ls: seq<Label>)
    requires ls != []
    ensures |Exec(ls[..|ls| - 1]).rows| <= |Exec(ls).rows|
  {
    ExecInv(ls[..|ls| - 1]);
    StepRows(Exec(ls[..|ls| - 1]), ls[|ls| - 1]);
  }

  /** Claims of run r that the server granted. */
  ghost function Claims(ls: seq<Label>, r: nat): nat {
    if ls == [] then 0
    else
      var l := ls[|ls| - 1];
      Claims(ls[..|ls| - 1], r)
      + if l.LClaim? && l.run == r && CanClaim(Exec(ls[..|ls| - 1]), r, l.agent) then 1 else 0
  }

  /** A run is claimed at most once, and by the agent it was created for. */
  lemma {:induction false} ClaimedOnceByItsOwnAgent(ls: seq<Label>, r: nat)
    ensures Claims(ls, r) <= 1
    ensures Claims(ls, r) == 1 ==> r < |Exec(ls).rows| && !Exec(ls).rows[r].status.Pending?
    ensures forall k :: 0 <= k < |ls| && ls[k].LClaim? && ls[k].run == r && CanClaim(Exec(ls[..k]), r, ls[k].agent) ==>
              r < |Exec(ls).rows| && ls[k].agent == Exec(ls).rows[r].agent
  {
    if ls != [] {
      var init := ls[..|ls| - 1];
      ClaimedOnceByItsOwnAgent(init, r);
      ExecInv(init);
      StepRows(Exec(init), ls[|ls| - 1]);
      forall k | 0 <= k < |ls| && ls[k].LClaim? && ls[k].run == r && CanClaim(Exec(ls[..k]), r, ls[k].agent)
        ensures r < |Exec(ls).rows| && ls[k].agent == Exec(ls).rows[r].agent
      {
        ClaimerOwnsRun(ls, k);
      }
    }
  }

  lemma ClaimerOwnsRun(ls: seq<Label>, k: nat)
    requires k < |ls| && ls[k].LClaim? && CanClaim(Exec(ls[..k]), ls[k].run, ls[k].agent)
    ensures ls[k].run < |Exec(ls).rows| && ls[k].agent == Exec(ls).rows[ls[k].run].agent
  {
    assert ls == ls[..k] + ls[k..];
    ExecGrows(ls[..k], ls[k..]);
  }

  /** At any time a job has at most one run in flight, a boundary was fired at most
      once per job, and retries form chains that never fork. */
  lemma JobsRunOneAtATime(ls: seq<Label>)
    ensures OneInFlight(Exec(ls).rows)
    ensures BoundariesUnique(Exec(ls).rows)
    ensures RetryChains(Exec(ls).rows)
  {
    ExecInv(ls);
  }

  /** Step `at` of the execution made run k as a retry: under the policy then in force
      attempts remained, the parent was the newest run of the job, and it had ended as
      FAILED at least the retry delay before. */
  ghost predicate RetryMadeAt(ls: seq<Label>, at: nat, rows: seq<Run>, k: nat) {
    && k < |rows| && rows[k].retryOf.Some?
    && at < |ls| && ls[at].LMaybeFire? && ls[at].policy.enabled
    && rows[k].job == ls[at].job && rows[k].createdAt == ls[at].now
    && rows[k].attempt <= ls[at].policy.maxRetries
    && var p := rows[k].retryOf.value;
       && p < k && Latest(Exec(ls[..at]).rows, ls[at].job) == Some(p)
       && rows[p].status.Failed? && rows[p].completedAt.Some?
       && rows[k].createdAt - rows[p].completedAt.value >= (if ls[at].policy.retryDelay > 0
            then ls[at].policy.retryDelay else 300)
  }

  /** Behind every retry there is a scheduler step that was entitled to make it. */
  lemma {:induction false} RetriesWereDue(ls: seq<Label>, k: nat) returns (at: nat)
    requires k < |Exec(ls).rows| && Exec(ls).rows[k].retryOf.Some?
    ensures RetryMadeAt(ls, at, Exec(ls).rows, k)
    decreases |ls|
  {
    var init, l := ls[..|ls| - 1], ls[|ls| - 1];
    assert ls == init + [l];
    if k < |Exec(init).rows| {
      RetryWasOne(init, l, k);
      at := RetriesWereDue(init, k);
      RetryStaysMade(init, l, at, k);
    } else {
      at := |init|;
      RetryJustMade(init, l, k);
    }
  }

  lemma RetryWasOne(init: seq<Label>, l: Label, k: nat)
    requires k < |Exec(init).rows|
    ensures k < |Exec(init + [l]).rows| && Exec(init + [l]).rows[k].retryOf == Exec(init).rows[k].retryOf
  {
    ExecGrows(init, [l]);
    assert RowsReach(Exec(init).rows[k], Exec(init + [l]).rows[k]);
  }

  lemma RetryJustMade(init: seq<Label>, l: Label, k: nat)
    requires |Exec(init).rows| <= k < |Exec(init + [l]).rows| && Exec(init + [l]).rows[k].retryOf.Some?
    ensures RetryMadeAt(init + [l], |init|, Exec(init + [l]).rows, k)
  {
    ExecInv(init);
    ExecSnoc(init, l);
    NewRetryWasDue(Exec(init), l, k);
    assert (init + [l])[..|init|] == init;
  }

  lemma RetryStaysMade(init: seq<Label>, l: Label, at: nat, k: nat)
    requires RetryMadeAt(init, at, Exec(init).rows, k)
    ensures RetryMadeAt(init + [l], at, Exec(init + [l]).rows, k)
  {
    ExecGrows(init, [l]);
    RetryAmongMoreRows(init, at, Exec(init).rows, Exec(init + [l]).rows, k);
    RetryAmongMoreSteps(init, init + [l], at, Exec(init + [l]).rows, k);
  }

  lemma RetryAmongMoreRows(ls: seq<Label>, at: nat, a: seq<Run>, b: seq<Run>, k: nat)
    requires RetryMadeAt(ls, at, a, k) && Grows(a, b)
    ensures RetryMadeAt(ls, at, b, k)
  {
    assert RowsReach(a[k], b[k]) && RowsReach(a[a[k].retryOf.value], b[a[k].retryOf.value]);
  }

  lemma RetryAmongMoreSteps(init: seq<Label>, ls: seq<Label>, at: nat, rows: seq<Run>, k: nat)
    requires init <= ls && RetryMadeAt(init, at, rows, k)
    ensures RetryMadeAt(ls, at, rows, k)
  {
    assert ls[..at] == init[..at] && ls[at] == init[at];
  }

  lemma OnlyRetriesRetry(s: Server, l: Label, k: nat)
    requires HandlersValid(s)
    requires |s.rows| <= k < |Step(s, l).rows| && Step(s, l).rows[k].retryOf.Some?
    ensures k == |s.rows| && l.LMaybeFire?
  {
    StepRows(s, l);
    if Advances(l) {
      AdvancesRows(s, l);
    }
  }

  lemma AdvancesRows(s: Server, l: Label)
    requires Advances(l)
    ensures |Step(s, l).rows| == |s.rows|
  {
  }

  lemma NewRetryWasDue(s: Server, l: Label, k: nat)
    requires HandlersValid(s)
    requires |s.rows| <= k < |Step(s, l).rows| && Step(s, l).rows[k].retryOf.Some?
    ensures k == |s.rows| && l.LMaybeFire? && l.policy.enabled
    ensures var r := Step(s, l).rows[k];
            && r.job == l.job && r.createdAt == l.now && r.attempt <= l.policy.maxRetries
            && r.retryOf == Latest(s.rows, l.job)
            && MayRetry(s.rows[r.retryOf.value], l.policy, l.now)
            && Step(s, l).rows[r.retryOf.value] == s.rows[r.retryOf.value]
  {
    OnlyRetriesRetry(s, l, k);
    assert Step(s, l) == MaybeFire(s, l.job, l.agent, l.policy, l.now);
  }

  /** The retries that led to run k, first run first. */
  ghost function Chain(rows: seq<Run>, k: nat): (c: seq<nat>)
    requires RetryChains(rows) && k < |rows|
    ensures c != [] && c[|c| - 1] == k
  {
    var retryOf := rows[k].retryOf;
    if retryOf.None? then [k] else Chain(rows, retryOf.value) + [k]
  }

  /** A chain is as long as its last attempt number says, so it is bounded by the largest
      MaxRetries ever in force; each link but the last is a failed run of the job, retried
      by the next. */
  lemma {:induction false} ChainsAreBounded(rows: seq<Run>, k: nat)
    requires RetryChains(rows) && k < |rows|
    ensures |Chain(rows, k)| == rows[k].attempt + 1
    ensures forall i :: 0 <= i < |Chain(rows, k)| ==> LinkOk(rows, rows[k].job, Chain(rows, k)[i], i)
    ensures forall i :: 0 <= i < |Chain(rows, k)| - 1 ==> Retried(rows, Chain(rows, k)[i], Chain(rows, k)[i + 1])
    decreases k
  {
    if rows[k].retryOf.Some? {
      var p := rows[k].retryOf.value;
      ChainsAreBounded(rows, p);
      var c := Chain(rows, p);
      assert Chain(rows, k) == c + [k] && Retried(rows, c[|c| - 1], k);
    }
  }

  predicate LinkOk(rows: seq<Run>, job: nat, r: nat, attempt: nat) {
    r < |rows| && rows[r].job == job && rows[r].attempt == attempt
  }

  predicate Retried(rows: seq<Run>, r: nat, again: nat) {
    r < again < |rows| && rows[r].status.Failed? && rows[again].retryOf == Some(r)
  }

  // ----- One tick -----

  /** What one tick does for one job when nothing comes between its two statements. */
  function TickJob(s: Server, job: nat, agent: nat, policy: Policy, boundary: Option<int>, now: int): Server {
    if !policy.enabled then s
    else
      var t := MaybeFire(s, job, agent, policy, now);
      if boundary.None? then t else Fire(t, job, agent, boundary.value, now)
  }

  /** Undisturbed, a tick creates at most one run for a job. */
  lemma TickCreatesAtMostOne(s: Server, job: nat, agent: nat, policy: Policy, boundary: Option<int>, now: int)
    ensures s.rows <= TickJob(s, job, agent, policy, boundary, now).rows
    ensures |TickJob(s, job, agent, policy, boundary, now).rows| <= |s.rows| + 1
    ensures forall i :: |s.rows| <= i < |TickJob(s, job, agent, policy, boundary, now).rows| ==>
              TickJob(s, job, agent, policy, boundary, now).rows[i].job == job
  {
    var t := MaybeFire(s, job, agent, policy, now);
    if t.rows != s.rows {
      assert t.rows[|s.rows|].job == job && InFlight(t.rows[|s.rows|].status);
      assert JobBusy(t.rows, job);
    }
  }

  /** Disturbed, it creates two exactly when everything the job got since, the retry
      and whatever else was created in between, has ended again, and the boundary is
      not one the job has already fired. */
  lemma DisturbedTickCreatesTwo(ls: seq<Label>, job: nat, agent: nat, policy: Policy, boundary: int,
                                between: seq<Label>, now: int, later: int)
    requires var a, b := Exec(ls), Exec(ls + [LMaybeFire(job, agent, policy, now)]);
             |a.rows| < |b.rows|
    ensures var k := |Exec(ls).rows|;
            var c := Exec(ls + [LMaybeFire(job, agent, policy, now)] + between);
            var d := Step(c, LFire(job, agent, boundary, later));
            && k < |c.rows| && c.rows[k].job == job
            && (|c.rows| < |d.rows| <==>
                && (forall i :: k <= i < |c.rows| && c.rows[i].job == job ==> Terminal(c.rows[i].status))
                && (forall i :: 0 <= i < |c.rows| && c.rows[i].job == job ==> c.rows[i].scheduledFor != Some(boundary)))
  {
    var ls1 := ls + [LMaybeFire(job, agent, policy, now)];
    ExecSnoc(ls, LMaybeFire(job, agent, policy, now));
    ExecGrows(ls1, between);
    IdleStaysIdle(Exec(ls).rows, Exec(ls1).rows, Exec(ls1 + between).rows, job);
  }

  /** Runs that had ended when the retry was made are no obstacle later. */
  lemma IdleStaysIdle(a: seq<Run>, b: seq<Run>, c: seq<Run>, job: nat)
    requires !JobBusy(a, job) && a <= b && Grows(b, c)
    ensures forall i :: 0 <= i < |a| && c[i].job == job ==> Terminal(c[i].status)
  {
    forall i | 0 <= i < |a| && c[i].job == job ensures Terminal(c[i].status) {
      assert b[i] == a[i] && RowsReach(b[i], c[i]);
    }
  }

  /** It does happen: a retry is cancelled by its user before the boundary is fired. */
  lemma DisturbedTickExample()
    ensures var failed := Exec([LEnlist(7), LRunNow(1, 7, 0), LClaim(0, 7, 10),
                                LBegin(0, 7, Report(Failed, NO_OUTCOME), true, 20), LCommit(0, 20)]);
            var retried := Step(failed, LMaybeFire(1, 7, Policy(true, 3, 60), 100));
            var cancelled := Step(retried, LCancel(1, 100));
            var fired := Step(cancelled, LFire(1, 7, 90, 100));
            |failed.rows| == 1 && |retried.rows| == 2 && |fired.rows| == 3
  {
    FailedOnce();
    var dead := Run(1, 7, None, None, 0, 0, 20, Failed, false, Some(10), Some(20), NO_OUTCOME);
    var s := Server([dead], [Handler(0, FromAgent(Report(Failed, NO_OUTCOME)), Running, Written)], map[7 := Some(10)]);
    var retried := Step(s, LMaybeFire(1, 7, Policy(true, 3, 60), 100));
    assert !JobBusy(s.rows, 1);
    assert retried.rows == [dead, NewRun(1, 7, 100, None, Some(0), 1)];
    var cancelled := Step(retried, LCancel(1, 100));
    assert |cancelled.rows| == 2 && cancelled.rows[0] == dead && cancelled.rows[1].status.Cancelled?
           && cancelled.rows[1].scheduledFor.None?;
    assert !JobBusy(cancelled.rows, 1) && !BoundaryFired(cancelled.rows, 1, 90);
  }

  lemma FailedOnce()
    ensures Exec([LEnlist(7), LRunNow(1, 7, 0), LClaim(0, 7, 10),
                  LBegin(0, 7, Report(Failed, NO_OUTCOME), true, 20), LCommit(0, 20)])
            == Server([Run(1, 7, None, None, 0, 0, 20, Failed, false, Some(10), Some(20), NO_OUTCOME)],
                      [Handler(0, FromAgent(Report(Failed, NO_OUTCOME)), Running, Written)],
                      map[7 := Some(10)])
  {
    Exec5(LEnlist(7), LRunNow(1, 7, 0), LClaim(0, 7, 10), LBegin(0, 7, Report(Failed, NO_OUTCOME), true, 20),
        LCommit(0, 20));
    MadeAndClaimed();
    ReportedFailed();
  }

  /** One run of job 1, claimed by agent 7. */
  function ClaimedRun(): Server {
    Server([Run(1, 7, None, None, 0, 0, 10, Running, false, Some(10), None, NO_OUTCOME)], [], map[7 := Some(10)])
  }

  lemma MadeAndClaimed()
    ensures Step(Step(Step(EMPTY, LEnlist(7)), LRunNow(1, 7, 0)), LClaim(0, 7, 10)) == ClaimedRun()
  {
    var s1, s2 := Server([], [], map[7 := None]), Server([NewRun(1, 7, 0, None, None, 0)], [], map[7 := None]);
    assert Step(EMPTY, LEnlist(7)) == s1;
    assert Step(s1, LRunNow(1, 7, 0)) == s2;
  }

  lemma ReportedFailed()
    ensures Step(Step(ClaimedRun(), LBegin(0, 7, Report(Failed, NO_OUTCOME), true, 20)), LCommit(0, 20))
            == Server([Run(1, 7, None, None, 0, 0, 20, Failed, false, Some(10), Some(20), NO_OUTCOME)],
                      [Handler(0, FromAgent(Report(Failed, NO_OUTCOME)), Running, Written)],
                      map[7 := Some(10)])
  {
    var s := ClaimedRun().(handlers := [Handler(0, FromAgent(Report(Failed, NO_OUTCOME)), Running, Started)]);
    assert Step(ClaimedRun(), LBegin(0, 7, Report(Failed, NO_OUTCOME), true, 20)) == s;
  }

  lemma Exec5(a: Label, b: Label, c: Label, d: Label, e: Label)
    ensures Exec([a, b, c, d, e]) == Step(Step(Step(Step(Step(EMPTY, a), b), c), d), e)
  {
    var p1, p2, p3, p4, p5 := [a], [a, b], [a, b, c], [a, b, c, d], [a, b, c, d, e];
    assert p5[..4] == p4 && p4[..3] == p3 && p3[..2] == p2 && p2[..1] == p1 && p1[..0] == [];
    assert Exec(p1) == Step(EMPTY, a);
    assert Exec(p2) == Step(Exec(p1), b);
    assert Exec(p3) == Step(Exec(p2), c);
  }

  // ----- The health monitor -----

  /** An enrolled agent that was never seen, or not in the last `seconds`. */
  predicate NotSeenFor(s: Server, agent: nat, seconds: int, now: int) {
    agent in s.agents && (s.agents[agent].Some? ==> s.agents[agent].value + seconds <= now)
  }

  /** The monitor ends a run only if, when it listed it, nothing had written the row for
      15 minutes and, when it then looked at the agent, that had not been heard of for 3.
      It ends it although either may have changed by the time of the write; only the status
      must still be the one listed. */
  lemma MonitorEndsOnlyStaleRuns(ls: seq<Label>, h: nat, now: int) returns (at: nat, looked: nat)
    requires h < |Exec(ls).handlers| && Exec(ls).handlers[h].source.FromMonitor?
    requires Step(Exec(ls), LStaleWrite(h, now)).rows != Exec(ls).rows
    ensures at < looked < |ls|
    ensures var r, listed := Exec(ls).handlers[h].run, Exec(ls[..at]);
            && ls[at].LStaleRead? && ls[at].run == r && r < |listed.rows| && r < |Exec(ls).rows|
            && ls[at].now - listed.rows[r].updatedAt > 900
            && listed.rows[r].status == Exec(ls).rows[r].status
            && Step(Exec(ls), LStaleWrite(h, now)).rows[r].status
               == (if listed.rows[r].cancelRequested then Cancelled else Failed)
    ensures var r, seen := Exec(ls).handlers[h].run, Exec(ls[..looked]);
            && ls[looked].LStaleLook? && ls[looked].h == h && r < |seen.rows|
            && NotSeenFor(seen, seen.rows[r].agent, 180, ls[looked].now)
  {
    looked := LookBehind(ls, h);
    at := StaleReadBehind(ls[..looked], h);
    assert ls[..looked][..at] == ls[..at];
  }

  predicate SameRequest(a: Handler, b: Handler) {
    a.run == b.run && a.source == b.source && a.snapshot == b.snapshot
  }

  /** Step `at` found the agent of this handler's run gone. */
  ghost predicate JudgedAt(ls: seq<Label>, at: nat, h: nat, hd: Handler) {
    && at < |ls| && ls[at].LStaleLook? && ls[at].h == h
    && var s := Exec(ls[..at]);
       && h < |s.handlers| && SameRequest(s.handlers[h], hd) && hd.run < |s.rows|
       && AgentGone(s, s.rows[hd.run].agent, ls[at].now)
  }

  lemma NewlyJudged(s: Server, l: Label, h: nat)
    requires h < |Step(s, l).handlers| && Step(s, l).handlers[h].state.Judged?
    requires h < |s.handlers| ==> !s.handlers[h].state.Judged?
    ensures l.LStaleLook? && l.h == h && h < |s.handlers| && SameRequest(s.handlers[h], Step(s, l).handlers[h])
    ensures s.handlers[h].run < |s.rows| && AgentGone(s, s.rows[s.handlers[h].run].agent, l.now)
  {
    if Advances(l) {
      AdvancesOne(s, l);
    } else {
      OthersOpen(s, l);
      OpenedStart(s, l);
    }
  }

  lemma OpenedStart(s: Server, l: Label)
    requires !Advances(l)
    ensures forall h :: |s.handlers| <= h < |Step(s, l).handlers| ==> Step(s, l).handlers[h].state.Started?
  {
  }

  lemma {:induction false} LookBehind(ls: seq<Label>, h: nat) returns (at: nat)
    requires h < |Exec(ls).handlers| && Exec(ls).handlers[h].state.Judged?
    ensures JudgedAt(ls, at, h, Exec(ls).handlers[h])
    decreases |ls|
  {
    var init, l := Front(ls);
    if h < |Exec(init).handlers| && Exec(init).handlers[h].state.Judged? {
      at := LookBehind(init, h);
      HandlerSame(Exec(init), l, h);
      JudgedStays(init, ls, at, h, Exec(init).handlers[h], Exec(ls).handlers[h]);
    } else {
      at := |init|;
      JudgedNow(ls, init, l, h);
    }
  }

  /** The last step of an execution that has opened a request. */
  lemma Front(ls: seq<Label>) returns (init: seq<Label>, l: Label)
    requires Exec(ls).handlers != []
    ensures ls == init + [l] && Exec(ls) == Step(Exec(init), l)
  {
    init, l := ls[..|ls| - 1], ls[|ls| - 1];
  }

  lemma HandlerSame(s: Server, l: Label, h: nat)
    requires h < |s.handlers|
    ensures h < |Step(s, l).handlers| && SameRequest(s.handlers[h], Step(s, l).handlers[h])
  {
    HandlersStay(s, l);
    assert Step(s, l).handlers[h].(state := s.handlers[h].state) == s.handlers[h];
  }

  lemma JudgedStays(init: seq<Label>, ls: seq<Label>, at: nat, h: nat, a: Handler, b: Handler)
    requires init <= ls && JudgedAt(init, at, h, a) && SameRequest(a, b)
    ensures JudgedAt(ls, at, h, b)
  {
    assert ls[..at] == init[..at] && ls[at] == init[at];
  }

  lemma JudgedNow(ls: seq<Label>, init: seq<Label>, l: Label, h: nat)
    requires ls == init + [l] && h < |Step(Exec(init), l).handlers| && Step(Exec(init), l).handlers[h].state.Judged?
    requires h < |Exec(init).handlers| ==> !Exec(init).handlers[h].state.Judged?
    ensures JudgedAt(ls, |init|, h, Step(Exec(init), l).handlers[h])
  {
    NewlyJudged(Exec(init), l, h);
    assert ls[..|init|] == init && ls[|init|] == l;
  }

  /** Step `at` is the listing that opened this handler. */
  ghost predicate ListedAt(ls: seq<Label>, at: nat, hd: Handler) {
    && hd.source.FromMonitor?
    && at < |ls| && ls[at].LStaleRead? && ls[at].run == hd.run
    && var s := Exec(ls[..at]);
       && hd.run < |s.rows| && LooksStale(s.rows[hd.run], ls[at].now)
       && s.rows[hd.run].status == hd.snapshot
       && s.rows[hd.run].cancelRequested == hd.source.sawCancel
  }

  lemma {:induction false} StaleReadBehind(ls: seq<Label>, h: nat) returns (at: nat)
    requires h < |Exec(ls).handlers| && Exec(ls).handlers[h].source.FromMonitor?
    ensures ListedAt(ls, at, Exec(ls).handlers[h])
    decreases |ls|
  {
    var init, l := Front(ls);
    if h < |Exec(init).handlers| {
      HandlerSame(Exec(init), l, h);
      at := StaleReadBehind(init, h);
      ListedStays(init, ls, at, Exec(init).handlers[h], Exec(ls).handlers[h]);
    } else {
      at := |init|;
      ListedNow(ls, init, l, h);
    }
  }

  lemma ListedStays(init: seq<Label>, ls: seq<Label>, at: nat, a: Handler, b: Handler)
    requires init <= ls && ListedAt(init, at, a) && SameRequest(a, b)
    ensures ListedAt(ls, at, b)
  {
    assert ls[..at] == init[..at] && ls[at] == init[at];
  }

  lemma ListedNow(ls: seq<Label>, init: seq<Label>, l: Label, h: nat)
    requires ls == init + [l] && |Exec(init).handlers| <= h < |Step(Exec(init), l).handlers|
    requires Step(Exec(init), l).handlers[h].source.FromMonitor?
    ensures ListedAt(ls, |init|, Step(Exec(init), l).handlers[h])
  {
    HandlersKept(Exec(init), l);
    assert ls[..|init|] == init && ls[|init|] == l;
  }

  lemma HandlersKept(s: Server, l: Label)
    ensures |s.handlers| <= |Step(s, l).handlers|
    ensures forall h :: 0 <= h < |s.handlers| ==> Step(s, l).handlers[h].(state := s.handlers[h].state) == s.handlers[h]
    ensures forall h :: |s.handlers| <= h < |Step(s, l).handlers| && Step(s, l).handlers[h].source.FromMonitor? ==>
              l.LStaleRead? && Step(s, l) == StaleRead(s, l.run, l.now) && LooksStale(s.rows[l.run], l.now)
              && Step(s, l).handlers[h] == Handler(l.run, FromMonitor(s.rows[l.run].cancelRequested),
                   s.rows[l.run].status, Started)
  {
    HandlersStay(s, l);
  }

  /** A heartbeat between the look and the write comes too late: the run is failed although
      its agent has been heard of since. */
  lemma LateHeartbeatExample()
    ensures var claimed := Exec([LEnlist(7)] + [LRunNow(1, 7, 0)] + [LClaim(0, 7, 10)]);
            var looked := Step(Step(claimed, LStaleRead(0, 1000)), LStaleLook(0, 1000));
            var ended := Step(Step(looked, LTouch(7, 1001)), LStaleWrite(0, 1002));
            && |ended.rows| == 1 && ended.rows[0].status.Failed? && ended.rows[0].agent == 7
            && 7 in ended.agents && ended.agents[7] == Some(1001)
  {
    MadeAndClaimed();
    assert Exec([]) == EMPTY && [] + [LEnlist(7)] == [LEnlist(7)];
    ExecSnoc([], LEnlist(7));
    ExecSnoc([LEnlist(7)], LRunNow(1, 7, 0));
    ExecSnoc([LEnlist(7)] + [LRunNow(1, 7, 0)], LClaim(0, 7, 10));
    LateHeartbeat(ClaimedRun());
  }

  lemma LateHeartbeat(claimed: Server)
    requires claimed == ClaimedRun()
    ensures var looked := Step(Step(claimed, LStaleRead(0, 1000)), LStaleLook(0, 1000));
            var ended := Step(Step(looked, LTouch(7, 1001)), LStaleWrite(0, 1002));
            && |ended.rows| == 1 && ended.rows[0].status.Failed? && ended.rows[0].agent == 7
            && 7 in ended.agents && ended.agents[7] == Some(1001)
  {
    var listed := claimed.(handlers := [Handler(0, FromMonitor(false), Running, Started)]);
    assert Step(claimed, LStaleRead(0, 1000)) == listed;
    var looked := claimed.(handlers := [Handler(0, FromMonitor(false), Running, Judged)]);
    assert Step(listed, LStaleLook(0, 1000)) == looked;
    assert Step(looked, LTouch(7, 1001)) == looked.(agents := map[7 := Some(1001)]);
  }

  /** Reporting progress does not count as being alive: no part of a status report
      changes when the agent was last seen, so a busy agent looks gone after three
      minutes and only its row writes keep its run from being failed. */
  lemma ReportsDoNotTouch(s: Server, l: Label, agent: nat)
    requires l.LBegin? || l.LCommit? || l.LReread?
    ensures Step(s, l).agents == s.agents
    ensures forall now :: AgentGone(Step(s, l), agent, now) == AgentGone(s, agent, now)
  {
  }
}
