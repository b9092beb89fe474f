/**
 The handlers and background passes as they update the run table in place. Each
 method is tied to the step function it performs; the loops of the scheduler tick and
 of the monitor pass are tied to what they do to every job and every row.
 */
module RunHandlers {
  import opened Common
  import opened BackupRun
  import opened RunServer
  import opened RunHistory
  import Cron

  /** A job as the scheduler resolved it: its policy and, if it parses, its cron. */
  datatype Job = Job(id: nat, agent: nat, policy: Policy, cron: Option<Cron.Next>)

  function DueBoundary(job: Job, prev: int, now: int): Option<int> {
    match job.cron
    case None => None
    case Some(next) => Cron.BoundaryFor(next, prev, now)
  }

  /** A tick over the jobs in turn. */
  function TickAll(s: Server, jobs: seq<Job>, prev: int, now: int): Server {
    if jobs == [] then s
    else
      var j := jobs[|jobs| - 1];
      var before := TickAll(s, jobs[..|jobs| - 1], prev, now);
      TickJob(before, j.id, j.agent, j.policy, DueBoundary(j, prev, now), now)
  }

  /** However many jobs a tick visits, it adds at most one run to each, only to jobs it
      visits, and leaves every earlier run alone. */
  lemma {:induction false} TickAddsOnePerJob(s: Server, jobs: seq<Job>, prev: int, now: int)
    requires forall i, j :: 0 <= i < j < |jobs| ==> jobs[i].id != jobs[j].id
    ensures s.rows <= TickAll(s, jobs, prev, now).rows
    ensures forall k :: |s.rows| <= k < |TickAll(s, jobs, prev, now).rows| ==>
              exists i :: 0 <= i < |jobs| && jobs[i].id == TickAll(s, jobs, prev, now).rows[k].job
    ensures forall k, m :: |s.rows| <= k < m < |TickAll(s, jobs, prev, now).rows| ==>
              TickAll(s, jobs, prev, now).rows[k].job != TickAll(s, jobs, prev, now).rows[m].job
  {
    if jobs != [] {
      var init, j := jobs[..|jobs| - 1], jobs[|jobs| - 1];
      TickAddsOnePerJob(s, init, prev, now);
      var before, after := TickAll(s, init, prev, now), TickAll(s, jobs, prev, now);
      TickCreatesAtMostOne(before, j.id, j.agent, j.policy, DueBoundary(j, prev, now), now);
      forall k | |s.rows| <= k < |after.rows| ensures exists i :: 0 <= i < |jobs| && jobs[i].id == after.rows[k].job {
        if k < |before.rows| {
          var i :| 0 <= i < |init| && init[i].id == before.rows[k].job;
          assert jobs[i].id == after.rows[k].job;
        } else {
          assert jobs[|jobs| - 1].id == after.rows[k].job;
        }
      }
      forall k, m | |s.rows| <= k < m < |after.rows| ensures after.rows[k].job != after.rows[m].job {
        if m >= |before.rows| && k < |before.rows| {
          var i :| 0 <= i < |init| && init[i].id == before.rows[k].job;
          assert jobs[i].id != jobs[|jobs| - 1].id;
        }
      }
    }
  }

  /** What an undisturbed monitor pass makes of one row. */
  function AfterPass(s: Server, r: Run, now: int): Run {
    if LooksStale(r, now) && AgentGone(s, r.agent, now) then Ended(r, r.cancelRequested, now) else r
  }

  // ----- A monitor pass as steps of the interleaved model -----

  function Steps(step: (Server, Label) -> Server, s: Server, ls: seq<Label>): Server {
    if ls == [] then s else step(Steps(step, s, ls[..|ls| - 1]), ls[|ls| - 1])
  }

  /** List the first n runs. */
  function Reads(n: nat, now: int): seq<Label> {
    if n == 0 then [] else Reads(n - 1, now) + [LStaleRead(n - 1, now)]
  }

  /** Look and write for n handlers one after the other, from handler h on. */
  function Writes(h: nat, n: nat, now: int): seq<Label> {
    if n == 0 then [] else Writes(h, n - 1, now) + [LStaleLook(h + n - 1, now)] + [LStaleWrite(h + n - 1, now)]
  }

  function LookAndWrite(s: Server, h: nat, now: int): Server {
    StaleWrite(StaleLook(s, h, now), h, now)
  }

  /** The handlers that listing the first n runs opens. */
  function Listed(s: Server, n: nat, now: int): seq<Handler>
    requires n <= |s.rows|
  {
    if n == 0 then []
    else if LooksStale(s.rows[n - 1], now) then
      Listed(s, n - 1, now)
      + [Handler(n - 1, FromMonitor(s.rows[n - 1].cancelRequested), s.rows[n - 1].status, Started)]
    else Listed(s, n - 1, now)
  }

  function PassLabels(s: Server, now: int): seq<Label> {
    Reads(|s.rows|, now) + Writes(|s.handlers|, |Listed(s, |s.rows|, now)|, now)
  }

  /** A whole pass that nobody disturbs: all listing steps, then look and write for each. */
  function PassSteps(s: Server, now: int): Server {
    Steps(Step, s, PassLabels(s, now))
  }

  lemma StepsSnoc(step: (Server, Label) -> Server, s: Server, ls: seq<Label>, l: Label)
    ensures Steps(step, s, ls + [l]) == step(Steps(step, s, ls), l)
  {
    assert (ls + [l])[..|ls|] == ls;
  }

  lemma {:induction false} StepsConcat(step: (Server, Label) -> Server, s: Server, a: seq<Label>, b: seq<Label>)
    ensures Steps(step, s, a + b) == Steps(step, Steps(step, s, a), b)
    decreases |b|
  {
    if b == [] {
      assert a + b == a;
    } else {
      var init := b[..|b| - 1];
      StepsConcat(step, s, a, init);
      assert a + b == a + init + [b[|b| - 1]];
      StepsSnoc(step, s, a + init, b[|b| - 1]);
    }
  }

  /** The three steps of the monitor, as `step` makes them. */
  ghost predicate MonitorSteps(step: (Server, Label) -> Server, now: int) {
    && (forall s, i :: step(s, LStaleRead(i, now)) == StaleRead(s, i, now))
    && (forall s, h :: step(s, LStaleLook(h, now)) == StaleLook(s, h, now))
    && (forall s, h :: step(s, LStaleWrite(h, now)) == StaleWrite(s, h, now))
  }

  lemma {:induction false} ReadsOpen(step: (Server, Label) -> Server, s: Server, n: nat, now: int)
    requires n <= |s.rows| && MonitorSteps(step, now)
    ensures Steps(step, s, Reads(n, now)) == s.(handlers := s.handlers + Listed(s, n, now))
  {
    if n > 0 {
      ReadsOpen(step, s, n - 1, now);
      StepsSnoc(step, s, Reads(n - 1, now), LStaleRead(n - 1, now));
      assert step(Steps(step, s, Reads(n - 1, now)), LStaleRead(n - 1, now))
             == StaleRead(Steps(step, s, Reads(n - 1, now)), n - 1, now);
    } else {
      assert s.handlers + [] == s.handlers;
    }
  }

  /** Runs are listed once each, in order, the stale ones and no others. */
  lemma {:induction false} ListedOnce(s: Server, n: nat, now: int)
    requires n <= |s.rows|
    ensures forall k :: 0 <= k < |Listed(s, n, now)| ==> ListedRight(s, n, now, Listed(s, n, now)[k])
    ensures forall k, m :: 0 <= k < m < |Listed(s, n, now)| ==> Listed(s, n, now)[k].run < Listed(s, n, now)[m].run
    ensures forall i :: 0 <= i < n && LooksStale(s.rows[i], now) ==>
              exists k :: 0 <= k < |Listed(s, n, now)| && Listed(s, n, now)[k].run == i
  {
    if n > 0 {
      ListedOnce(s, n - 1, now);
      var before, after := Listed(s, n - 1, now), Listed(s, n, now);
      forall i | 0 <= i < n && LooksStale(s.rows[i], now) ensures exists k :: 0 <= k < |after| && after[k].run == i {
        if i == n - 1 {
          assert after[|before|].run == i;
        } else {
          var k :| 0 <= k < |before| && before[k].run == i;
          assert after[k].run == i;
        }
      }
    }
  }

  ghost predicate ListedRight(s: Server, n: nat, now: int, hd: Handler)
    requires n <= |s.rows|
  {
    && hd.run < n && LooksStale(s.rows[hd.run], now)
    && hd == Handler(hd.run, FromMonitor(s.rows[hd.run].cancelRequested), s.rows[hd.run].status, Started)
  }

  /** The handlers a pass has to work off: stale runs as they are, none twice. */
  ghost predicate TodoOk(s: Server, todo: seq<Handler>, now: int) {
    && (forall k :: 0 <= k < |todo| ==> ListedRight(s, |s.rows|, now, todo[k]))
    && (forall k, m :: 0 <= k < m < |todo| ==> todo[k].run < todo[m].run)
  }

  /** After the first n writes: their rows are as the pass leaves them, the others are untouched. */
  ghost predicate Wrote(s: Server, todo: seq<Handler>, n: nat, t: Server, now: int)
    requires n <= |todo|
  {
    && t.agents == s.agents && |t.rows| == |s.rows|
    && (forall i :: 0 <= i < |s.rows| ==>
         t.rows[i] == if exists k :: 0 <= k < n && todo[k].run == i then AfterPass(s, s.rows[i], now) else s.rows[i])
  }

  /** After the first n writes: their handlers are done, the others are as opened. */
  ghost predicate WorkedOff(s: Server, todo: seq<Handler>, n: nat, t: Server)
    requires n <= |todo|
  {
    && s.handlers <= t.handlers && |t.handlers| == |s.handlers| + |todo|
    && (forall k :: 0 <= k < |todo| ==> HandlerLeft(t.handlers[|s.handlers| + k], todo[k], k < n))
  }

  predicate HandlerLeft(hd: Handler, was: Handler, done: bool) {
    if done then hd.state.Written? || hd.state.Refused? else hd == was
  }

  lemma WriteOne(s: Server, todo: seq<Handler>, n: nat, t: Server, now: int)
    requires n < |todo| && Wrote(s, todo, n, t, now) && TodoOk(s, todo, now)
    requires |s.handlers| + n < |t.handlers| && t.handlers[|s.handlers| + n] == todo[n]
    ensures Wrote(s, todo, n + 1, LookAndWrite(t, |s.handlers| + n, now), now)
  {
    var r := todo[n].run;
    assert ListedRight(s, |s.rows|, now, todo[n]);
    assert t.rows[r] == s.rows[r];
    assert AgentGone(t, s.rows[r].agent, now) == AgentGone(s, s.rows[r].agent, now);
    assert LookAndWrite(t, |s.handlers| + n, now).rows == t.rows[r := AfterPass(s, s.rows[r], now)];
    OneMoreRow(s, todo, n, t, t.rows[r := AfterPass(s, s.rows[r], now)], now);
  }

  lemma OneMoreRow(s: Server, todo: seq<Handler>, n: nat, t: Server, rows: seq<Run>, now: int)
    requires n < |todo| && Wrote(s, todo, n, t, now) && todo[n].run < |s.rows|
    requires rows == t.rows[todo[n].run := AfterPass(s, s.rows[todo[n].run], now)]
    ensures forall i :: 0 <= i < |s.rows| ==>
              rows[i] == if exists k :: 0 <= k < n + 1 && todo[k].run == i
                         then AfterPass(s, s.rows[i], now) else s.rows[i]
  {
    forall i | 0 <= i < |s.rows|
      ensures rows[i] == if exists k :: 0 <= k < n + 1 && todo[k].run == i
                         then AfterPass(s, s.rows[i], now) else s.rows[i]
    {
      if i == todo[n].run {
        assert todo[n].run == i;
      } else if k :| 0 <= k < n && todo[k].run == i {
        assert todo[k].run == i;
      }
    }
  }

  lemma WorkOneOff(s: Server, todo: seq<Handler>, n: nat, t: Server, now: int)
    requires n < |todo| && WorkedOff(s, todo, n, t)
    requires t.handlers[|s.handlers| + n] == todo[n] && todo[n].source.FromMonitor? && todo[n].state.Started?
    ensures WorkedOff(s, todo, n + 1, LookAndWrite(t, |s.handlers| + n, now))
  {
    var t' := LookAndWrite(t, |s.handlers| + n, now);
    assert HandlerLeft(t'.handlers[|s.handlers| + n], todo[n], true);
    forall k | 0 <= k < |todo| ensures HandlerLeft(t'.handlers[|s.handlers| + k], todo[k], k < n + 1) {
      assert HandlerLeft(t.handlers[|s.handlers| + k], todo[k], k < n);
    }
  }

  lemma LastWrite(step: (Server, Label) -> Server, s: Server, h: nat, n: nat, now: int)
    requires n > 0 && MonitorSteps(step, now)
    ensures Steps(step, s, Writes(h, n, now)) == LookAndWrite(Steps(step, s, Writes(h, n - 1, now)), h + n - 1, now)
  {
    var before, look := Writes(h, n - 1, now), LStaleLook(h + n - 1, now);
    StepsSnoc(step, s, before, look);
    StepsSnoc(step, s, before + [look], LStaleWrite(h + n - 1, now));
  }

  ghost predicate PassAt(s: Server, todo: seq<Handler>, n: nat, t: Server, now: int)
    requires n <= |todo|
  {
    Wrote(s, todo, n, t, now) && WorkedOff(s, todo, n, t)
  }

  /** The server after the first n writes. */
  function AfterWrites(s: Server, h: nat, n: nat, now: int): Server {
    if n == 0 then s else LookAndWrite(AfterWrites(s, h, n - 1, now), h + n - 1, now)
  }

  lemma {:induction false} WritesMake(step: (Server, Label) -> Server, s: Server, h: nat, n: nat, now: int)
    requires MonitorSteps(step, now)
    ensures Steps(step, s, Writes(h, n, now)) == AfterWrites(s, h, n, now)
  {
    if n > 0 {
      WritesMake(step, s, h, n - 1, now);
      LastWrite(step, s, h, n, now);
    }
  }

  lemma {:induction false} WritesEnd(s: Server, todo: seq<Handler>, s1: Server, n: nat, now: int)
    requires n <= |todo| && TodoOk(s, todo, now) && PassAt(s, todo, 0, s1, now)
    ensures PassAt(s, todo, n, AfterWrites(s1, |s.handlers|, n, now), now)
  {
    if n > 0 {
      var before, t := AfterWrites(s1, |s.handlers|, n - 1, now), AfterWrites(s1, |s.handlers|, n, now);
      WritesEnd(s, todo, s1, n - 1, now);
      OneMoreWrite(s, todo, n, before, t, now);
    }
  }

  lemma OneMoreWrite(s: Server, todo: seq<Handler>, n: nat, before: Server, t: Server, now: int)
    requires 0 < n <= |todo| && PassAt(s, todo, n - 1, before, now) && TodoOk(s, todo, now)
    requires t == LookAndWrite(before, |s.handlers| + n - 1, now)
    ensures PassAt(s, todo, n, t, now)
  {
    assert HandlerLeft(before.handlers[|s.handlers| + n - 1], todo[n - 1], false);
    assert ListedRight(s, |s.rows|, now, todo[n - 1]);
    WriteOne(s, todo, n - 1, before, now);
    WorkOneOff(s, todo, n - 1, before, now);
  }

  /** A pass that nobody disturbs, as steps of the interleaved model, ends exactly the
      stale runs of lost agents, leaves every other row and every other handler alone,
      and leaves none of its own handlers open. */
  lemma PassIsItsSteps(s: Server, now: int)
    ensures var t := PassSteps(s, now);
            && |t.rows| == |s.rows| && t.agents == s.agents
            && (forall i :: 0 <= i < |s.rows| ==> t.rows[i] == AfterPass(s, s.rows[i], now))
            && s.handlers <= t.handlers
            && (forall h :: |s.handlers| <= h < |t.handlers| ==>
                 t.handlers[h].state.Written? || t.handlers[h].state.Refused?)
  {
    var todo := Listed(s, |s.rows|, now);
    var s1 := s.(handlers := s.handlers + todo);
    StepIsMonitor(now);
    StepsConcat(Step, s, Reads(|s.rows|, now), Writes(|s.handlers|, |todo|, now));
    ReadsOpen(Step, s, |s.rows|, now);
    ListedOnce(s, |s.rows|, now);
    ListedStarts(s, todo, s1, now);
    WritesMake(Step, s1, |s.handlers|, |todo|, now);
    WritesEnd(s, todo, s1, |todo|, now);
    PassLeaves(s, todo, AfterWrites(s1, |s.handlers|, |todo|, now), now);
  }

  lemma StepIsMonitor(now: int)
    ensures MonitorSteps(Step, now)
  {
    forall s, i ensures Step(s, LStaleRead(i, now)) == StaleRead(s, i, now) { ReadStep(s, i, now); }
    forall s, h ensures Step(s, LStaleLook(h, now)) == StaleLook(s, h, now) { LookStep(s, h, now); }
    forall s, h ensures Step(s, LStaleWrite(h, now)) == StaleWrite(s, h, now) { WriteStep(s, h, now); }
  }

  lemma ReadStep(s: Server, i: nat, now: int)
    ensures Step(s, LStaleRead(i, now)) == StaleRead(s, i, now)
  {
  }

  lemma LookStep(s: Server, h: nat, now: int)
    ensures Step(s, LStaleLook(h, now)) == StaleLook(s, h, now)
  {
  }

  lemma WriteStep(s: Server, h: nat, now: int)
    ensures Step(s, LStaleWrite(h, now)) == StaleWrite(s, h, now)
  {
  }

  lemma ListedStarts(s: Server, todo: seq<Handler>, s1: Server, now: int)
    requires s1 == s.(handlers := s.handlers + todo)
    ensures PassAt(s, todo, 0, s1, now)
  {
  }

  lemma PassLeaves(s: Server, todo: seq<Handler>, t: Server, now: int)
    requires PassAt(s, todo, |todo|, t, now)
    requires forall i :: 0 <= i < |s.rows| && LooksStale(s.rows[i], now) ==>
               exists k :: 0 <= k < |todo| && todo[k].run == i
    ensures forall i :: 0 <= i < |s.rows| ==> t.rows[i] == AfterPass(s, s.rows[i], now)
    ensures forall h :: |s.handlers| <= h < |t.handlers| ==>
              t.handlers[h].state.Written? || t.handlers[h].state.Refused?
  {
    forall h | |s.handlers| <= h < |t.handlers| ensures (t.handlers[h].state.Written? || t.handlers[h].state.Refused?) {
      var k := h - |s.handlers|;
      assert HandlerLeft(t.handlers[|s.handlers| + k], todo[k], true);
    }
  }

  class RunStore {
    var rows: seq<Run>
    var handlers: seq<Handler>
    var agents: map<nat, Option<int>>

    ghost function View(): Server
      reads this
    {
      Server(rows, handlers, agents)
    }

    constructor ()
      ensures View() == EMPTY
    {
      rows, handlers, agents := [], [], map[];
    }

    /** The in-flight count of every guard, as far as the guards use it. */
    method CountInFlight(job: nat) returns (n: nat)
      ensures n > 0 <==> JobBusy(rows, job)
      ensures OneInFlight(rows) ==> n <= 1
    {
      n := 0;
      for i := 0 to |rows|
        invariant n > 0 <==> exists k :: 0 <= k < i && rows[k].job == job && InFlight(rows[k].status)
        invariant OneInFlight(rows) ==> n <= 1
      {
        if rows[i].job == job && InFlight(rows[i].status) {
          n := n + 1;
        }
      }
    }

    method RunNow(job: nat, agent: nat, now: int) returns (created: bool)
      modifies this
      ensures View() == RunServer.RunNow(old(View()), job, agent, now)
      ensures created <==> !JobBusy(old(rows), job)
    {
      var n := CountInFlight(job);
      created := n == 0;
      if created {
        rows := rows + [NewRun(job, agent, now, None, None, 0)];
      }
    }

    /** The newest run of a job, found from the end of the table. */
    method FindLatest(job: nat) returns (r: Option<nat>)
      ensures r == Latest(rows, job)
    {
      var k := |rows|;
      while k > 0
        invariant 0 <= k <= |rows|
        invariant Latest(rows[..k], job) == Latest(rows, job)
      {
        k := k - 1;
        assert rows[..k + 1][..k] == rows[..k];
        if rows[k].job == job {
          return Some(k);
        }
      }
      return None;
    }

    method MaybeFire(job: nat, agent: nat, policy: Policy, now: int)
      modifies this
      ensures View() == RunServer.MaybeFire(old(View()), job, agent, policy, now)
    {
      if !policy.enabled || policy.maxRetries <= 0 {
        return;
      }
      var n := CountInFlight(job);
      if n > 0 {
        return;
      }
      var latest := FindLatest(job);
      if latest.None? || !rows[latest.value].status.Failed? || rows[latest.value].attempt >= policy.maxRetries {
        return;
      }
      var delay := if policy.retryDelay <= 0 then DEFAULT_RETRY_DELAY else policy.retryDelay;
      var completedAt := rows[latest.value].completedAt;
      if completedAt.None? || now - completedAt.value < delay {
        return;
      }
      rows := rows + [NewRun(job, agent, now, None, latest, rows[latest.value].attempt + 1)];
    }

    method Fire(job: nat, agent: nat, boundary: int, now: int)
      modifies this
      ensures View() == RunServer.Fire(old(View()), job, agent, boundary, now)
    {
      var n := CountInFlight(job);
      if n > 0 || BoundaryFired(rows, job, boundary) {
        return;
      }
      rows := rows + [NewRun(job, agent, now, Some(boundary), None, 0)];
    }

    method Claim(run: nat, agent: nat, now: int) returns (granted: bool)
      modifies this
      ensures View() == RunServer.Claim(old(View()), run, agent, now)
      ensures granted <==> CanClaim(old(View()), run, agent)
    {
      granted := false;
      if agent in agents {
        agents := agents[agent := Some(now)];
        if run < |rows| && rows[run].agent == agent && rows[run].status == Pending {
          rows := rows[run := rows[run].(status := Running, startedAt := Some(now), updatedAt := now)];
          granted := true;
        }
      }
    }

    method Cancel(run: nat, now: int)
      modifies this
      ensures View() == RunServer.Cancel(old(View()), run, now)
    {
      if run < |rows| && CanTransition(rows[run].status, Cancelled) {
        var r := rows[run].(cancelRequested := true, updatedAt := now);
        if r.status == Pending {
          r := r.(status := Cancelled);
        }
        rows := rows[run := r];
      }
    }

    /** UpdateStatus up to its guarded write; a granted report is handler `h`. */
    method BeginReport(run: nat, agent: nat, report: Report, pathOk: bool, now: int) returns (reply: Begun, h: nat)
      modifies this
      ensures (View(), reply) == RunServer.BeginReport(old(View()), run, agent, report, pathOk, now)
      ensures h == |old(handlers)|
    {
      h := |handlers|;
      var o := report.outcome;
      if o.bytesRead < 0 || o.bytesCompressed < 0 || o.bytesUploaded < 0 || run >= |rows| || rows[run].agent != agent {
        return Rejected, h;
      }
      var r := rows[run];
      if !CanTransition(r.status, report.status) {
        if report.status != r.status {
          return Rejected, h;
        }
        if r.status == Running || r.status == Uploading || r.status == Verifying {
          rows := rows[run := r.(outcome := r.outcome.(bytesRead := o.bytesRead, bytesCompressed := o.bytesCompressed,
                                                       bytesUploaded := o.bytesUploaded), updatedAt := now)];
        }
        return Echoed, h;
      }
      if o.storagePath != "" && !pathOk {
        return Rejected, h;
      }
      handlers := handlers + [Handler(run, FromAgent(report), r.status, Started)];
      return Opened, h;
    }

    method CommitReport(h: nat, now: int)
      modifies this
      ensures View() == RunServer.CommitReport(old(View()), h, now)
    {
      if h < |handlers| && handlers[h].source.FromAgent? && handlers[h].state == Started {
        var hd := handlers[h];
        if hd.run < |rows| && rows[hd.run].status == hd.snapshot {
          var r := rows[hd.run].(status := hd.source.report.status, outcome := hd.source.report.outcome,
              updatedAt := now);
          if r.status == Completed || r.status == Failed {
            r := r.(completedAt := Some(now));
          }
          rows := rows[hd.run := r];
          handlers := handlers[h := hd.(state := Written)];
        } else {
          handlers := handlers[h := hd.(state := Refused)];
        }
      }
    }

    /** The stale runs, in order. */
    method ListStale(now: int) returns (listed: seq<nat>)
      ensures forall k :: 0 <= k < |listed| ==> listed[k] < |rows| && LooksStale(rows[listed[k]], now)
      ensures forall k, m :: 0 <= k < m < |listed| ==> listed[k] < listed[m]
      ensures forall i :: 0 <= i < |rows| && LooksStale(rows[i], now) ==> i in listed
    {
      listed := [];
      for i := 0 to |rows|
        invariant forall k :: 0 <= k < |listed| ==> listed[k] < i && LooksStale(rows[listed[k]], now)
        invariant forall k, m :: 0 <= k < m < |listed| ==> listed[k] < listed[m]
        invariant forall k :: 0 <= k < i && LooksStale(rows[k], now) ==> k in listed
      {
        if LooksStale(rows[i], now) {
          listed := listed + [i];
        }
      }
    }

    /** One listed run: looks at its agent, and ends the run if that is gone. */
    method EndStale(r: nat, now: int)
      requires r < |rows| && LooksStale(rows[r], now)
      modifies this
      ensures rows == old(rows)[r := AfterPass(old(View()), old(rows)[r], now)]
      ensures handlers == old(handlers) && agents == old(agents)
    {
      var run := rows[r];
      if run.agent in agents {
        var seen := agents[run.agent];
        if seen.None? || now - seen.value >= AGENT_GONE_AFTER {
          rows := rows[r := Ended(run, run.cancelRequested, now)];
        }
      }
    }

    /** checkStaleRuns, undisturbed: list the stale runs, then end one after the other
        those whose agent is gone. */
    method CheckStaleRuns(now: int)
      modifies this
      ensures |rows| == |old(rows)|
      ensures forall i :: 0 <= i < |rows| ==> rows[i] == AfterPass(old(View()), old(rows)[i], now)
      ensures rows == PassSteps(old(View()), now).rows
      ensures handlers == old(handlers) && agents == old(agents)
    {
      ghost var s := View();
      var listed := ListStale(now);
      for k := 0 to |listed|
        invariant |rows| == |s.rows| && handlers == s.handlers && agents == s.agents
        invariant forall i :: 0 <= i < |rows| ==>
                    rows[i] == if i in listed[..k] then AfterPass(s, s.rows[i], now) else s.rows[i]
      {
        assert listed[k] !in listed[..k];
        assert listed[..k + 1] == listed[..k] + [listed[k]];
        EndStale(listed[k], now);
      }
      assert listed[..|listed|] == listed;
      PassIsItsSteps(s, now);
    }
  }

  class Scheduler {
    const store: RunStore
    var lastTick: int

    constructor (store: RunStore, now: int)
      ensures this.store == store && lastTick == now
    {
      this.store := store;
      lastTick := now;
    }

    /** One tick: remember the time, then retry and fire job after job. A failed job
        listing (`listing` is None) still moves the window on. */
    method Tick(listing: Option<seq<Job>>, now: int)
      modifies this, store
      ensures lastTick == now
      ensures store.View() == if listing.None? then old(store.View())
                              else TickAll(old(store.View()), listing.value, old(lastTick), now)
    {
      var prev := lastTick;
      lastTick := now;
      if listing.None? {
        return;
      }
      var jobs := listing.value;
      for i := 0 to |jobs|
        invariant lastTick == now
        invariant store.View() == TickAll(old(store.View()), jobs[..i], prev, now)
      {
        assert jobs[..i + 1][..i] == jobs[..i];
        var job := jobs[i];
        if job.policy.enabled {
          store.MaybeFire(job.id, job.agent, job.policy, now);
          if job.cron.Some? {
            var boundary := Cron.BoundaryFor(job.cron.value, prev, now);
            if boundary.Some? {
              store.Fire(job.id, job.agent, boundary.value, now);
            }
          }
        }
      }
      assert jobs[..|jobs|] == jobs;
    }
  }
}
