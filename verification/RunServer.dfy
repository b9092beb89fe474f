/**
 The server side of the backup-run protocol: the table of runs, and one function
 per database statement (or per unguarded pair of statements) that the handlers,
 the scheduler and the health monitor execute on it. Handlers that read a row and
 compare-and-set it later are split in two steps, so that anything may come between.

 Runs are numbered in creation order. Times are seconds.
 */
module RunServer {
  import opened Common
  import opened BackupRun

  const STALE_RUN_AFTER := 900
  const AGENT_GONE_AFTER := 180
  const DEFAULT_RETRY_DELAY := 300

  /** What the health monitor writes into a run whose agent is gone. */
  const GONE_CANCELLED := "agent stopped reporting after a cancel request; run marked cancelled"
  const GONE_FAILED := "agent stopped reporting; run marked failed by health monitor"

  /** What a status report carries besides the status. */
  datatype Outcome = Outcome(bytesRead: int, bytesCompressed: int, bytesUploaded: int,
                             errorMessage: string, storagePath: string, checksum: string)
  {
    predicate CountersValid() {
      bytesRead >= 0 && bytesCompressed >= 0 && bytesUploaded >= 0
    }
  }

  const NO_OUTCOME := Outcome(0, 0, 0, "", "", "")

  datatype Report = Report(status: Status, outcome: Outcome)

  datatype Run = Run(job: nat, agent: nat, scheduledFor: Option<int>, retryOf: Option<nat>, attempt: nat,
                     createdAt: int, updatedAt: int, status: Status, cancelRequested: bool,
                     startedAt: Option<int>, completedAt: Option<int>, outcome: Outcome)

  /** `Judged` is for the monitor: it has found the agent of the run gone. */
  datatype HandlerState = Started | Judged | Written | Answered(cancel: bool) | Refused

  /** A request (or a monitor pass over one run) that has read its row and not finished. */
  datatype Handler = Handler(run: nat, source: Source, snapshot: Status, state: HandlerState)

  datatype Source = FromAgent(report: Report) | FromMonitor(sawCancel: bool)

  datatype Server = Server(rows: seq<Run>, handlers: seq<Handler>, agents: map<nat, Option<int>>)

  const EMPTY := Server([], [], map[])

  /** The reply of the first half of a status report: the request goes on as the
      handler just opened, or it is answered at once. */
  datatype Begun = Opened | Echoed | Rejected

  datatype Policy = Policy(enabled: bool, maxRetries: int, retryDelay: int)

  // ----- Creating runs -----

  predicate JobBusy(rows: seq<Run>, job: nat) {
    exists i :: 0 <= i < |rows| && rows[i].job == job && InFlight(rows[i].status)
  }

  function NewRun(job: nat, agent: nat, now: int, scheduledFor: Option<int>, retryOf: Option<nat>, attempt: nat): Run {
    Run(job, agent, scheduledFor, retryOf, attempt, now, now, Pending, false, None, None, NO_OUTCOME)
  }

  /** The count of in-flight runs and the insert are one step (assumption). */
  function RunNow(s: Server, job: nat, agent: nat, now: int): Server {
    if JobBusy(s.rows, job) then s
    else s.(rows := s.rows + [NewRun(job, agent, now, None, None, 0)])
  }

  /** The newest run of a job. */
  function Latest(rows: seq<Run>, job: nat): (r: Option<nat>)
    ensures r.Some? ==> r.value < |rows| && rows[r.value].job == job
    ensures r.Some? ==> forall i :: r.value < i < |rows| ==> rows[i].job != job
    ensures r.None? ==> forall i :: 0 <= i < |rows| ==> rows[i].job != job
  {
    if rows == [] then None
    else if rows[|rows| - 1].job == job then Some(|rows| - 1)
    else Latest(rows[..|rows| - 1], job)
  }

  function RetryDelay(p: Policy): int {
    if p.retryDelay <= 0 then DEFAULT_RETRY_DELAY else p.retryDelay
  }

  predicate MayRetry(r: Run, p: Policy, now: int) {
    && r.status.Failed?
    && r.attempt < p.maxRetries
    && r.completedAt.Some?
    && now - r.completedAt.value >= RetryDelay(p)
  }

  /** maybeFire: refire the newest run of the job when it failed. */
  function MaybeFire(s: Server, job: nat, agent: nat, p: Policy, now: int): Server {
    if !p.enabled || p.maxRetries <= 0 || JobBusy(s.rows, job) then s
    else
      match Latest(s.rows, job)
      case None => s
      case Some(k) =>
        if MayRetry(s.rows[k], p, now) then
          s.(rows := s.rows + [NewRun(job, agent, now, None, Some(k), s.rows[k].attempt + 1)])
        else s
  }

  predicate BoundaryFired(rows: seq<Run>, job: nat, boundary: int) {
    exists i :: 0 <= i < |rows| && rows[i].job == job && rows[i].scheduledFor == Some(boundary)
  }

  /** fire: the in-flight guard, then an insert that a unique (job, boundary) index may refuse. */
  function Fire(s: Server, job: nat, agent: nat, boundary: int, now: int): Server {
    if JobBusy(s.rows, job) || BoundaryFired(s.rows, job, boundary) then s
    else s.(rows := s.rows + [NewRun(job, agent, now, Some(boundary), None, 0)])
  }

  // ----- Agents -----

  function Enlist(s: Server, agent: nat): Server {
    if agent in s.agents then s else s.(agents := s.agents[agent := None])
  }

  /** A heartbeat, a work poll or a claim records that the agent is alive. */
  function Touch(s: Server, agent: nat, now: int): Server {
    if agent in s.agents then s.(agents := s.agents[agent := Some(now)]) else s
  }

  predicate CanClaim(s: Server, run: nat, agent: nat) {
    agent in s.agents && run < |s.rows| && s.rows[run].agent == agent && s.rows[run].status.Pending?
  }

  /** ClaimRun is a single guarded update. */
  function Claim(s: Server, run: nat, agent: nat, now: int): Server {
    var t := Touch(s, agent, now);
    if CanClaim(s, run, agent)
    then t.(rows := s.rows[run := s.rows[run].(status := Running, startedAt := Some(now), updatedAt := now)])
    else t
  }

  /** Cancel reads the row and writes it without a guard: one step (assumption). */
  function Cancel(s: Server, run: nat, now: int): Server {
    if run >= |s.rows| || !CanTransition(s.rows[run].status, Cancelled) then s
    else
      var r := s.rows[run];
      s.(rows := s.rows[run := r.(cancelRequested := true, updatedAt := now,
                                  status := if r.status.Pending? then Cancelled else r.status)])
  }

  // ----- Status reports -----

  /** The first half of UpdateStatus: everything up to the guarded write. A report
      of the status the run already has is finished here; while the run is active it
      overwrites the counters, in one step with the read (assumption). */
  function BeginReport(s: Server, run: nat, agent: nat, report: Report, pathOk: bool, now: int): (Server, Begun) {
    if !report.outcome.CountersValid() || run >= |s.rows| || s.rows[run].agent != agent then (s, Rejected)
    else
      var r := s.rows[run];
      if CanTransition(r.status, report.status) then
        if report.outcome.storagePath != "" && !pathOk then (s, Rejected)
        else (s.(handlers := s.handlers + [Handler(run, FromAgent(report), r.status, Started)]), Opened)
      else if r.status != report.status then (s, Rejected)
      else if r.status.Running? || r.status.Uploading? || r.status.Verifying? then
        var o := r.outcome.(bytesRead := report.outcome.bytesRead,
                            bytesCompressed := report.outcome.bytesCompressed,
                            bytesUploaded := report.outcome.bytesUploaded);
        (s.(rows := s.rows[run := r.(outcome := o, updatedAt := now)]), Echoed)
      else (s, Echoed)
  }

  /** The guarded write of UpdateStatus: only if the status is still the one read. */
  function CommitReport(s: Server, h: nat, now: int): Server {
    if h >= |s.handlers| || !s.handlers[h].source.FromAgent? || !s.handlers[h].state.Started? then s
    else
      var hd := s.handlers[h];
      if hd.run < |s.rows| && s.rows[hd.run].status == hd.snapshot then
        var st := hd.source.report.status;
        var r := s.rows[hd.run].(status := st, outcome := hd.source.report.outcome, updatedAt := now);
        var r' := if st.Completed? || st.Failed? then r.(completedAt := Some(now)) else r;
        s.(rows := s.rows[hd.run := r'], handlers := s.handlers[h := hd.(state := Written)])
      else s.(handlers := s.handlers[h := hd.(state := Refused)])
  }

  /** After the write the cancel flag is read again and returned to the agent. */
  function Reread(s: Server, h: nat): Server {
    if h >= |s.handlers| || !s.handlers[h].source.FromAgent? || !s.handlers[h].state.Written? then s
    else
      var hd := s.handlers[h];
      var flag := hd.run < |s.rows| && s.rows[hd.run].cancelRequested;
      s.(handlers := s.handlers[h := hd.(state := Answered(flag))])
  }

  // ----- The health monitor -----

  predicate Claimed(st: Status) {
    st.Running? || st.Uploading? || st.Verifying?
  }

  predicate LooksStale(r: Run, now: int) {
    Claimed(r.status) && r.updatedAt < now - STALE_RUN_AFTER
  }

  predicate AgentGone(s: Server, agent: nat, now: int) {
    agent in s.agents && (s.agents[agent].None? || now - s.agents[agent].value >= AGENT_GONE_AFTER)
  }

  /** A run whose agent was lost: CANCELLED if a cancel was pending, FAILED otherwise. */
  function Ended(r: Run, sawCancel: bool, now: int): Run {
    var msg := if sawCancel then GONE_CANCELLED else GONE_FAILED;
    r.(status := if sawCancel then Cancelled else Failed, completedAt := Some(now), updatedAt := now,
       outcome := r.outcome.(errorMessage := msg))
  }

  /** checkStaleRuns lists runs without recent writes ... */
  function StaleRead(s: Server, run: nat, now: int): Server {
    if run < |s.rows| && LooksStale(s.rows[run], now)
    then s.(handlers := s.handlers
        + [Handler(run, FromMonitor(s.rows[run].cancelRequested), s.rows[run].status, Started)])
    else s
  }

  /** ... then, run by run, looks at the agent ... */
  function StaleLook(s: Server, h: nat, now: int): Server {
    if h >= |s.handlers| || !s.handlers[h].source.FromMonitor? || !s.handlers[h].state.Started? then s
    else
      var hd := s.handlers[h];
      var gone := hd.run < |s.rows| && AgentGone(s, s.rows[hd.run].agent, now);
      s.(handlers := s.handlers[h := hd.(state := if gone then Judged else Refused)])
  }

  /** ... and, if that is gone, writes where the status is still the one listed. */
  function StaleWrite(s: Server, h: nat, now: int): Server {
    if h >= |s.handlers| || !s.handlers[h].source.FromMonitor? || !s.handlers[h].state.Judged? then s
    else
      var hd := s.handlers[h];
      if hd.run < |s.rows| && s.rows[hd.run].status == hd.snapshot then
        s.(rows := s.rows[hd.run := Ended(s.rows[hd.run], hd.source.sawCancel, now)],
           handlers := s.handlers[h := hd.(state := Written)])
      else s.(handlers := s.handlers[h := hd.(state := Refused)])
  }

  // ----- Executions -----

  datatype Label =
    | LRunNow(job: nat, agent: nat, now: int)
    | LMaybeFire(job: nat, agent: nat, policy: Policy, now: int)
    | LFire(job: nat, agent: nat, boundary: int, now: int)
    | LEnlist(agent: nat)
    | LTouch(agent: nat, now: int)
    | LClaim(run: nat, agent: nat, now: int)
    | LCancel(run: nat, now: int)
    | LBegin(run: nat, agent: nat, report: Report, pathOk: bool, now: int)
    | LCommit(h: nat, now: int)
    | LReread(h: nat)
    | LStaleRead(run: nat, now: int)
    | LStaleLook(h: nat, now: int)
    | LStaleWrite(h: nat, now: int)

  /** One step of anybody, in any order, with any arguments. A step that is not
      enabled changes nothing. */
  function Step(s: Server, l: Label): Server {
    match l
    case LRunNow(job, agent, now) => RunNow(s, job, agent, now)
    case LMaybeFire(job, agent, policy, now) => MaybeFire(s, job, agent, policy, now)
    case LFire(job, agent, boundary, now) => Fire(s, job, agent, boundary, now)
    case LEnlist(agent) => Enlist(s, agent)
    case LTouch(agent, now) => Touch(s, agent, now)
    case LClaim(run, agent, now) => Claim(s, run, agent, now)
    case LCancel(run, now) => Cancel(s, run, now)
    case LBegin(run, agent, report, pathOk, now) => BeginReport(s, run, agent, report, pathOk, now).0
    case LCommit(h, now) => CommitReport(s, h, now)
    case LReread(h) => Reread(s, h)
    case LStaleRead(run, now) => StaleRead(s, run, now)
    case LStaleLook(h, now) => StaleLook(s, h, now)
    case LStaleWrite(h, now) => StaleWrite(s, h, now)
  }

  function Exec(ls: seq<Label>): Server {
    if ls == [] then EMPTY else Step(Exec(ls[..|ls| - 1]), ls[|ls| - 1])
  }

  // ----- What every step keeps -----

  /** How one step may change one row: the identity of the run is fixed, its status
      moves along one transition or not at all, a finished run is not touched. */
  ghost predicate RowStep(a: Run, b: Run) {
    && a.job == b.job && a.agent == b.agent && a.scheduledFor == b.scheduledFor
    && a.retryOf == b.retryOf && a.attempt == b.attempt && a.createdAt == b.createdAt
    && (a.status == b.status || CanTransition(a.status, b.status))
    && (Terminal(a.status) ==> a == b)
    && (a.cancelRequested ==> b.cancelRequested)
  }

  ghost predicate HandlersValid(s: Server) {
    forall h :: 0 <= h < |s.handlers| ==> HandlerValid(s.handlers[h], |s.rows|)
  }

  /** A request fits a table of n rows and what it read there. */
  predicate HandlerValid(hd: Handler, n: nat) {
    && hd.run < n
    && (hd.source.FromAgent? ==> CanTransition(hd.snapshot, hd.source.report.status))
    && (hd.source.FromMonitor? ==> Claimed(hd.snapshot))
    && (hd.state.Judged? ==> hd.source.FromMonitor?)
  }

  ghost predicate OneInFlight(rows: seq<Run>) {
    forall i, j :: 0 <= i < j < |rows| && rows[i].job == rows[j].job ==>
      !(InFlight(rows[i].status) && InFlight(rows[j].status))
  }

  ghost predicate BoundariesUnique(rows: seq<Run>) {
    forall i, j :: 0 <= i < j < |rows| && rows[i].job == rows[j].job && rows[i].scheduledFor == rows[j].scheduledFor ==>
      rows[i].scheduledFor.None?
  }

  /** A retry points at an earlier failed run of its job, one attempt below it, and
      is the only one to do so. */
  ghost predicate RetryChains(rows: seq<Run>) {
    && (forall k :: 0 <= k < |rows| ==>
         match rows[k].retryOf
         case None => rows[k].attempt == 0
         case Some(p) => p < k && rows[p].job == rows[k].job && rows[p].status.Failed?
                         && rows[p].attempt + 1 == rows[k].attempt)
    && (forall i, j :: 0 <= i < j < |rows| && rows[i].retryOf.Some? ==> rows[i].retryOf != rows[j].retryOf)
  }

  ghost predicate Inv(s: Server) {
    HandlersValid(s) && OneInFlight(s.rows) && BoundariesUnique(s.rows) && RetryChains(s.rows)
  }

  /** How one step may change the table: not at all, in one row, or by one new row. */
  ghost predicate TableStep(a: seq<Run>, b: seq<Run>) {
    || a == b
    || (exists i, r :: 0 <= i < |a| && RowStep(a[i], r) && b == a[i := r])
    || (exists r :: Enters(a, r) && b == a + [r])
  }

  /** What every new run satisfies on its arrival. */
  ghost predicate Enters(a: seq<Run>, r: Run) {
    && r.status.Pending? && !r.cancelRequested && !JobBusy(a, r.job)
    && (r.scheduledFor.Some? ==> !BoundaryFired(a, r.job, r.scheduledFor.value))
    && match r.retryOf
       case None => r.attempt == 0
       case Some(p) => Latest(a, r.job) == Some(p) && a[p].status.Failed? && r.attempt == a[p].attempt + 1
  }

  lemma CommitSteps(s: Server, h: nat, now: int)
    requires HandlersValid(s)
    ensures TableStep(s.rows, CommitReport(s, h, now).rows)
  {
    var rows := CommitReport(s, h, now).rows;
    if rows != s.rows {
      var i := s.handlers[h].run;
      assert rows == s.rows[i := rows[i]];
      assert RowStep(s.rows[i], rows[i]);
    }
  }

  lemma EndingIsAStep(r: Run, sawCancel: bool, now: int)
    requires Claimed(r.status)
    ensures RowStep(r, Ended(r, sawCancel, now))
  {
  }

  lemma StaleWriteSteps(s: Server, h: nat, now: int)
    requires HandlersValid(s)
    ensures TableStep(s.rows, StaleWrite(s, h, now).rows)
  {
    var rows := StaleWrite(s, h, now).rows;
    if rows != s.rows {
      var hd := s.handlers[h];
      EndingIsAStep(s.rows[hd.run], hd.source.sawCancel, now);
      assert rows == s.rows[hd.run := Ended(s.rows[hd.run], hd.source.sawCancel, now)];
    }
  }

  lemma StepTable(s: Server, l: Label)
    requires HandlersValid(s)
    ensures TableStep(s.rows, Step(s, l).rows)
  {
    var t := Step(s, l);
    match l {
      case LCommit(h, now) => CommitSteps(s, h, now);
      case LStaleWrite(h, now) => StaleWriteSteps(s, h, now);
      case LBegin(run, agent, report, pathOk, now) =>
        if t.rows != s.rows {
          assert RowStep(s.rows[run], t.rows[run]) && t.rows == s.rows[run := t.rows[run]];
        }
      case LClaim(run, agent, now) =>
        if t.rows != s.rows {
          assert RowStep(s.rows[run], t.rows[run]) && t.rows == s.rows[run := t.rows[run]];
        }
      case LCancel(run, now) =>
        if t.rows != s.rows {
          assert RowStep(s.rows[run], t.rows[run]) && t.rows == s.rows[run := t.rows[run]];
        }
      case LRunNow(job, agent, now) =>
        if t.rows != s.rows {
          assert Enters(s.rows, t.rows[|s.rows|]) && t.rows == s.rows + [t.rows[|s.rows|]];
        }
      case LMaybeFire(job, agent, policy, now) =>
        if t.rows != s.rows {
          assert Enters(s.rows, t.rows[|s.rows|]) && t.rows == s.rows + [t.rows[|s.rows|]];
        }
      case LFire(job, agent, boundary, now) =>
        if t.rows != s.rows {
          assert Enters(s.rows, t.rows[|s.rows|]) && t.rows == s.rows + [t.rows[|s.rows|]];
        }
      case _ =>
    }
  }

  /** Over any step, every run that exists moves along one transition at most. */
  lemma StepRows(s: Server, l: Label)
    requires HandlersValid(s)
    ensures |s.rows| <= |Step(s, l).rows| <= |s.rows| + 1
    ensures forall i :: 0 <= i < |s.rows| ==> RowStep(s.rows[i], Step(s, l).rows[i])
  {
    StepTable(s, l);
  }

  /** The labels that take an open request further: it alone may change. */
  predicate Advances(l: Label) {
    l.LCommit? || l.LReread? || l.LStaleLook? || l.LStaleWrite?
  }

  lemma AdvancesOne(s: Server, l: Label)
    requires Advances(l)
    ensures |Step(s, l).handlers| == |s.handlers|
    ensures forall h :: 0 <= h < |s.handlers| && h != l.h ==> Step(s, l).handlers[h] == s.handlers[h]
    ensures l.h < |s.handlers| ==> Step(s, l).handlers[l.h].(state := s.handlers[l.h].state) == s.handlers[l.h]
  {
  }

  lemma OthersOpen(s: Server, l: Label)
    requires !Advances(l)
    ensures s.handlers <= Step(s, l).handlers
  {
  }

  lemma HandlersStay(s: Server, l: Label)
    ensures |s.handlers| <= |Step(s, l).handlers|
    ensures forall h :: 0 <= h < |s.handlers| ==> Step(s, l).handlers[h].(state := s.handlers[h].state) == s.handlers[h]
  {
    if Advances(l) {
      AdvancesOne(s, l);
    } else {
      OthersOpen(s, l);
    }
  }

  /** Only the monitor judges. */
  lemma JudgedByMonitor(s: Server, l: Label, h: nat)
    requires h < |s.handlers| <= |Step(s, l).handlers| && Step(s, l).handlers[h].state.Judged?
    ensures s.handlers[h].state.Judged? || s.handlers[h].source.FromMonitor?
  {
    if Advances(l) {
      AdvancesOne(s, l);
    } else {
      OthersOpen(s, l);
    }
  }

  lemma NewHandlersValid(s: Server, l: Label)
    ensures forall h :: |s.handlers| <= h < |Step(s, l).handlers| ==> HandlerValid(Step(s, l).handlers[h], |s.rows|)
  {
  }

  lemma StepHandlers(s: Server, l: Label)
    requires HandlersValid(s)
    ensures HandlersValid(Step(s, l))
  {
    StepRows(s, l);
    HandlersStay(s, l);
    NewHandlersValid(s, l);
    var t := Step(s, l);
    forall h | 0 <= h < |t.handlers| ensures HandlerValid(t.handlers[h], |t.rows|) {
      if h < |s.handlers| {
        assert HandlerValid(s.handlers[h], |s.rows|);
        if t.handlers[h].state.Judged? {
          JudgedByMonitor(s, l, h);
        }
      }
    }
  }

  lemma RowChangeKeeps(a: seq<Run>, i: nat, r: Run)
    requires i < |a| && RowStep(a[i], r)
    requires OneInFlight(a) && BoundariesUnique(a) && RetryChains(a)
    ensures OneInFlight(a[i := r]) && BoundariesUnique(a[i := r]) && RetryChains(a[i := r])
  {
    RowChangeRetry(a, i, r);
  }

  lemma RowChangeRetry(a: seq<Run>, i: nat, r: Run)
    requires i < |a| && RowStep(a[i], r) && RetryChains(a)
    ensures RetryChains(a[i := r])
  {
  }

  lemma NewRowKeeps(a: seq<Run>, r: Run)
    requires Enters(a, r)
    requires OneInFlight(a) && BoundariesUnique(a) && RetryChains(a)
    ensures OneInFlight(a + [r]) && BoundariesUnique(a + [r]) && RetryChains(a + [r])
  {
    NewRowInFlight(a, r);
    NewRowBoundary(a, r);
    NewRowRetry(a, r);
  }

  lemma NewRowInFlight(a: seq<Run>, r: Run)
    requires Enters(a, r) && OneInFlight(a)
    ensures OneInFlight(a + [r])
  {
  }

  lemma NewRowBoundary(a: seq<Run>, r: Run)
    requires Enters(a, r) && BoundariesUnique(a)
    ensures BoundariesUnique(a + [r])
  {
  }

  lemma NewRowRetry(a: seq<Run>, r: Run)
    requires Enters(a, r) && RetryChains(a)
    ensures RetryChains(a + [r])
  {
  }

  lemma StepInv(s: Server, l: Label)
    requires Inv(s)
    ensures Inv(Step(s, l))
  {
    StepHandlers(s, l);
    StepTable(s, l);
    var a, b := s.rows, Step(s, l).rows;
    if a != b {
      if i, r :| 0 <= i < |a| && RowStep(a[i], r) && b == a[i := r] {
        RowChangeKeeps(a, i, r);
      } else {
        var r :| Enters(a, r) && b == a + [r];
        NewRowKeeps(a, r);
      }
    }
  }

  lemma {:induction false} ExecInv(ls: seq<Label>)
    ensures Inv(Exec(ls))
  {
    if ls != [] {
      ExecInv(ls[..|ls| - 1]);
      StepInv(Exec(ls[..|ls| - 1]), ls[|ls| - 1]);
    }
  }
}
