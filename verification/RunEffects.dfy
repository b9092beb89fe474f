/**
 What the server's steps write, field by field, and exactly when: which run a firing, a
 retry or a Run Now adds, and what a claim, a cancel, a report and the monitor leave in the
 row of a run.
 */
module RunEffects {
  import opened Common
  import opened BackupRun
  import opened RunServer
  import opened RunHistory

  // ----- New runs -----

  /** A run as it is made: pending, and with nothing to report. */
  predicate IsNew(r: Run, job: nat, agent: nat, now: int) {
    && r.job == job && r.agent == agent && r.createdAt == now && r.updatedAt == now
    && r.status.Pending? && !r.cancelRequested && r.startedAt.None? && r.completedAt.None?
    && r.outcome == Outcome(0, 0, 0, "", "", "")
  }

  /** Every run of the job has ended. */
  predicate Idle(rows: seq<Run>, job: nat) {
    forall i :: 0 <= i < |rows| && rows[i].job == job ==> Terminal(rows[i].status)
  }

  /** One run more, and nothing else. */
  ghost predicate AddsOne(s: Server, t: Server) {
    |t.rows| == |s.rows| + 1 && s.rows <= t.rows && t.handlers == s.handlers && t.agents == s.agents
  }

  lemma BusyIffNotIdle(rows: seq<Run>, job: nat)
    ensures JobBusy(rows, job) <==> !Idle(rows, job)
  {
  }

  /** A firing adds a run exactly when the job is idle and has not fired this boundary; the
      run carries the boundary. Otherwise it does nothing. */
  lemma FiringAddsIff(s: Server, job: nat, agent: nat, boundary: int, now: int)
    ensures var t := Step(s, LFire(job, agent, boundary, now));
            if Idle(s.rows, job) && !HasFired(s.rows, job, boundary) then
              && AddsOne(s, t) && IsNew(t.rows[|s.rows|], job, agent, now)
              && t.rows[|s.rows|].scheduledFor == Some(boundary)
              && t.rows[|s.rows|].retryOf.None? && t.rows[|s.rows|].attempt == 0
            else t == s
  {
    BusyIffNotIdle(s.rows, job);
  }

  lemma RunNowAddsIff(s: Server, job: nat, agent: nat, now: int)
    ensures var t := Step(s, LRunNow(job, agent, now));
            if Idle(s.rows, job) then
              && AddsOne(s, t) && IsNew(t.rows[|s.rows|], job, agent, now)
              && t.rows[|s.rows|].scheduledFor.None?
              && t.rows[|s.rows|].retryOf.None? && t.rows[|s.rows|].attempt == 0
            else t == s
  {
    BusyIffNotIdle(s.rows, job);
  }

  /** Run k is the newest of its job, has failed, has attempts left under the policy and
      ended at least the delay ago, which is five minutes if the policy has none. */
  predicate RetryDue(rows: seq<Run>, job: nat, p: Policy, now: int, k: nat) {
    && k < |rows| && rows[k].job == job && (forall i :: k < i < |rows| ==> rows[i].job != job)
    && rows[k].status.Failed? && rows[k].attempt < p.maxRetries
    && rows[k].completedAt.Some?
    && now - rows[k].completedAt.value >= (if p.retryDelay > 0 then p.retryDelay else 300)
  }

  /** A retry is made exactly when it is due: under an enabled policy, with the job idle, for
      the newest run of the job. It points at that run and counts one attempt more. */
  lemma RetryAddsIff(s: Server, job: nat, agent: nat, p: Policy, now: int)
    ensures var t := Step(s, LMaybeFire(job, agent, p, now));
            && (AddsOne(s, t) <==> p.enabled && Idle(s.rows, job) && exists k: nat :: RetryDue(s.rows, job, p, now, k))
            && (!AddsOne(s, t) ==> t == s)
    ensures forall k: nat :: p.enabled && Idle(s.rows, job) && RetryDue(s.rows, job, p, now, k) ==>
              var t := Step(s, LMaybeFire(job, agent, p, now));
              && IsNew(t.rows[|s.rows|], job, agent, now)
              && t.rows[|s.rows|].scheduledFor.None?
              && t.rows[|s.rows|].retryOf == Some(k) && t.rows[|s.rows|].attempt == s.rows[k].attempt + 1
  {
    BusyIffNotIdle(s.rows, job);
    var latest := Latest(s.rows, job);
    forall k: nat | RetryDue(s.rows, job, p, now, k) ensures latest == Some(k) {
      NewestIsLatest(s.rows, job, k);
    }
    var t := Step(s, LMaybeFire(job, agent, p, now));
    if t != s {
      assert RetryDue(s.rows, job, p, now, latest.value);
    }
  }

  lemma NewestIsLatest(rows: seq<Run>, job: nat, k: nat)
    requires k < |rows| && rows[k].job == job && forall i :: k < i < |rows| ==> rows[i].job != job
    ensures Latest(rows, job) == Some(k)
  {
  }

  /** Step k of an execution added a run. */
  ghost predicate AddedAt(ls: seq<Label>, k: nat) {
    k < |ls| && |Exec(ls[..k]).rows| < |Exec(ls[..k + 1]).rows|
  }

  /** Of all firings of a boundary for a job, in any execution, at most one adds a run. */
  lemma BoundaryFiresOnce(ls: seq<Label>, i: nat, j: nat)
    requires i < j < |ls| && ls[i].LFire? && ls[j].LFire?
    requires ls[i].job == ls[j].job && ls[i].boundary == ls[j].boundary
    ensures !(AddedAt(ls, i) && AddedAt(ls, j))
  {
    if AddedAt(ls, i) {
      var k := |Exec(ls[..i]).rows|;
      FiringStaysFired(ls, i, j, k);
      NotFiredAgain(ls, j);
    }
  }

  /** From the firing on some run of the job has the boundary. */
  lemma FiringStaysFired(ls: seq<Label>, i: nat, j: nat, k: nat)
    requires i < j < |ls| && ls[i].LFire? && AddedAt(ls, i) && k == |Exec(ls[..i]).rows|
    ensures HasFired(Exec(ls[..j]).rows, ls[i].job, ls[i].boundary)
  {
    var after := ls[..i + 1];
    assert after == ls[..i] + [ls[i]] && ls[..j] == after + ls[i + 1..j];
    ExecSnoc(ls[..i], ls[i]);
    FiringAddsIff(Exec(ls[..i]), ls[i].job, ls[i].agent, ls[i].boundary, ls[i].now);
    ExecGrows(after, ls[i + 1..j]);
    StillFired(Exec(after).rows, Exec(ls[..j]).rows, k, ls[i].job, ls[i].boundary);
  }

  lemma NotFiredAgain(ls: seq<Label>, j: nat)
    requires j < |ls| && ls[j].LFire? && HasFired(Exec(ls[..j]).rows, ls[j].job, ls[j].boundary)
    ensures !AddedAt(ls, j)
  {
    assert ls[..j + 1] == ls[..j] + [ls[j]];
    ExecSnoc(ls[..j], ls[j]);
    FiringAddsIff(Exec(ls[..j]), ls[j].job, ls[j].agent, ls[j].boundary, ls[j].now);
  }

  predicate HasFired(rows: seq<Run>, job: nat, boundary: int) {
    exists i :: 0 <= i < |rows| && rows[i].job == job && rows[i].scheduledFor == Some(boundary)
  }

  lemma StillFired(a: seq<Run>, b: seq<Run>, k: nat, job: nat, boundary: int)
    requires Grows(a, b) && k < |a| && a[k].job == job && a[k].scheduledFor == Some(boundary)
    ensures HasFired(b, job, boundary)
  {
    assert RowsReach(a[k], b[k]);
  }

  // ----- What is written to a row -----

  /** Only row r may differ. */
  ghost predicate OnlyRow(s: Server, t: Server, r: nat) {
    |t.rows| == |s.rows| && forall i :: 0 <= i < |s.rows| && i != r ==> t.rows[i] == s.rows[i]
  }

  ghost predicate OnlyHandler(s: Server, t: Server, h: nat) {
    && |t.handlers| == |s.handlers|
    && (forall i :: 0 <= i < |s.handlers| && i != h ==> t.handlers[i] == s.handlers[i])
    && (h < |s.handlers| ==> t.handlers[h].run == s.handlers[h].run && t.handlers[h].source == s.handlers[h].source
                             && t.handlers[h].snapshot == s.handlers[h].snapshot)
  }

  /** What no report changes. */
  predicate SameOrigin(a: Run, b: Run) {
    && a.job == b.job && a.agent == b.agent && a.scheduledFor == b.scheduledFor && a.retryOf == b.retryOf
    && a.attempt == b.attempt && a.createdAt == b.createdAt
  }

  /** A claim starts a pending run for its own agent, and any claim is a sign of life. */
  lemma ClaimStartsIff(s: Server, run: nat, agent: nat, now: int)
    ensures var t := Step(s, LClaim(run, agent, now));
            && t.handlers == s.handlers && OnlyRow(s, t, run)
            && t.agents == (if agent in s.agents then s.agents[agent := Some(now)] else s.agents)
            && (run < |s.rows| ==>
                 var a, b := s.rows[run], t.rows[run];
                 if agent in s.agents && a.agent == agent && a.status.Pending? then
                   && SameOrigin(a, b) && b.status.Running? && b.startedAt == Some(now) && b.updatedAt == now
                   && b.cancelRequested == a.cancelRequested && b.completedAt == a.completedAt && b.outcome == a.outcome
                 else b == a)
  {
  }

  /** A cancel ends a pending run, flags a busy one, and leaves a finished one alone. */
  lemma CancelFlags(s: Server, run: nat, now: int)
    ensures var t := Step(s, LCancel(run, now));
            && t.handlers == s.handlers && t.agents == s.agents && OnlyRow(s, t, run)
            && (run < |s.rows| ==>
                 var a, b := s.rows[run], t.rows[run];
                 if Terminal(a.status) then b == a
                 else
                   && SameOrigin(a, b) && b.cancelRequested && b.updatedAt == now
                   && b.status == (if a.status.Pending? then Cancelled else a.status)
                   && b.startedAt == a.startedAt && b.completedAt == a.completedAt && b.outcome == a.outcome)
  {
  }

  /** A report by the run's own agent opens a request if its status may follow and its path is
      in place; if it repeats the status of an active run it overwrites the three counters and
      nothing else; otherwise it does nothing. */
  lemma ReportBegins(s: Server, run: nat, agent: nat, report: Report, pathOk: bool, now: int)
    ensures var t := Step(s, LBegin(run, agent, report, pathOk, now));
            var ours := run < |s.rows| && s.rows[run].agent == agent && report.outcome.bytesRead >= 0
                        && report.outcome.bytesCompressed >= 0 && report.outcome.bytesUploaded >= 0;
            && t.agents == s.agents
            && (ours && CanTransition(s.rows[run].status, report.status) ==>
                 && t.rows == s.rows
                 && t.handlers == if report.outcome.storagePath == "" || pathOk
                                  then s.handlers + [Handler(run, FromAgent(report), s.rows[run].status, Started)]
                                  else s.handlers)
            && (ours && Claimed(s.rows[run].status) && s.rows[run].status == report.status ==>
                 && t.handlers == s.handlers && OnlyRow(s, t, run)
                 && CountersOnly(s.rows[run], t.rows[run], report, now))
            && ((ours ==> !CanTransition(s.rows[run].status, report.status)
                          && !(Claimed(s.rows[run].status) && s.rows[run].status == report.status)) ==> t == s)
  {
  }

  predicate CountersOnly(a: Run, b: Run, report: Report, now: int) {
    && SameOrigin(a, b) && b.status == a.status && b.cancelRequested == a.cancelRequested
    && b.startedAt == a.startedAt && b.completedAt == a.completedAt && b.updatedAt == now
    && b.outcome.bytesRead == report.outcome.bytesRead
    && b.outcome.bytesCompressed == report.outcome.bytesCompressed
    && b.outcome.bytesUploaded == report.outcome.bytesUploaded
    && b.outcome.errorMessage == a.outcome.errorMessage && b.outcome.storagePath == a.outcome.storagePath
    && b.outcome.checksum == a.outcome.checksum
  }

  predicate ReportedBy(a: Run, b: Run, report: Report, now: int) {
    && SameOrigin(a, b) && b.cancelRequested == a.cancelRequested && b.startedAt == a.startedAt
    && b.status == report.status && b.updatedAt == now
    && b.completedAt == (if report.status.Completed? || report.status.Failed? then Some(now) else a.completedAt)
    && b.outcome.bytesRead == report.outcome.bytesRead
    && b.outcome.bytesCompressed == report.outcome.bytesCompressed
    && b.outcome.bytesUploaded == report.outcome.bytesUploaded
    && b.outcome.errorMessage == report.outcome.errorMessage
    && b.outcome.storagePath == report.outcome.storagePath && b.outcome.checksum == report.outcome.checksum
  }

  /** A request is written exactly when the status it read is still there, and then puts
      everything it reports into the row. It is decided once. */
  lemma ReportIsWrittenIff(s: Server, h: nat, now: int)
    requires h < |s.handlers| && s.handlers[h].run < |s.rows|
    ensures var t, hd := Step(s, LCommit(h, now)), s.handlers[h];
            if !hd.source.FromAgent? || !hd.state.Started? then t == s
            else
              && OnlyRow(s, t, hd.run) && OnlyHandler(s, t, h) && t.agents == s.agents
              && if s.rows[hd.run].status == hd.snapshot
                 then t.handlers[h].state.Written? && ReportedBy(s.rows[hd.run], t.rows[hd.run], hd.source.report, now)
                 else t.handlers[h].state.Refused? && t.rows == s.rows
  {
  }

  /** The answer of a written request carries the cancel flag as it is then. */
  lemma AnswerCarriesFlag(s: Server, h: nat)
    requires h < |s.handlers| && s.handlers[h].run < |s.rows|
    ensures var t, hd := Step(s, LReread(h)), s.handlers[h];
            if !hd.source.FromAgent? || !hd.state.Written? then t == s
            else
              && t.rows == s.rows && t.agents == s.agents && OnlyHandler(s, t, h)
              && t.handlers[h].state == Answered(s.rows[hd.run].cancelRequested)
  {
  }

  /** The monitor lists a claimed run that was not written for 15 minutes ... */
  lemma ListingOpensIff(s: Server, run: nat, now: int)
    ensures var t := Step(s, LStaleRead(run, now));
            && t.rows == s.rows && t.agents == s.agents
            && t.handlers ==
                 if run < |s.rows| && Claimed(s.rows[run].status) && now - s.rows[run].updatedAt > 900
                 then s.handlers + [Handler(run, FromMonitor(s.rows[run].cancelRequested), s.rows[run].status, Started)]
                 else s.handlers
  {
  }

  /** ... takes its agent for gone if it is enrolled and was not seen for 3 minutes ... */
  lemma LookJudgesIff(s: Server, h: nat, now: int)
    requires h < |s.handlers| && s.handlers[h].run < |s.rows|
    ensures var t, hd := Step(s, LStaleLook(h, now)), s.handlers[h];
            if !hd.source.FromMonitor? || !hd.state.Started? then t == s
            else
              && t.rows == s.rows && t.agents == s.agents && OnlyHandler(s, t, h)
              && t.handlers[h].state == if NotSeenFor(s, s.rows[hd.run].agent, 180, now) then Judged else Refused
  {
  }

  /** ... and then ends it if its status is still the one listed: as cancelled if a cancel was
      pending at the listing, else as failed. */
  lemma MonitorWritesIff(s: Server, h: nat, now: int)
    requires h < |s.handlers| && s.handlers[h].run < |s.rows|
    ensures var t, hd := Step(s, LStaleWrite(h, now)), s.handlers[h];
            if !hd.source.FromMonitor? || !hd.state.Judged? then t == s
            else
              && OnlyRow(s, t, hd.run) && OnlyHandler(s, t, h) && t.agents == s.agents
              && if s.rows[hd.run].status == hd.snapshot
                 then
                   && t.handlers[h].state.Written?
                   && EndedByMonitor(s.rows[hd.run], t.rows[hd.run], hd.source.sawCancel, now)
                 else t.handlers[h].state.Refused? && t.rows == s.rows
  {
    var hd := s.handlers[h];
    EndedWrites(s.rows[hd.run], hd.source, now);
  }

  lemma EndedWrites(a: Run, source: Source, now: int)
    ensures source.FromMonitor? ==> EndedByMonitor(a, Ended(a, source.sawCancel, now), source.sawCancel, now)
  {
  }

  predicate EndedByMonitor(a: Run, b: Run, sawCancel: bool, now: int) {
    && SameOrigin(a, b) && b.cancelRequested == a.cancelRequested && b.startedAt == a.startedAt
    && b.status == (if sawCancel then Cancelled else Failed)
    && b.completedAt == Some(now) && b.updatedAt == now
    && b.outcome.bytesRead == a.outcome.bytesRead && b.outcome.bytesCompressed == a.outcome.bytesCompressed
    && b.outcome.bytesUploaded == a.outcome.bytesUploaded
    && b.outcome.storagePath == a.outcome.storagePath && b.outcome.checksum == a.outcome.checksum
    && b.outcome.errorMessage == (if sawCancel then GONE_CANCELLED else GONE_FAILED)
  }

  /** An agent is enrolled unseen; a heartbeat or a poll of an enrolled one records the time. */
  lemma SignsOfLife(s: Server, agent: nat, now: int)
    ensures Step(s, LEnlist(agent)) == s.(agents := if agent in s.agents then s.agents else s.agents[agent := None])
    ensures Step(s, LTouch(agent, now))
            == s.(agents := if agent in s.agents then s.agents[agent := Some(now)] else s.agents)
  {
  }
}
