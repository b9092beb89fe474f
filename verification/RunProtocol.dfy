/**
 The agent's side of a backup joined to the run server and to the object store.
 Each claimed run has one executor that walks through the stages of a backup; a
 request may be lost, answered late or abandoned at any point, and every server
 actor may move between two moves of an executor. Objects are stored under a key
 that ends in the run's id, so the store is a map from runs to contents.
 `hash` stands for SHA-256.
 */
module RunProtocol {
  import opened Common
  import opened BackupRun
  import opened RunServer

  type Content = seq<byte>
  type Hash = Content -> string

  /** Where an executor stands. Reporting(k) is about to send final report k,
      Awaiting(k, h) has sent it and waits for handler h. */
  datatype Phase =
    | Producing
    | Ready
    | Stored
    | Reporting(k: nat)
    | Awaiting(k: nat, h: nat)
    | ToldToCancel(k: nat)
    | Succeeded
    | Dropped(deleted: bool, k: nat)
    | GaveUp

  datatype Executor = Executor(phase: Phase, agent: nat, archive: Content, bytesRead: nat, bytesCompressed: nat,
      path: string)

  datatype World = World(server: Server, objects: map<nat, Content>, executors: map<nat, Executor>, corrupted: set<nat>)

  const START := World(EMPTY, map[], map[], {})

  /** The three closing reports, in order. */
  function FinalStatus(k: nat): Status {
    if k == 0 then Uploading else if k == 1 then Verifying else Completed
  }

  function FinalOutcome(hash: Hash, e: Executor): Outcome {
    Outcome(e.bytesRead, e.bytesCompressed, |e.archive|, "", e.path, hash(e.archive))
  }

  datatype Move =
    | Other(l: Label)
    | ClaimRun(run: nat, agent: nat, delivered: bool, now: int)
    | Progress(run: nat, read: nat, now: int)
    | Produce(run: nat, archive: Content, bytesRead: nat, bytesCompressed: nat)
    | CancelEarly(run: nat, now: int)
    | Fail(run: nat, error: string, now: int)
    | Put(run: nat, stored: Option<Content>, path: string, now: int)
    | Head(run: nat, found: bool, metadata: string, now: int)
    | Send(run: nat, pathOk: bool, now: int)
    | Receive(run: nat, nudged: bool)
    | Abandon(run: nat)
    | DropObject(run: nat, deleted: bool, now: int)

  /** The actions of everybody but the agents: users, scheduler, monitor, and the
      server's own progress on requests already sent. */
  predicate NotAnAgent(l: Label) {
    !l.LClaim? && !l.LBegin?
  }

  function SetPhase(w: World, run: nat, p: Phase): World
    requires run in w.executors
  {
    w.(executors := w.executors[run := w.executors[run].(phase := p)])
  }

  /** Report FAILED or CANCELLED and stop, whatever the server makes of it; `purge`
      deletes the object first. */
  function LastReport(w: World, run: nat, purge: bool, status: Status, error: string, p: Phase, now: int): World
    requires run in w.executors
  {
    var report := Report(status, NO_OUTCOME.(errorMessage := error));
    var server := BeginReport(w.server, run, w.executors[run].agent, report, true, now).0;
    var objects := if purge then w.objects - {run} else w.objects;
    SetPhase(w.(server := server, objects := objects), run, p)
  }

  /** A report was accepted: go on, unless told of a cancel by its reply or by a nudge. */
  function Answer(w: World, run: nat, k: nat, cancel: bool): World
    requires run in w.executors
  {
    SetPhase(w, run, if cancel then ToldToCancel(k) else if k < 2 then Reporting(k + 1) else Succeeded)
  }

  predicate CancelFlag(w: World, run: nat) {
    run < |w.server.rows| && w.server.rows[run].cancelRequested
  }

  function Next(hash: Hash, w: World, m: Move): World {
    match m
    case Other(l) =>
      if NotAnAgent(l) then w.(server := Step(w.server, l)) else w
    case ClaimRun(run, agent, delivered, now) =>
      var w1 := w.(server := Claim(w.server, run, agent, now));
      if CanClaim(w.server, run, agent) && delivered
      then w1.(executors := w.executors[run := Executor(Producing, agent, [], 0, 0, "")]) else w1
    case _ =>
      if m.run !in w.executors then w else AgentMove(hash, w, m)
  }

  function AgentMove(hash: Hash, w: World, m: Move): World
    requires !m.Other? && !m.ClaimRun? && m.run in w.executors
  {
    var e := w.executors[m.run];
    match m
    case Progress(run, read, now) =>
      // A heartbeat: its reply never carries the cancel flag, so it moves nothing.
      if e.phase.Producing?
      then w.(server := BeginReport(w.server, run, e.agent, Report(Running, NO_OUTCOME.(bytesRead := read)), true,
          now).0)
      else w
    case Produce(run, archive, bytesRead, bytesCompressed) =>
      if e.phase.Producing? && archive != []
      then w.(executors := w.executors[run := e.(phase := Ready, archive := archive, bytesRead := bytesRead,
                                                 bytesCompressed := bytesCompressed)])
      else w
    case CancelEarly(run, now) =>
      if (e.phase.Producing? || e.phase.Ready?) && CancelFlag(w, run)
      then LastReport(w, run, false, Cancelled, "", GaveUp, now) else w
    case Fail(run, error, now) =>
      if e.phase.Producing? || e.phase.Ready?
      then LastReport(w, run, false, Failed, error, GaveUp, now) else w
    case Put(run, stored, path, now) => if e.phase.Ready? then PutObject(w, run, stored, path, now) else w
    case Head(run, found, metadata, now) => if e.phase.Stored? then HeadObject(hash, w, run, found, metadata, now)
        else w
    case Send(run, pathOk, now) => if e.phase.Reporting? then SendReport(hash, w, run, pathOk, now) else w
    case Receive(run, nudged) => if e.phase.Awaiting? then ReceiveReply(w, run, nudged) else w
    case Abandon(run) => if e.phase.Awaiting? || e.phase.Reporting? then SetPhase(w, run, GaveUp) else w
    case DropObject(run, deleted, now) =>
      if e.phase.ToldToCancel?
      then LastReport(w, run, deleted, Cancelled, "", Dropped(deleted, e.phase.k), now) else w
  }

  /** Upload. The store may keep something else than it was given (`corrupted`). */
  function PutObject(w: World, run: nat, stored: Option<Content>, path: string, now: int): World
    requires run in w.executors
  {
    var e := w.executors[run];
    if stored.None? then LastReport(w, run, false, Failed, "upload failed", GaveUp, now)
    else w.(objects := w.objects[run := stored.value],
            executors := w.executors[run := e.(phase := Stored, path := path)],
            corrupted := if stored.value == e.archive then w.corrupted else w.corrupted + {run})
  }

  /** Measure the stored object; a mismatch deletes it. The metadata is the checksum
      the agent itself attached, or nothing for a local store. */
  function HeadObject(hash: Hash, w: World, run: nat, found: bool, metadata: string, now: int): World
    requires run in w.executors
  {
    var e := w.executors[run];
    if !found || run !in w.objects then LastReport(w, run, false, Failed, "verify failed: HEAD", GaveUp, now)
    else if |w.objects[run]| != |e.archive|
    then LastReport(w, run, true, Failed, "verify failed: size mismatch", GaveUp, now)
    else if metadata != "" && metadata != hash(e.archive) then
      LastReport(w, run, true, Failed, "verify failed: checksum mismatch", GaveUp, now)
    else SetPhase(w, run, Reporting(0))
  }

  function SendReport(hash: Hash, w: World, run: nat, pathOk: bool, now: int): World
    requires run in w.executors && w.executors[run].phase.Reporting?
  {
    var e := w.executors[run];
    var report := Report(FinalStatus(e.phase.k), FinalOutcome(hash, e));
    var (server, begun) := BeginReport(w.server, run, e.agent, report, pathOk, now);
    var w1 := w.(server := server);
    if begun.Opened? then SetPhase(w1, run, Awaiting(e.phase.k, |w.server.handlers|))
    else if begun.Echoed? then Answer(w1, run, e.phase.k, false)
    else SetPhase(w1, run, GaveUp)
  }

  function ReceiveReply(w: World, run: nat, nudged: bool): World
    requires run in w.executors && w.executors[run].phase.Awaiting?
  {
    var e := w.executors[run];
    if e.phase.h >= |w.server.handlers| then w
    else
      var state := w.server.handlers[e.phase.h].state;
      if state.Answered? then Answer(w, run, e.phase.k, state.cancel || (nudged && CancelFlag(w, run)))
      else if state.Refused? then SetPhase(w, run, GaveUp)
      else w
  }

  function Run(hash: Hash, ms: seq<Move>): World {
    if ms == [] then START else Next(hash, Run(hash, ms[..|ms| - 1]), ms[|ms| - 1])
  }

  // ----- The invariant -----

  /** The upload was measured against what the store holds. */
  predicate Verified(p: Phase) {
    p.Reporting? || p.Awaiting? || p.ToldToCancel? || p.Succeeded? || p.Dropped?
  }

  /** Verified, and not deleted since. */
  predicate Holding(p: Phase) {
    Verified(p) && !(p.Dropped? && p.deleted)
  }

  /** The status a run has before closing report k; Failed and Cancelled may cut in. */
  predicate StageIs(st: Status, k: nat) {
    st == (if k == 0 then Running else FinalStatus(k - 1)) || st.Failed? || st.Cancelled?
  }

  /** A request of run r that carries one of the three closing reports. */
  predicate Closing(hd: Handler, r: nat) {
    && hd.run == r && hd.source.FromAgent?
    && (hd.source.report.status.Uploading? || hd.source.report.status.Verifying? || hd.source.report.status.Completed?)
  }

  ghost predicate ClosingSent(w: World, r: nat) {
    exists h :: 0 <= h < |w.server.handlers| && Closing(w.server.handlers[h], r)
  }

  /** All closing requests of r but `waiting` have been decided. */
  ghost predicate Settled(w: World, r: nat, waiting: int) {
    forall h :: 0 <= h < |w.server.handlers| && h != waiting && Closing(w.server.handlers[h], r) ==>
      !w.server.handlers[h].state.Started?
  }

  predicate ObjectGood(w: World, r: nat) {
    && r in w.executors && r in w.objects && |w.objects[r]| == |w.executors[r].archive|
    && (r !in w.corrupted ==> w.objects[r] == w.executors[r].archive)
  }

  ghost predicate PhaseOk(w: World, r: nat)
    requires r in w.executors && r < |w.server.rows|
  {
    var st := w.server.rows[r].status;
    match w.executors[r].phase
    case Producing => StageIs(st, 0) && !ClosingSent(w, r)
    case Ready => StageIs(st, 0) && !ClosingSent(w, r)
    case Stored => StageIs(st, 0) && !ClosingSent(w, r)
                   && (r in w.objects && r !in w.corrupted ==> w.objects[r] == w.executors[r].archive)
    case Reporting(k) => k <= 2 && StageIs(st, k) && Settled(w, r, -1)
    case Awaiting(k, h) =>
      && k <= 2 && h < |w.server.handlers| && Closing(w.server.handlers[h], r)
      && w.server.handlers[h].source.report.status == FinalStatus(k)
      && Settled(w, r, h)
      && (w.server.handlers[h].state.Started? ==> StageIs(st, k))
      && (w.server.handlers[h].state.Written? || w.server.handlers[h].state.Answered? ==> StageIs(st, k + 1))
    case ToldToCancel(k) => k <= 2 && StageIs(st, k + 1) && CancelFlag(w, r) && Settled(w, r, -1)
    case Dropped(deleted, k) => k <= 2 && StageIs(st, k + 1) && CancelFlag(w, r) && Settled(w, r, -1)
                                && (deleted ==> r !in w.objects)
    case Succeeded => st.Completed? && !CancelFlag(w, r)
    case GaveUp => ClosingSent(w, r) ==> ObjectGood(w, r)
  }

  ghost predicate ExecutorOk(w: World, r: nat)
    requires r in w.executors
  {
    && r < |w.server.rows| && w.server.rows[r].agent == w.executors[r].agent && !w.server.rows[r].status.Pending?
    && PhaseOk(w, r)
    && (Holding(w.executors[r].phase) ==> ObjectGood(w, r))
  }

  ghost predicate RequestOk(hash: Hash, w: World, hd: Handler) {
    hd.source.FromAgent? ==>
      && hd.run in w.executors
      && hd.run < |w.server.rows|
      && (Closing(hd, hd.run) ==> hd.source.report.outcome == FinalOutcome(hash, w.executors[hd.run]))
      && (hd.source.report.status.Completed? && (hd.state.Written? || hd.state.Answered?) ==>
            w.server.rows[hd.run].status.Completed?)
      && (hd.state.Answered? && hd.state.cancel ==> CancelFlag(w, hd.run))
      && (hd.source.report.status.Completed? && hd.state.Answered? ==> hd.state.cancel == CancelFlag(w, hd.run))
  }

  ghost predicate RowOk(hash: Hash, w: World, r: nat)
    requires r < |w.server.rows|
  {
    w.server.rows[r].status.Completed? ==>
      r in w.executors && ClosingSent(w, r) && w.server.rows[r].outcome == FinalOutcome(hash, w.executors[r])
  }

  /** Everything that holds of one run, its executor and its requests. */
  ghost predicate RunOk(hash: Hash, w: World, r: nat) {
    && (r in w.executors ==> ExecutorOk(w, r))
    && (r < |w.server.rows| ==> RowOk(hash, w, r))
    && (forall h :: 0 <= h < |w.server.handlers| && w.server.handlers[h].run == r ==>
         RequestOk(hash, w, w.server.handlers[h]))
  }

  ghost predicate WorldOk(hash: Hash, w: World) {
    HandlersValid(w.server) && forall r: nat :: RunOk(hash, w, r)
  }

  // ----- Steps of the others -----

  /** What one server step by the others does to the row and the requests of a run. */
  ghost predicate OthersStep(s: Server, t: Server, r: nat) {
    && |s.rows| <= |t.rows| && |s.handlers| <= |t.handlers|
    && (r < |s.rows| ==> RowStep(s.rows[r], t.rows[r]))
    && (|s.rows| <= r < |t.rows| ==> t.rows[r].status.Pending?)
    && (forall h :: |s.handlers| <= h < |t.handlers| ==> !t.handlers[h].source.FromAgent?)
    && (forall h :: 0 <= h < |s.handlers| ==>
         && t.handlers[h].run == s.handlers[h].run && t.handlers[h].source == s.handlers[h].source
         && (t.handlers[h].state.Started? ==> s.handlers[h].state.Started?))
    && (forall h :: 0 <= h < |s.handlers| && s.handlers[h].run == r && r < |t.rows|
                    && t.handlers[h].state != s.handlers[h].state && s.handlers[h].source.FromAgent? ==>
         || (s.handlers[h].state.Started? && t.handlers[h].state.Refused? && t.rows[r].status != s.handlers[h].snapshot)
         || (s.handlers[h].state.Started? && t.handlers[h].state.Written?
              && t.rows[r].status == s.handlers[h].source.report.status)
         || (s.handlers[h].state.Written? && t.handlers[h].state == Answered(t.rows[r].cancelRequested)))
    && (r < |t.rows| && (r < |s.rows| ==> t.rows[r].status != s.rows[r].status) ==>
         || t.rows[r].status.Failed? || t.rows[r].status.Cancelled? || t.rows[r].status.Pending?
         || exists h: nat :: Decided(s, t, h, r))
  }

  /** Request h wrote the status of run r between these two states. */
  predicate Decided(s: Server, t: Server, h: nat, r: nat) {
    && h < |s.handlers| && h < |t.handlers| && r < |t.rows|
    && s.handlers[h].run == r && s.handlers[h].state.Started? && t.handlers[h].state.Written?
    && s.handlers[h].source.FromAgent? && t.rows[r].status == s.handlers[h].source.report.status
    && t.rows[r].outcome == s.handlers[h].source.report.outcome
  }

  lemma OthersDo(s: Server, l: Label, r: nat)
    requires HandlersValid(s) && NotAnAgent(l)
    ensures OthersStep(s, Step(s, l), r)
  {
    if l.LCommit? {
      CommitIsOthersStep(s, l, r);
    } else if l.LReread? {
      RereadIsOthersStep(s, l, r);
    } else if l.LStaleLook? {
      LookIsOthersStep(s, l, r);
    } else if l.LStaleWrite? {
      MonitorIsOthersStep(s, l, r);
    } else {
      RestIsOthersStep(s, l, r);
    }
  }

  lemma RereadIsOthersStep(s: Server, l: Label, r: nat)
    requires HandlersValid(s) && l.LReread?
    ensures OthersStep(s, Step(s, l), r)
  {
    StepRows(s, l);
  }

  lemma LookIsOthersStep(s: Server, l: Label, r: nat)
    requires HandlersValid(s) && l.LStaleLook?
    ensures OthersStep(s, Step(s, l), r)
  {
    StepRows(s, l);
  }

  lemma MonitorIsOthersStep(s: Server, l: Label, r: nat)
    requires HandlersValid(s) && l.LStaleWrite?
    ensures OthersStep(s, Step(s, l), r)
  {
    StepRows(s, l);
    AdvancesOne(s, l);
    if l.h < |s.handlers| && s.handlers[l.h].source.FromAgent? {
      assert Step(s, l) == s;
    }
  }

  lemma CommitIsOthersStep(s: Server, l: Label, r: nat)
    requires HandlersValid(s) && l.LCommit?
    ensures OthersStep(s, Step(s, l), r)
  {
    StepRows(s, l);
    var t := Step(s, l);
    if t.rows != s.rows {
      assert Decided(s, t, l.h, s.handlers[l.h].run);
    }
  }

  lemma RestIsOthersStep(s: Server, l: Label, r: nat)
    requires HandlersValid(s) && NotAnAgent(l) && !l.LCommit? && !l.LReread?
    requires !l.LStaleLook? && !l.LStaleWrite?
    ensures OthersStep(s, Step(s, l), r)
  {
    StepRows(s, l);
    assert s.handlers <= Step(s, l).handlers;
  }

  lemma OthersKeepExecutor(w: World, t: Server, r: nat)
    requires r in w.executors && ExecutorOk(w, r) && OthersStep(w.server, t, r)
    ensures ExecutorOk(w.(server := t), r)
  {
    var w' := w.(server := t);
    assert ClosingSent(w', r) ==> ClosingSent(w, r) by {
      if h :| 0 <= h < |t.handlers| && Closing(t.handlers[h], r) {
        assert Closing(w.server.handlers[h], r);
      }
    }
    if h: nat :| Decided(w.server, t, h, r) {
      assert !t.rows[r].status.Pending?;
    }
  }

  lemma OthersKeepRow(hash: Hash, w: World, t: Server, r: nat)
    requires RunOk(hash, w, r) && OthersStep(w.server, t, r) && r < |t.rows|
    ensures RowOk(hash, w.(server := t), r)
  {
    if t.rows[r].status.Completed? {
      if r < |w.server.rows| && t.rows[r].status == w.server.rows[r].status {
        var h :| 0 <= h < |w.server.handlers| && Closing(w.server.handlers[h], r);
        assert Closing(t.handlers[h], r);
      } else {
        var h: nat :| Decided(w.server, t, h, r);
        assert RequestOk(hash, w, w.server.handlers[h]);
        assert Closing(t.handlers[h], r);
      }
    }
  }

  lemma OthersKeepRequest(hash: Hash, w: World, t: Server, h: nat)
    requires h < |t.handlers| && OthersStep(w.server, t, t.handlers[h].run)
    requires h < |w.server.handlers| ==> RequestOk(hash, w, w.server.handlers[h])
    ensures RequestOk(hash, w.(server := t), t.handlers[h])
  {
  }

  lemma OtherKeeps(hash: Hash, w: World, l: Label)
    requires WorldOk(hash, w) && NotAnAgent(l)
    ensures WorldOk(hash, w.(server := Step(w.server, l)))
  {
    StepHandlers(w.server, l);
    var t := Step(w.server, l);
    forall r: nat ensures RunOk(hash, w.(server := t), r) {
      assert RunOk(hash, w, r);
      OthersDo(w.server, l, r);
      OthersKeepRun(hash, w, t, r);
    }
  }

  lemma OthersKeepRun(hash: Hash, w: World, t: Server, r: nat)
    requires RunOk(hash, w, r) && OthersStep(w.server, t, r)
    ensures RunOk(hash, w.(server := t), r)
  {
    if r in w.executors {
      OthersKeepExecutor(w, t, r);
    }
    if r < |t.rows| {
      OthersKeepRow(hash, w, t, r);
    }
    forall h | 0 <= h < |t.handlers| && t.handlers[h].run == r ensures RequestOk(hash, w.(server := t), t.handlers[h]) {
      OthersKeepRequest(hash, w, t, h);
    }
  }

  // ----- Steps of one agent -----

  /** Nothing about run r differs, up to requests of other runs. */
  ghost predicate SameFor(w: World, w': World, r: nat) {
    && (r in w.executors <==> r in w'.executors) && (r in w.executors ==> w.executors[r] == w'.executors[r])
    && (r in w.objects <==> r in w'.objects) && (r in w.objects ==> w.objects[r] == w'.objects[r])
    && (r in w.corrupted <==> r in w'.corrupted)
    && |w.server.rows| == |w'.server.rows| && (r < |w.server.rows| ==> w.server.rows[r] == w'.server.rows[r])
    && w.server.handlers <= w'.server.handlers
    && (forall h :: |w.server.handlers| <= h < |w'.server.handlers| ==> w'.server.handlers[h].run != r)
  }

  lemma SameForKeeps(hash: Hash, w: World, w': World, r: nat)
    requires RunOk(hash, w, r) && SameFor(w, w', r)
    ensures RunOk(hash, w', r)
  {
    assert ClosingSent(w, r) ==> ClosingSent(w', r) by {
      if h :| 0 <= h < |w.server.handlers| && Closing(w.server.handlers[h], r) {
        assert Closing(w'.server.handlers[h], r);
      }
    }
    assert ClosingSent(w', r) ==> ClosingSent(w, r) by {
      if h :| 0 <= h < |w'.server.handlers| && Closing(w'.server.handlers[h], r) {
        assert h < |w.server.handlers|;
      }
    }
  }

  lemma ClaimKeeps(hash: Hash, w: World, run: nat, agent: nat, delivered: bool, now: int)
    requires WorldOk(hash, w)
    ensures WorldOk(hash, Next(hash, w, ClaimRun(run, agent, delivered, now)))
  {
    var w' := Next(hash, w, ClaimRun(run, agent, delivered, now));
    forall r: nat ensures RunOk(hash, w', r) {
      assert RunOk(hash, w, r);
      if r != run || !CanClaim(w.server, run, agent) {
        SameForKeeps(hash, w, w', r);
      }
    }
  }

  /** How the first half of a report may change the server. */
  ghost predicate BeginStep(s: Server, t: Server, run: nat, report: Report) {
    && |s.rows| == |t.rows| && t.agents == s.agents
    && (forall i :: 0 <= i < |s.rows| && i != run ==> t.rows[i] == s.rows[i])
    && (run < |s.rows| ==>
         && t.rows[run].status == s.rows[run].status && t.rows[run].agent == s.rows[run].agent
         && t.rows[run].cancelRequested == s.rows[run].cancelRequested
         && (s.rows[run].status.Completed? ==> t.rows[run] == s.rows[run]))
    && (t.handlers == s.handlers
        || (run < |s.rows| && CanTransition(s.rows[run].status, report.status)
            && t.handlers == s.handlers + [Handler(run, FromAgent(report), s.rows[run].status, Started)]))
  }

  lemma Begins(s: Server, run: nat, agent: nat, report: Report, pathOk: bool, now: int)
    ensures var (t, begun) := BeginReport(s, run, agent, report, pathOk, now);
            && BeginStep(s, t, run, report)
            && (begun.Opened? <==> |t.handlers| > |s.handlers|)
            && (begun.Echoed? ==> run < |s.rows| && s.rows[run].status == report.status)
  {
  }

  /** A move by the executor of `run`: its own entries, and perhaps a new report. */
  ghost predicate OwnMove(w: World, w': World, run: nat, report: Report) {
    && run in w.executors && w'.executors.Keys == w.executors.Keys
    && (forall r :: r in w.executors && r != run ==> w'.executors[r] == w.executors[r])
    && (forall r :: r != run ==> (r in w.objects <==> r in w'.objects))
    && (forall r :: r != run && r in w.objects ==> w'.objects[r] == w.objects[r])
    && (forall r :: r != run ==> (r in w.corrupted <==> r in w'.corrupted))
    && BeginStep(w.server, w'.server, run, report)
  }

  /** The report a move sends, if it sends one. */
  function Sent(hash: Hash, w: World, m: Move): Report
    requires !m.Other? && !m.ClaimRun? && m.run in w.executors
  {
    var e := w.executors[m.run];
    match m
    case Progress(_, read, _) => Report(Running, NO_OUTCOME.(bytesRead := read))
    case CancelEarly(_, _) => Report(Cancelled, NO_OUTCOME)
    case DropObject(_, _, _) => Report(Cancelled, NO_OUTCOME)
    case Fail(_, error, _) => Report(Failed, NO_OUTCOME.(errorMessage := error))
    case Put(_, _, _, _) => Report(Failed, NO_OUTCOME.(errorMessage := "upload failed"))
    case Head(_, found, _, _) =>
      Report(Failed, NO_OUTCOME.(errorMessage :=
        if !found || m.run !in w.objects then "verify failed: HEAD"
        else if |w.objects[m.run]| != |e.archive| then "verify failed: size mismatch"
        else "verify failed: checksum mismatch"))
    case Send(_, _, _) => Report(if e.phase.Reporting? then FinalStatus(e.phase.k) else Failed, FinalOutcome(hash, e))
    case _ => Report(Failed, NO_OUTCOME)
  }

  lemma LastReportMoves(w: World, run: nat, purge: bool, status: Status, error: string, p: Phase, now: int)
    requires run in w.executors
    ensures OwnMove(w, LastReport(w, run, purge, status, error, p, now), run,
              Report(status, NO_OUTCOME.(errorMessage := error)))
  {
    Begins(w.server, run, w.executors[run].agent, Report(status, NO_OUTCOME.(errorMessage := error)), true, now);
  }

  lemma StayingMoves(w: World, run: nat, report: Report)
    requires run in w.executors
    ensures OwnMove(w, w, run, report)
  {
  }

  lemma PutMoves(hash: Hash, w: World, run: nat, stored: Option<Content>, path: string, now: int)
    requires run in w.executors
    ensures OwnMove(w, PutObject(w, run, stored, path, now), run, Sent(hash, w, Put(run, stored, path, now)))
  {
    LastReportMoves(w, run, true, Failed, "upload failed", GaveUp, now);
  }

  lemma HeadMoves(hash: Hash, w: World, run: nat, found: bool, metadata: string, now: int)
    requires run in w.executors
    ensures OwnMove(w, HeadObject(hash, w, run, found, metadata, now), run,
              Sent(hash, w, Head(run, found, metadata, now)))
  {
    var error := Sent(hash, w, Head(run, found, metadata, now)).outcome.errorMessage;
    LastReportMoves(w, run, false, Failed, error, GaveUp, now);
    LastReportMoves(w, run, true, Failed, error, GaveUp, now);
  }

  lemma SendMoves(hash: Hash, w: World, run: nat, pathOk: bool, now: int)
    requires run in w.executors && w.executors[run].phase.Reporting?
    ensures OwnMove(w, SendReport(hash, w, run, pathOk, now), run, Sent(hash, w, Send(run, pathOk, now)))
  {
    Begins(w.server, run, w.executors[run].agent, Sent(hash, w, Send(run, pathOk, now)), pathOk, now);
  }

  lemma AgentMoves(hash: Hash, w: World, m: Move)
    requires !m.Other? && !m.ClaimRun? && m.run in w.executors
    ensures OwnMove(w, AgentMove(hash, w, m), m.run, Sent(hash, w, m))
  {
    StayingMoves(w, m.run, Sent(hash, w, m));
    var e := w.executors[m.run];
    match m {
      case Progress(run, read, now) => Begins(w.server, run, e.agent, Sent(hash, w, m), true, now);
      case CancelEarly(run, now) => LastReportMoves(w, run, false, Cancelled, "", GaveUp, now);
      case Fail(run, error, now) => LastReportMoves(w, run, false, Failed, error, GaveUp, now);
      case Put(run, stored, path, now) => PutMoves(hash, w, run, stored, path, now);
      case Head(run, found, metadata, now) => HeadMoves(hash, w, run, found, metadata, now);
      case Send(run, pathOk, now) =>
        if e.phase.Reporting? { SendMoves(hash, w, run, pathOk, now); }
      case DropObject(run, deleted, now) =>
        if e.phase.ToldToCancel? {
          LastReportMoves(w, run, deleted, Cancelled, "", Dropped(deleted, e.phase.k), now);
        }
      case _ =>
    }
  }

  /** Rows and requests of the run stay as promised: the closing outcome is fixed once
      it was sent, and a new closing request carries it. */
  lemma OwnRowsAndRequestsKept(hash: Hash, w: World, w': World, run: nat, report: Report)
    requires HandlersValid(w.server) && RunOk(hash, w, run) && OwnMove(w, w', run, report)
    requires FinalOutcome(hash, w'.executors[run]) == FinalOutcome(hash, w.executors[run]) || !ClosingSent(w, run)
    requires report.status.Uploading? || report.status.Verifying? || report.status.Completed? ==>
               report.outcome == FinalOutcome(hash, w'.executors[run])
    ensures HandlersValid(w'.server) && RowOk(hash, w', run)
    ensures forall h :: 0 <= h < |w'.server.handlers| && w'.server.handlers[h].run == run ==>
              RequestOk(hash, w', w'.server.handlers[h])
    ensures ClosingSent(w, run) ==> ClosingSent(w', run)
    ensures ClosingSent(w', run) ==>
              ClosingSent(w, run) || report.status.Uploading? || report.status.Verifying? || report.status.Completed?
  {
    assert ClosingSent(w, run) ==> ClosingSent(w', run) by {
      if h :| 0 <= h < |w.server.handlers| && Closing(w.server.handlers[h], run) {
        assert Closing(w'.server.handlers[h], run);
      }
    }
    if h :| 0 <= h < |w'.server.handlers| && Closing(w'.server.handlers[h], run) {
      if h < |w.server.handlers| {
        assert Closing(w.server.handlers[h], run);
      }
    }
    forall h | 0 <= h < |w'.server.handlers| && w'.server.handlers[h].run == run
      ensures RequestOk(hash, w', w'.server.handlers[h])
    {
      if h < |w.server.handlers| {
        assert RequestOk(hash, w, w.server.handlers[h]);
        assert !ClosingSent(w, run) ==> !Closing(w.server.handlers[h], run);
      }
    }
  }

  lemma OwnRunKept(hash: Hash, w: World, m: Move)
    requires HandlersValid(w.server) && !m.Other? && !m.ClaimRun? && m.run in w.executors
    requires RunOk(hash, w, m.run)
    ensures HandlersValid(AgentMove(hash, w, m).server)
    ensures RunOk(hash, AgentMove(hash, w, m), m.run)
  {
    var w' := AgentMove(hash, w, m);
    AgentMoves(hash, w, m);
    OwnRowsAndRequestsKept(hash, w, w', m.run, Sent(hash, w, m));
    OwnPhaseKept(hash, w, m);
  }

  /** Closing requests after a report that is not a closing one. */
  lemma ClosingsSame(w: World, w': World, run: nat, report: Report)
    requires BeginStep(w.server, w'.server, run, report)
    requires report.status.Running? || report.status.Failed? || report.status.Cancelled?
    ensures ClosingSent(w', run) == ClosingSent(w, run)
    ensures forall k: int :: Settled(w, run, k) ==> Settled(w', run, k)
  {
    if h :| 0 <= h < |w.server.handlers| && Closing(w.server.handlers[h], run) {
      assert Closing(w'.server.handlers[h], run);
    }
    if h :| 0 <= h < |w'.server.handlers| && Closing(w'.server.handlers[h], run) {
      assert Closing(w.server.handlers[h], run);
    }
  }

  lemma LastReportPhase(w: World, run: nat, purge: bool, status: Status, error: string, p: Phase, now: int)
    requires run in w.executors && ExecutorOk(w, run) && (status.Failed? || status.Cancelled?)
    requires if p.GaveUp? then !ClosingSent(w, run)
             else w.executors[run].phase.ToldToCancel? && p == Dropped(purge, w.executors[run].phase.k)
    ensures ExecutorOk(LastReport(w, run, purge, status, error, p, now), run)
  {
    var report := Report(status, NO_OUTCOME.(errorMessage := error));
    LastReportMoves(w, run, purge, status, error, p, now);
    ClosingsSame(w, LastReport(w, run, purge, status, error, p, now), run, report);
  }

  lemma ProgressPhase(hash: Hash, w: World, run: nat, read: nat, now: int)
    requires run in w.executors && ExecutorOk(w, run)
    ensures ExecutorOk(AgentMove(hash, w, Progress(run, read, now)), run)
  {
    var m := Progress(run, read, now);
    Begins(w.server, run, w.executors[run].agent, Sent(hash, w, m), true, now);
    if w.executors[run].phase.Producing? {
      ClosingsSame(w, AgentMove(hash, w, m), run, Sent(hash, w, m));
    }
  }

  lemma SendPhase(hash: Hash, w: World, run: nat, pathOk: bool, now: int)
    requires run in w.executors && ExecutorOk(w, run) && w.executors[run].phase.Reporting?
    ensures ExecutorOk(SendReport(hash, w, run, pathOk, now), run)
  {
    var w' := SendReport(hash, w, run, pathOk, now);
    var report := Sent(hash, w, Send(run, pathOk, now));
    Begins(w.server, run, w.executors[run].agent, report, pathOk, now);
    if w'.executors[run].phase.Awaiting? {
      var h := |w.server.handlers|;
      assert Closing(w'.server.handlers[h], run);
    }
  }

  lemma PutPhase(w: World, run: nat, stored: Option<Content>, path: string, now: int)
    requires run in w.executors && ExecutorOk(w, run) && w.executors[run].phase.Ready?
    ensures ExecutorOk(PutObject(w, run, stored, path, now), run)
  {
    if stored.None? {
      LastReportPhase(w, run, false, Failed, "upload failed", GaveUp, now);
    } else {
      var w' := PutObject(w, run, stored, path, now);
      assert ClosingSent(w', run) == ClosingSent(w, run);
    }
  }

  lemma HeadPhase(hash: Hash, w: World, run: nat, found: bool, metadata: string, now: int)
    requires run in w.executors && ExecutorOk(w, run) && w.executors[run].phase.Stored?
    ensures ExecutorOk(HeadObject(hash, w, run, found, metadata, now), run)
  {
    var error := Sent(hash, w, Head(run, found, metadata, now)).outcome.errorMessage;
    LastReportPhase(w, run, false, Failed, error, GaveUp, now);
    LastReportPhase(w, run, true, Failed, error, GaveUp, now);
  }

  lemma ReceivePhase(hash: Hash, w: World, run: nat, nudged: bool)
    requires run in w.executors && RunOk(hash, w, run) && w.executors[run].phase.Awaiting?
    ensures ExecutorOk(ReceiveReply(w, run, nudged), run)
  {
    var k, h := w.executors[run].phase.k, w.executors[run].phase.h;
    assert RequestOk(hash, w, w.server.handlers[h]);
    var w' := ReceiveReply(w, run, nudged);
    assert Settled(w, run, h);
    if w.server.handlers[h].state.Answered? {
      assert Settled(w', run, -1);
    }
  }

  lemma OwnPhaseKept(hash: Hash, w: World, m: Move)
    requires HandlersValid(w.server) && !m.Other? && !m.ClaimRun? && m.run in w.executors
    requires RunOk(hash, w, m.run)
    ensures ExecutorOk(AgentMove(hash, w, m), m.run)
  {
    var e := w.executors[m.run];
    match m {
      case Progress(run, read, now) => ProgressPhase(hash, w, run, read, now);
      case CancelEarly(run, now) =>
        if e.phase.Producing? || e.phase.Ready? { LastReportPhase(w, run, false, Cancelled, "", GaveUp, now); }
      case Fail(run, error, now) =>
        if e.phase.Producing? || e.phase.Ready? { LastReportPhase(w, run, false, Failed, error, GaveUp, now); }
      case Put(run, stored, path, now) =>
        if e.phase.Ready? { PutPhase(w, run, stored, path, now); }
      case Head(run, found, metadata, now) =>
        if e.phase.Stored? { HeadPhase(hash, w, run, found, metadata, now); }
      case Send(run, pathOk, now) =>
        if e.phase.Reporting? { SendPhase(hash, w, run, pathOk, now); }
      case Receive(run, nudged) =>
        if e.phase.Awaiting? { ReceivePhase(hash, w, run, nudged); }
      case DropObject(run, deleted, now) =>
        if e.phase.ToldToCancel? {
          LastReportPhase(w, run, deleted, Cancelled, "", Dropped(deleted, e.phase.k), now);
        }
      case Produce(_, _, _, _) =>
      case Abandon(_) =>
    }
  }

  lemma AgentKeeps(hash: Hash, w: World, m: Move)
    requires WorldOk(hash, w) && !m.Other? && !m.ClaimRun? && m.run in w.executors
    ensures WorldOk(hash, AgentMove(hash, w, m))
  {
    var w' := AgentMove(hash, w, m);
    assert RunOk(hash, w, m.run);
    OwnRunKept(hash, w, m);
    AgentMoves(hash, w, m);
    OthersUnmoved(hash, w, w', m.run, Sent(hash, w, m));
  }

  lemma OthersUnmoved(hash: Hash, w: World, w': World, run: nat, report: Report)
    requires WorldOk(hash, w) && OwnMove(w, w', run, report)
    requires HandlersValid(w'.server) && RunOk(hash, w', run)
    ensures WorldOk(hash, w')
  {
    forall r: nat ensures RunOk(hash, w', r) {
      assert RunOk(hash, w, r);
      if r != run {
        SameForKeeps(hash, w, w', r);
      }
    }
  }

  lemma NextKeeps(hash: Hash, w: World, m: Move)
    requires WorldOk(hash, w)
    ensures WorldOk(hash, Next(hash, w, m))
  {
    match m {
      case Other(l) =>
        if NotAnAgent(l) { OtherKeeps(hash, w, l); }
      case ClaimRun(run, agent, delivered, now) => ClaimKeeps(hash, w, run, agent, delivered, now);
      case _ =>
        if m.run in w.executors { AgentKeeps(hash, w, m); }
    }
  }

  lemma {:induction false} ReachableWorldsAreOk(hash: Hash, ms: seq<Move>)
    ensures WorldOk(hash, Run(hash, ms))
  {
    if ms != [] {
      ReachableWorldsAreOk(hash, ms[..|ms| - 1]);
      NextKeeps(hash, Run(hash, ms[..|ms| - 1]), ms[|ms| - 1]);
    }
  }

  // ----- The main results -----

  /** In every reachable state of agents, server and store: a run recorded COMPLETED
      for which no cancel was requested still has its object, of exactly the recorded
      size, and (if the store kept what it was given) hashing to the recorded checksum. */
  lemma CompletedRunHasItsObject(hash: Hash, ms: seq<Move>, r: nat)
    requires var w := Run(hash, ms);
             r < |w.server.rows| && w.server.rows[r].status.Completed? && !w.server.rows[r].cancelRequested
    ensures var w := Run(hash, ms);
            && r in w.objects
            && |w.objects[r]| == w.server.rows[r].outcome.bytesUploaded
            && (r !in w.corrupted ==> hash(w.objects[r]) == w.server.rows[r].outcome.checksum)
  {
    ReachableWorldsAreOk(hash, ms);
    assert RunOk(hash, Run(hash, ms), r);
  }
}
