/**
 When a cancel costs a finished backup its object. A run may be recorded COMPLETED
 although a user cancelled it, and the executor, told of the cancel, then deletes
 the object. This happens to the cancels of one window of a run's life, and of no
 other: after its VERIFYING report was answered and before its COMPLETED report was
 written.
 */
module CancelWindow {
  import opened Common
  import opened BackupRun
  import opened RunServer
  import opened RunProtocol

  // ----- The window -----

  predicate IsRequest(hd: Handler, r: nat, st: Status) {
    hd.run == r && hd.source.FromAgent? && hd.source.report.status == st
  }

  ghost predicate Requested(s: Server, r: nat, st: Status) {
    exists h :: 0 <= h < |s.handlers| && IsRequest(s.handlers[h], r, st)
  }

  /** The VERIFYING report of run r was accepted, and its answer said to go on. */
  ghost predicate VerifyingAnswered(s: Server, r: nat) {
    exists h :: 0 <= h < |s.handlers| && IsRequest(s.handlers[h], r, Verifying)
        && s.handlers[h].state == Answered(false)
  }

  /** Run r is VERIFYING and its executor need not look at the cancel flag again
      until COMPLETED is answered. */
  ghost predicate InWindow(w: World, r: nat) {
    r < |w.server.rows| && w.server.rows[r].status.Verifying? && VerifyingAnswered(w.server, r)
  }

  /** Move k of a run of the system was a cancel of r inside the window. */
  ghost predicate CancelledInWindow(hash: Hash, ms: seq<Move>, r: nat, k: nat) {
    && k < |ms| && ms[k].Other? && ms[k].l.LCancel? && ms[k].l.run == r
    && InWindow(RunProtocol.Run(hash, ms[..k]), r)
  }

  /** A run recorded COMPLETED without its object. */
  predicate Lost(w: World, r: nat) {
    r < |w.server.rows| && w.server.rows[r].status.Completed? && r !in w.objects
  }

  // ----- What the requests of a run say of its past -----

  /** h is the only request of run r for this status (none is, if h is no request). */
  ghost predicate OnlyRequest(s: Server, r: nat, st: Status, h: int) {
    forall i :: 0 <= i < |s.handlers| && IsRequest(s.handlers[i], r, st) ==> i == h
  }

  predicate Late(st: Status) {
    st.Verifying? || Terminal(st)
  }

  ghost predicate RequestPastOk(s: Server, r: nat, hd: Handler) {
    && (IsRequest(hd, r, Verifying) && (hd.state.Written? || hd.state.Answered?) ==>
          r < |s.rows| && Late(s.rows[r].status))
    && (IsRequest(hd, r, Completed) && hd.state.Refused? ==> r < |s.rows| && Terminal(s.rows[r].status))
  }

  ghost predicate PhasePastOk(w: World, r: nat)
    requires r in w.executors
  {
    match w.executors[r].phase
    case Reporting(k) =>
      if k == 2 then VerifyingAnswered(w.server, r) else OnlyRequest(w.server, r, Verifying, -1)
    case Awaiting(k, h) =>
      if k == 0 then OnlyRequest(w.server, r, Verifying, -1)
      else k == 1 ==> OnlyRequest(w.server, r, Verifying, h)
    case _ => true
  }

  ghost predicate PastOk(w: World, r: nat) {
    && (forall h :: 0 <= h < |w.server.handlers| ==> RequestPastOk(w.server, r, w.server.handlers[h]))
    && (Requested(w.server, r, Completed) ==> VerifyingAnswered(w.server, r))
    && (r < |w.server.rows| && w.server.rows[r].status.Completed? ==> Requested(w.server, r, Completed))
    && (r in w.executors ==> PhasePastOk(w, r))
  }

  // ----- Steps of the others -----

  /** Requests keep what they ask, and an answer given is not taken back. */
  ghost predicate RequestsStay(s: Server, t: Server) {
    && |s.handlers| <= |t.handlers|
    && (forall h :: 0 <= h < |s.handlers| ==>
         && t.handlers[h].run == s.handlers[h].run && t.handlers[h].source == s.handlers[h].source
         && (s.handlers[h].state.Answered? ==> t.handlers[h].state == s.handlers[h].state))
    && (forall h :: |s.handlers| <= h < |t.handlers| ==> !t.handlers[h].source.FromAgent?)
  }

  lemma StepStays(s: Server, l: Label)
    requires NotAnAgent(l)
    ensures RequestsStay(s, Step(s, l))
  {
    if Advances(l) {
      ProgressStays(s, l);
    } else {
      OthersOpen(s, l);
    }
  }

  /** Steps that take an open request further. */
  lemma ProgressStays(s: Server, l: Label)
    requires Advances(l)
    ensures RequestsStay(s, Step(s, l))
  {
    AdvancesOne(s, l);
  }

  lemma StayingRequests(s: Server, t: Server, r: nat, st: Status)
    requires RequestsStay(s, t)
    ensures Requested(s, r, st) <==> Requested(t, r, st)
    ensures VerifyingAnswered(s, r) ==> VerifyingAnswered(t, r)
    ensures forall h :: OnlyRequest(s, r, st, h) ==> OnlyRequest(t, r, st, h)
  {
    if h :| 0 <= h < |s.handlers| && IsRequest(s.handlers[h], r, st) {
      assert IsRequest(t.handlers[h], r, st);
    }
    if h :| 0 <= h < |t.handlers| && IsRequest(t.handlers[h], r, st) {
      assert IsRequest(s.handlers[h], r, st);
    }
    if h :| 0 <= h < |s.handlers| && IsRequest(s.handlers[h], r, Verifying) && s.handlers[h].state == Answered(false) {
      assert IsRequest(t.handlers[h], r, Verifying) && t.handlers[h].state == Answered(false);
    }
  }

  lemma OthersRequestPast(w: World, t: Server, r: nat, h: nat)
    requires h < |t.handlers| && h < |w.server.handlers| && OthersStep(w.server, t, r)
    requires HandlersValid(w.server) && RequestPastOk(w.server, r, w.server.handlers[h])
    requires Requested(w.server, r, Completed) ==> r < |w.server.rows| && Late(w.server.rows[r].status)
    ensures RequestPastOk(t, r, t.handlers[h])
  {
    assert HandlerValid(w.server.handlers[h], |w.server.rows|);
    assert r < |w.server.rows| ==> RowStep(w.server.rows[r], t.rows[r]);
    if IsRequest(t.handlers[h], r, Completed) {
      assert IsRequest(w.server.handlers[h], r, Completed);
    }
  }

  /** Once VERIFYING was answered the run is VERIFYING or finished. */
  lemma AnsweredIsLate(w: World, r: nat)
    requires PastOk(w, r) && VerifyingAnswered(w.server, r)
    ensures r < |w.server.rows| && Late(w.server.rows[r].status)
  {
    var h :| 0 <= h < |w.server.handlers| && IsRequest(w.server.handlers[h], r, Verifying)
             && w.server.handlers[h].state == Answered(false);
    assert RequestPastOk(w.server, r, w.server.handlers[h]);
  }

  lemma OthersPast(w: World, t: Server, r: nat)
    requires HandlersValid(w.server) && PastOk(w, r) && OthersStep(w.server, t, r) && RequestsStay(w.server, t)
    ensures PastOk(w.(server := t), r)
  {
    StayingRequests(w.server, t, r, Completed);
    StayingRequests(w.server, t, r, Verifying);
    if Requested(w.server, r, Completed) {
      AnsweredIsLate(w, r);
    }
    forall h | 0 <= h < |t.handlers| ensures RequestPastOk(t, r, t.handlers[h]) {
      if h < |w.server.handlers| {
        OthersRequestPast(w, t, r, h);
      }
    }
    if r < |t.rows| && t.rows[r].status.Completed? && !(r < |w.server.rows| && w.server.rows[r].status.Completed?) {
      var h: nat :| Decided(w.server, t, h, r);
      assert IsRequest(t.handlers[h], r, Completed);
    }
  }

  // ----- Steps of one agent -----

  /** A step that may open one request of this run, not yet written. */
  ghost predicate Opens(s: Server, t: Server, r: nat, report: Report) {
    && (r < |s.rows| <==> r < |t.rows|)
    && (r < |s.rows| ==>
         t.rows[r].status == s.rows[r].status && t.rows[r].cancelRequested == s.rows[r].cancelRequested)
    && s.handlers <= t.handlers
    && (forall h :: |s.handlers| <= h < |t.handlers| ==>
         t.handlers[h].state.Started? && (t.handlers[h].run == r ==> t.handlers[h].source == FromAgent(report)))
  }

  lemma OpeningRequests(s: Server, t: Server, r: nat, report: Report)
    requires Opens(s, t, r, report)
    ensures forall st :: Requested(t, r, st) ==> Requested(s, r, st) || st == report.status
    ensures forall st :: Requested(s, r, st) ==> Requested(t, r, st)
    ensures VerifyingAnswered(s, r) <==> VerifyingAnswered(t, r)
    ensures forall h, st :: OnlyRequest(s, r, st, h) && report.status != st ==> OnlyRequest(t, r, st, h)
  {
    forall st | Requested(s, r, st) ensures Requested(t, r, st) {
      var h :| 0 <= h < |s.handlers| && IsRequest(s.handlers[h], r, st);
      assert IsRequest(t.handlers[h], r, st);
    }
    forall st | Requested(t, r, st) && st != report.status ensures Requested(s, r, st) {
      var h :| 0 <= h < |t.handlers| && IsRequest(t.handlers[h], r, st);
      assert IsRequest(s.handlers[h], r, st);
    }
    if h :| 0 <= h < |s.handlers| && IsRequest(s.handlers[h], r, Verifying) && s.handlers[h].state == Answered(false) {
      assert IsRequest(t.handlers[h], r, Verifying) && t.handlers[h].state == Answered(false);
    }
    if h :| 0 <= h < |t.handlers| && IsRequest(t.handlers[h], r, Verifying) && t.handlers[h].state == Answered(false) {
      assert IsRequest(s.handlers[h], r, Verifying) && s.handlers[h].state == Answered(false);
    }
  }

  /** A step of this run that leaves its past in order, apart from the executor's phase. */
  lemma OpeningPast(w: World, w': World, r: nat, report: Report)
    requires PastOk(w, r) && Opens(w.server, w'.server, r, report)
    requires report.status.Completed? ==> VerifyingAnswered(w.server, r)
    requires r in w'.executors ==> PhasePastOk(w', r)
    ensures PastOk(w', r)
  {
    OpeningRequests(w.server, w'.server, r, report);
    forall h | 0 <= h < |w'.server.handlers| ensures RequestPastOk(w'.server, r, w'.server.handlers[h]) {
      if h < |w.server.handlers| {
        assert RequestPastOk(w.server, r, w.server.handlers[h]);
      }
    }
  }

  /** Steps of one run do not concern another. */
  lemma ElsewherePast(w: World, w': World, r: nat, report: Report)
    requires PastOk(w, r) && Opens(w.server, w'.server, r, report) && !report.status.Completed?
               && !report.status.Verifying?
    requires r in w'.executors ==> r in w.executors && w'.executors[r] == w.executors[r]
    ensures PastOk(w', r)
  {
    OpeningRequests(w.server, w'.server, r, report);
    OpeningPast(w, w', r, report);
  }

  lemma OwnOpens(w: World, w': World, run: nat, report: Report)
    requires OwnMove(w, w', run, report)
    ensures Opens(w.server, w'.server, run, report)
    ensures forall r: nat :: r != run ==> Opens(w.server, w'.server, r, Report(Failed, NO_OUTCOME))
  {
  }

  /** How a closing phase is entered, by the move of its own executor. */
  lemma PhaseComesFrom(hash: Hash, w: World, m: Move)
    requires !m.Other? && !m.ClaimRun? && m.run in w.executors
    requires RunOk(hash, w, m.run) && HandlersValid(w.server)
    ensures var w' := AgentMove(hash, w, m);
            var p, p' := w.executors[m.run].phase, w'.executors[m.run].phase;
            || (p' == p && (m.Send? ==> !p.Reporting?))
            || (!p'.Reporting? && !p'.Awaiting? && (m.Send? ==> p.Reporting?))
            || (p.Stored? && p' == Reporting(0) && w'.server == w.server && !ClosingSent(w, m.run))
            || (m.Send? && p.Reporting? && p' == Awaiting(p.k, |w.server.handlers|))
            || (m.Receive? && p.Awaiting? && p.k < 2 && p' == Reporting(p.k + 1) && w'.server == w.server
                && p.h < |w.server.handlers| && w.server.handlers[p.h].state == Answered(false))
  {
    var run, e := m.run, w.executors[m.run];
    if m.Send? && e.phase.Reporting? {
      Begins(w.server, run, e.agent, Sent(hash, w, m), m.pathOk, m.now);
    }
  }

  lemma OwnPhasePast(hash: Hash, w: World, m: Move)
    requires !m.Other? && !m.ClaimRun? && m.run in w.executors
    requires RunOk(hash, w, m.run) && HandlersValid(w.server) && PastOk(w, m.run)
    ensures PhasePastOk(AgentMove(hash, w, m), m.run)
  {
    var run, w' := m.run, AgentMove(hash, w, m);
    PhaseComesFrom(hash, w, m);
    AgentMoves(hash, w, m);
    OwnOpens(w, w', run, Sent(hash, w, m));
    OpeningRequests(w.server, w'.server, run, Sent(hash, w, m));
    var p := w.executors[run].phase;
    if p.Stored? && w'.executors[run].phase == Reporting(0) {
      NoneClosing(w, run);
    } else if m.Receive? && p.Awaiting? && p.k == 1 && w'.executors[run].phase == Reporting(2) {
      assert IsRequest(w.server.handlers[p.h], run, Verifying);
    } else if m.Send? && p == Reporting(1) && w'.executors[run].phase.Awaiting? {
      OneMore(w.server, w'.server, run, Sent(hash, w, m));
    }
  }

  lemma NoneClosing(w: World, r: nat)
    requires !ClosingSent(w, r)
    ensures OnlyRequest(w.server, r, Verifying, -1)
  {
    forall h | 0 <= h < |w.server.handlers| ensures !IsRequest(w.server.handlers[h], r, Verifying) {
      assert !Closing(w.server.handlers[h], r);
    }
  }

  lemma OneMore(s: Server, t: Server, r: nat, report: Report)
    requires BeginStep(s, t, r, report) && OnlyRequest(s, r, Verifying, -1)
    ensures OnlyRequest(t, r, Verifying, |s.handlers|)
  {
  }

  lemma OwnPast(hash: Hash, w: World, m: Move)
    requires !m.Other? && !m.ClaimRun? && m.run in w.executors
    requires RunOk(hash, w, m.run) && HandlersValid(w.server) && PastOk(w, m.run)
    ensures PastOk(AgentMove(hash, w, m), m.run)
  {
    OwnPhasePast(hash, w, m);
    AgentMoves(hash, w, m);
    OwnOpens(w, AgentMove(hash, w, m), m.run, Sent(hash, w, m));
    OpeningPast(w, AgentMove(hash, w, m), m.run, Sent(hash, w, m));
  }

  lemma ClaimPast(hash: Hash, w: World, run: nat, agent: nat, delivered: bool, now: int, r: nat)
    requires PastOk(w, r)
    ensures PastOk(Next(hash, w, ClaimRun(run, agent, delivered, now)), r)
  {
    var w' := Next(hash, w, ClaimRun(run, agent, delivered, now));
    assert w'.server.handlers == w.server.handlers;
    forall h | 0 <= h < |w.server.handlers| ensures RequestPastOk(w'.server, r, w.server.handlers[h]) {
      assert RequestPastOk(w.server, r, w.server.handlers[h]);
    }
  }

  lemma NextPast(hash: Hash, w: World, m: Move, r: nat)
    requires WorldOk(hash, w) && PastOk(w, r)
    ensures PastOk(Next(hash, w, m), r)
  {
    assert RunOk(hash, w, r);
    if m.Other? {
      if NotAnAgent(m.l) {
        OthersDo(w.server, m.l, r);
        StepStays(w.server, m.l);
        OthersPast(w, Step(w.server, m.l), r);
      }
    } else if m.ClaimRun? {
      ClaimPast(hash, w, m.run, m.agent, m.delivered, m.now, r);
    } else if m.run in w.executors {
      if m.run == r {
        OwnPast(hash, w, m);
      } else {
        AgentMoves(hash, w, m);
        OwnOpens(w, AgentMove(hash, w, m), m.run, Sent(hash, w, m));
        ElsewherePast(w, AgentMove(hash, w, m), r, Report(Failed, NO_OUTCOME));
      }
    }
  }

  lemma {:induction false} ReachablePast(hash: Hash, ms: seq<Move>, r: nat)
    ensures PastOk(RunProtocol.Run(hash, ms), r)
  {
    if ms != [] {
      ReachablePast(hash, ms[..|ms| - 1], r);
      ReachableWorldsAreOk(hash, ms[..|ms| - 1]);
      NextPast(hash, RunProtocol.Run(hash, ms[..|ms| - 1]), ms[|ms| - 1], r);
    }
  }

  // ----- Which cancels come too late -----

  /** Nobody but a cancel of r raises its flag. */
  lemma FlagIsRaisedByCancel(s: Server, l: Label, r: nat)
    requires !(l.LCancel? && l.run == r)
    requires r < |Step(s, l).rows| && Step(s, l).rows[r].cancelRequested
    ensures r < |s.rows| && s.rows[r].cancelRequested
  {
    if Advances(l) {
      ProgressFlagsNobody(s, l, r);
    }
  }

  lemma ProgressFlagsNobody(s: Server, l: Label, r: nat)
    requires Advances(l)
    requires r < |Step(s, l).rows| && Step(s, l).rows[r].cancelRequested
    ensures r < |s.rows| && s.rows[r].cancelRequested
  {
  }

  /** A run that is flagged gets no answer to go on. */
  lemma FlaggedGetsNoGo(s: Server, t: Server, r: nat)
    requires OthersStep(s, t, r) && RequestsStay(s, t)
    requires r < |t.rows| && t.rows[r].cancelRequested && VerifyingAnswered(t, r)
    ensures VerifyingAnswered(s, r)
  {
    var h :| 0 <= h < |t.handlers| && IsRequest(t.handlers[h], r, Verifying) && t.handlers[h].state == Answered(false);
    assert IsRequest(s.handlers[h], r, Verifying);
  }

  /** The step that makes both true of run r, its flag and an answer to go on, is a
      cancel in the window. */
  lemma FlagAndAnswer(hash: Hash, w: World, m: Move, r: nat)
    requires WorldOk(hash, w) && PastOk(w, r)
    requires CancelFlag(Next(hash, w, m), r) && VerifyingAnswered(Next(hash, w, m).server, r)
    ensures || (CancelFlag(w, r) && VerifyingAnswered(w.server, r))
            || (m.Other? && m.l.LCancel? && m.l.run == r && InWindow(w, r))
  {
    if m.Other? {
      if NotAnAgent(m.l) {
        OthersDo(w.server, m.l, r);
        StepStays(w.server, m.l);
        FlaggedGetsNoGo(w.server, Step(w.server, m.l), r);
        AnsweredIsLate(w, r);
        if !(m.l.LCancel? && m.l.run == r) {
          FlagIsRaisedByCancel(w.server, m.l, r);
        }
      }
    } else if m.ClaimRun? {
      assert Next(hash, w, m).server.handlers == w.server.handlers;
    } else if m.run in w.executors {
      AgentMoves(hash, w, m);
      OwnOpens(w, AgentMove(hash, w, m), m.run, Sent(hash, w, m));
      var report := if m.run == r then Sent(hash, w, m) else Report(Failed, NO_OUTCOME);
      OpeningRequests(w.server, AgentMove(hash, w, m).server, r, report);
    }
  }

  lemma {:induction false} FlagAfterAnswer(hash: Hash, ms: seq<Move>, r: nat) returns (k: nat)
    requires CancelFlag(RunProtocol.Run(hash, ms), r) && VerifyingAnswered(RunProtocol.Run(hash, ms).server, r)
    ensures CancelledInWindow(hash, ms, r, k)
  {
    if ms == [] {
      assert false;
    } else {
      var n := |ms| - 1;
      var w := RunProtocol.Run(hash, ms[..n]);
      ReachablePast(hash, ms[..n], r);
      ReachableWorldsAreOk(hash, ms[..n]);
      FlagAndAnswer(hash, w, ms[n], r);
      if CancelFlag(w, r) && VerifyingAnswered(w.server, r) {
        k := FlagAfterAnswer(hash, ms[..n], r);
        assert ms[..n][..k] == ms[..k];
      } else {
        k := n;
      }
    }
  }

  /** A request to cancel is never withdrawn. */
  lemma FlagStays(hash: Hash, w: World, m: Move, r: nat)
    requires WorldOk(hash, w) && CancelFlag(w, r)
    ensures CancelFlag(Next(hash, w, m), r)
  {
    if m.Other? {
      if NotAnAgent(m.l) { OthersDo(w.server, m.l, r); }
    } else if !m.ClaimRun? && m.run in w.executors {
      AgentMoves(hash, w, m);
      OwnOpens(w, AgentMove(hash, w, m), m.run, Sent(hash, w, m));
    }
  }

  lemma {:induction false} CancelInWindowFlags(hash: Hash, ms: seq<Move>, r: nat, k: nat)
    requires CancelledInWindow(hash, ms, r, k)
    ensures CancelFlag(RunProtocol.Run(hash, ms), r)
  {
    var n := |ms| - 1;
    ReachableWorldsAreOk(hash, ms[..n]);
    if k < n {
      assert ms[..n][..k] == ms[..k];
      CancelInWindowFlags(hash, ms[..n], r, k);
      FlagStays(hash, RunProtocol.Run(hash, ms[..n]), ms[n], r);
    }
  }

  /** In every reachable state: a COMPLETED run has a cancel request exactly if one
      of the moves so far was a cancel of it inside the window. */
  lemma CompletedRunWasCancelledIff(hash: Hash, ms: seq<Move>, r: nat)
    requires var w := RunProtocol.Run(hash, ms);
             r < |w.server.rows| && w.server.rows[r].status.Completed?
    ensures RunProtocol.Run(hash, ms).server.rows[r].cancelRequested <==>
              exists k: nat :: CancelledInWindow(hash, ms, r, k)
  {
    if RunProtocol.Run(hash, ms).server.rows[r].cancelRequested {
      ReachablePast(hash, ms, r);
      var k := FlagAfterAnswer(hash, ms, r);
    } else if k: nat :| CancelledInWindow(hash, ms, r, k) {
      CancelInWindowFlags(hash, ms, r, k);
    }
  }

  /** In every reachable state: the object of a COMPLETED run is missing only if a
      cancel came inside the window; and it is missing exactly then, once its
      executor heard its last answer and its delete, if it was told to, went through. */
  lemma CompletedRunLosesItsObjectIff(hash: Hash, ms: seq<Move>, r: nat)
    requires var w := RunProtocol.Run(hash, ms);
             r < |w.server.rows| && w.server.rows[r].status.Completed?
    ensures var w := RunProtocol.Run(hash, ms);
            && r in w.executors
            && (Lost(w, r) ==> exists k: nat :: CancelledInWindow(hash, ms, r, k))
            && (w.executors[r].phase.Succeeded? || (w.executors[r].phase.Dropped? && w.executors[r].phase.deleted) ==>
                  (Lost(w, r) <==> exists k: nat :: CancelledInWindow(hash, ms, r, k)))
  {
    ReachableWorldsAreOk(hash, ms);
    assert RunOk(hash, RunProtocol.Run(hash, ms), r);
    CompletedRunWasCancelledIff(hash, ms, r);
  }

  // ----- Every cancel in the window can cost the object -----

  function Play(hash: Hash, w: World, ms: seq<Move>): World
    decreases |ms|
  {
    if ms == [] then w else Play(hash, Next(hash, w, ms[0]), ms[1..])
  }

  lemma {:induction false} PlayContinues(hash: Hash, ms: seq<Move>, more: seq<Move>)
    ensures RunProtocol.Run(hash, ms + more) == Play(hash, RunProtocol.Run(hash, ms), more)
    decreases |more|
  {
    if more == [] {
      assert ms + more == ms;
    } else {
      assert (ms + [more[0]])[..|ms|] == ms;
      assert ms + more == ms + [more[0]] + more[1..];
      PlayContinues(hash, ms + [more[0]], more[1..]);
    }
  }

  lemma PlayOne(hash: Hash, w: World, m: Move, ms: seq<Move>)
    ensures Play(hash, w, [m] + ms) == Play(hash, Next(hash, w, m), ms)
  {
    assert ([m] + ms)[1..] == ms;
  }

  /** The executor is alive and between two of its closing reports. */
  predicate Listening(w: World, r: nat) {
    r in w.executors && (w.executors[r].phase.Reporting? || w.executors[r].phase.Awaiting?)
  }

  /** Where a listening executor stands inside the window. */
  lemma WindowPhases(hash: Hash, w: World, r: nat)
    requires HandlersValid(w.server) && RunOk(hash, w, r) && PastOk(w, r) && InWindow(w, r) && Listening(w, r)
    ensures var p := w.executors[r].phase;
            || p == Reporting(2)
            || (p.Awaiting? && p.k == 1 && p.h < |w.server.handlers| && w.server.handlers[p.h].state == Answered(false))
            || (p.Awaiting? && p.k == 2 && p.h < |w.server.handlers| && w.server.handlers[p.h].state.Started?)
  {
    var p := w.executors[r].phase;
    var v :| 0 <= v < |w.server.handlers| && IsRequest(w.server.handlers[v], r, Verifying)
             && w.server.handlers[v].state == Answered(false);
    if p.Awaiting? && p.k == 2 {
      assert RequestPastOk(w.server, r, w.server.handlers[p.h]);
      assert HandlerValid(w.server.handlers[p.h], |w.server.rows|);
    }
  }

  /** A COMPLETED run whose executor is about to hear of a cancel. */
  lemma LosesWhenAnswered(hash: Hash, w: World, r: nat, now: int) returns (ms: seq<Move>)
    requires r < |w.server.rows| && w.server.rows[r].status.Completed?
    requires r in w.executors && w.executors[r].phase.Awaiting? && w.executors[r].phase.k == 2
    requires w.executors[r].phase.h < |w.server.handlers|
    requires w.server.handlers[w.executors[r].phase.h].state == Answered(true)
    ensures Lost(Play(hash, w, ms), r)
  {
    var w1 := Next(hash, w, Receive(r, false));
    assert w1.executors[r].phase == ToldToCancel(2);
    Begins(w1.server, r, w1.executors[r].agent, Report(Cancelled, NO_OUTCOME), true, now);
    assert Lost(Next(hash, w1, DropObject(r, true, now)), r);
    PlayOne(hash, w1, DropObject(r, true, now), []);
    ms := [DropObject(r, true, now)];
    PlayOne(hash, w, Receive(r, false), ms);
    ms := [Receive(r, false)] + ms;
  }

  /** A flagged run whose COMPLETED report is under way. */
  lemma LosesWhileAwaiting(hash: Hash, w: World, r: nat, now: int) returns (ms: seq<Move>)
    requires WorldOk(hash, w) && CancelFlag(w, r) && w.server.rows[r].status.Verifying?
    requires r in w.executors && w.executors[r].phase.Awaiting? && w.executors[r].phase.k == 2
    requires w.executors[r].phase.h < |w.server.handlers| && w.server.handlers[w.executors[r].phase.h].state.Started?
    ensures Lost(Play(hash, w, ms), r)
  {
    assert RunOk(hash, w, r);
    var h := w.executors[r].phase.h;
    assert HandlerValid(w.server.handlers[h], |w.server.rows|);
    var w1 := Next(hash, w, Other(LCommit(h, now)));
    assert w1.server.rows[r].status.Completed? && CancelFlag(w1, r) && w1.server.handlers[h].state.Written?;
    var w2 := Next(hash, w1, Other(LReread(h)));
    assert w2.server.handlers[h].state == Answered(true) && w2.server.rows == w1.server.rows;
    ms := LosesWhenAnswered(hash, w2, r, now);
    PlayOne(hash, w1, Other(LReread(h)), ms);
    ms := [Other(LReread(h))] + ms;
    PlayOne(hash, w, Other(LCommit(h, now)), ms);
    ms := [Other(LCommit(h, now))] + ms;
  }

  /** A flagged run whose executor is about to report COMPLETED. */
  lemma LosesWhileReporting(hash: Hash, w: World, r: nat, now: int) returns (ms: seq<Move>)
    requires WorldOk(hash, w) && CancelFlag(w, r) && w.server.rows[r].status.Verifying?
    requires r in w.executors && w.executors[r].phase == Reporting(2)
    ensures Lost(Play(hash, w, ms), r)
  {
    assert RunOk(hash, w, r);
    var w1 := Next(hash, w, Send(r, true, now));
    NextKeeps(hash, w, Send(r, true, now));
    ms := LosesWhileAwaiting(hash, w1, r, now);
    PlayOne(hash, w, Send(r, true, now), ms);
    ms := [Send(r, true, now)] + ms;
  }

  /** A flagged run inside the window. */
  lemma LosesWhileListening(hash: Hash, w: World, r: nat, now: int) returns (ms: seq<Move>)
    requires WorldOk(hash, w) && PastOk(w, r) && InWindow(w, r) && CancelFlag(w, r) && Listening(w, r)
    ensures Lost(Play(hash, w, ms), r)
  {
    assert RunOk(hash, w, r);
    WindowPhases(hash, w, r);
    if w.executors[r].phase == Reporting(2) {
      ms := LosesWhileReporting(hash, w, r, now);
    } else if w.executors[r].phase.k == 2 {
      ms := LosesWhileAwaiting(hash, w, r, now);
    } else {
      var w1 := Next(hash, w, Receive(r, false));
      NextKeeps(hash, w, Receive(r, false));
      ms := LosesWhileReporting(hash, w1, r, now);
      PlayOne(hash, w, Receive(r, false), ms);
      ms := [Receive(r, false)] + ms;
    }
  }

  /** A cancel inside the window only raises the flag. */
  lemma CancelInWindow(hash: Hash, w: World, r: nat, now: int)
    requires InWindow(w, r)
    ensures var w' := Next(hash, w, Other(LCancel(r, now)));
            InWindow(w', r) && CancelFlag(w', r) && w'.executors == w.executors
  {
    var w' := Next(hash, w, Other(LCancel(r, now)));
    assert w'.server.handlers == w.server.handlers;
  }

  /** The executor cannot come to delete the object of a COMPLETED run any more. */
  predicate Past(p: Phase) {
    p.GaveUp? || p.Succeeded? || ((p.ToldToCancel? || p.Dropped?) && p.k != 2)
  }

  lemma PastStays(hash: Hash, w: World, m: Move, r: nat)
    requires WorldOk(hash, w) && r in w.executors && Past(w.executors[r].phase)
    ensures r in Next(hash, w, m).executors && Past(Next(hash, w, m).executors[r].phase)
  {
    assert RunOk(hash, w, r);
    if !m.Other? && !m.ClaimRun? && m.run in w.executors {
      if m.run != r {
        AgentMoves(hash, w, m);
      }
    }
  }

  lemma {:induction false} PastNeverLoses(hash: Hash, w: World, ms: seq<Move>, r: nat)
    requires WorldOk(hash, w) && r in w.executors && Past(w.executors[r].phase)
    ensures !Lost(Play(hash, w, ms), r)
    decreases |ms|
  {
    if ms == [] {
      assert RunOk(hash, w, r);
    } else {
      NextKeeps(hash, w, ms[0]);
      PastStays(hash, w, ms[0], r);
      PastNeverLoses(hash, Next(hash, w, ms[0]), ms[1..], r);
    }
  }

  /** From every state inside the window the object can be lost if and only if the
      executor is still listening, and then a cancel in that very state can be what
      costs it. */
  lemma WindowLosesTheObjectIff(hash: Hash, ms: seq<Move>, r: nat, now: int)
    requires InWindow(RunProtocol.Run(hash, ms), r)
    ensures Listening(RunProtocol.Run(hash, ms), r) <==>
              exists more :: Lost(RunProtocol.Run(hash, ms + more), r)
    ensures Listening(RunProtocol.Run(hash, ms), r) ==>
              exists more :: Lost(RunProtocol.Run(hash, ms + ([Other(LCancel(r, now))] + more)), r)
  {
    var w := RunProtocol.Run(hash, ms);
    ReachableWorldsAreOk(hash, ms);
    ReachablePast(hash, ms, r);
    if Listening(w, r) {
      var more := LosesAfterCancel(hash, w, r, now);
      PlayContinues(hash, ms, [Other(LCancel(r, now))] + more);
    } else {
      forall more ensures !Lost(RunProtocol.Run(hash, ms + more), r) {
        PlayContinues(hash, ms, more);
        SilentNeverLoses(hash, w, more, r);
      }
    }
  }

  lemma LosesAfterCancel(hash: Hash, w: World, r: nat, now: int) returns (more: seq<Move>)
    requires WorldOk(hash, w) && PastOk(w, r) && InWindow(w, r) && Listening(w, r)
    ensures Lost(Play(hash, w, [Other(LCancel(r, now))] + more), r)
  {
    NextKeeps(hash, w, Other(LCancel(r, now)));
    NextPast(hash, w, Other(LCancel(r, now)), r);
    CancelInWindow(hash, w, r, now);
    more := LosesWhileListening(hash, Next(hash, w, Other(LCancel(r, now))), r, now);
    PlayOne(hash, w, Other(LCancel(r, now)), more);
  }

  lemma SilentNeverLoses(hash: Hash, w: World, more: seq<Move>, r: nat)
    requires WorldOk(hash, w) && PastOk(w, r) && InWindow(w, r) && !Listening(w, r)
    ensures !Lost(Play(hash, w, more), r)
  {
    assert RunOk(hash, w, r);
    var v :| 0 <= v < |w.server.handlers| && IsRequest(w.server.handlers[v], r, Verifying)
             && w.server.handlers[v].state == Answered(false);
    assert RequestOk(hash, w, w.server.handlers[v]);
    PastNeverLoses(hash, w, more, r);
  }

  // ----- A concrete run that loses its object -----

  ghost predicate Reachable(hash: Hash, w: World) {
    exists ms :: RunProtocol.Run(hash, ms) == w
  }

  lemma ReachableNext(hash: Hash, w: World, m: Move)
    requires Reachable(hash, w)
    ensures Reachable(hash, Next(hash, w, m))
  {
    var ms :| RunProtocol.Run(hash, ms) == w;
    assert (ms + [m])[..|ms|] == ms;
    assert RunProtocol.Run(hash, ms + [m]) == Next(hash, w, m);
  }

  /** Run 0 of job 1 on agent 7, one byte long, with some of its closing reports accepted. */
  function Sample(hash: Hash, st: Status, handlers: seq<Handler>, p: Phase): World {
    var e := Executor(p, 7, [1], 1, 1, "a");
    var row := NewRun(1, 7, 0, None, None, 0).(status := st, startedAt := Some(0),
                                                outcome := if st.Running? then NO_OUTCOME else FinalOutcome(hash, e));
    World(Server([row], handlers, map[7 := Some(0)]), map[0 := [1]], map[0 := e], {})
  }

  /** The status of a run whose executor is about to send closing report k. */
  function StageStatus(k: nat): Status {
    if k == 0 then Running else FinalStatus(k - 1)
  }

  function SampleRequest(hash: Hash, k: nat, state: HandlerState): Handler {
    Handler(0, FromAgent(Report(FinalStatus(k), FinalOutcome(hash, Executor(GaveUp, 7, [1], 1, 1, "a")))),
            StageStatus(k), state)
  }

  /** The run was made and claimed, and its executor has started. */
  function SampleClaimed(): World {
    World(Server([NewRun(1, 7, 0, None, None, 0).(status := Running, startedAt := Some(0))], [], map[7 := Some(0)]),
          map[], map[0 := Executor(Producing, 7, [], 0, 0, "")], {})
  }

  lemma SampleClaim(hash: Hash)
    ensures Reachable(hash, SampleClaimed())
  {
    assert RunProtocol.Run(hash, []) == START;
    ReachableNext(hash, START, Other(LEnlist(7)));
    var w1 := START.(server := EMPTY.(agents := map[7 := None]));
    ReachableNext(hash, w1, Other(LRunNow(1, 7, 0)));
    var w2 := w1.(server := w1.server.(rows := [NewRun(1, 7, 0, None, None, 0)]));
    assert RunNow(w1.server, 1, 7, 0) == w2.server;
    ReachableNext(hash, w2, ClaimRun(0, 7, true, 0));
    assert Claim(w2.server, 0, 7, 0) == SampleClaimed().server;
  }

  /** Its executor is about to send its first closing report. */
  lemma SampleStart(hash: Hash)
    ensures Reachable(hash, Sample(hash, Running, [], Reporting(0)))
  {
    SampleClaim(hash);
    var w3 := SampleClaimed();
    ReachableNext(hash, w3, Produce(0, [1], 1, 1));
    var w4 := w3.(executors := map[0 := Executor(Ready, 7, [1], 1, 1, "")]);
    assert AgentMove(hash, w3, Produce(0, [1], 1, 1)) == w4;
    ReachableNext(hash, w4, Put(0, Some([1]), "a", 0));
    var w5 := Sample(hash, Running, [], Stored);
    assert PutObject(w4, 0, Some([1]), "a", 0) == w5;
    ReachableNext(hash, w5, Head(0, true, "", 0));
    assert HeadObject(hash, w5, 0, true, "", 0) == Sample(hash, Running, [], Reporting(0));
  }

  lemma SampleSend(hash: Hash, k: nat, handlers: seq<Handler>)
    requires k <= 2
    requires Reachable(hash, Sample(hash, StageStatus(k), handlers, Reporting(k)))
    ensures Reachable(hash, Sample(hash, StageStatus(k),
                                   handlers + [SampleRequest(hash, k, Started)], Awaiting(k, |handlers|)))
  {
    var w := Sample(hash, StageStatus(k), handlers, Reporting(k));
    ReachableNext(hash, w, Send(0, true, 0));
    assert Next(hash, w, Send(0, true, 0))
           == Sample(hash, StageStatus(k),
                     handlers + [SampleRequest(hash, k, Started)], Awaiting(k, |handlers|));
  }

  lemma SampleAccept(hash: Hash, k: nat, handlers: seq<Handler>)
    requires k < 2
    ensures var w1 := Sample(hash, StageStatus(k), handlers + [SampleRequest(hash, k, Started)],
                             Awaiting(k, |handlers|));
            CommitReport(w1.server, |handlers|, 0)
            == Sample(hash, FinalStatus(k), handlers + [SampleRequest(hash, k, Written)],
                Awaiting(k, |handlers|)).server
  {
  }

  /** One closing report, sent, accepted and answered. */
  lemma SampleReport(hash: Hash, k: nat, handlers: seq<Handler>)
    requires k < 2
    requires Reachable(hash, Sample(hash, StageStatus(k), handlers, Reporting(k)))
    ensures Reachable(hash, Sample(hash, FinalStatus(k), handlers + [SampleRequest(hash, k, Answered(false))],
              Reporting(k + 1)))
  {
    SampleSend(hash, k, handlers);
    var h := |handlers|;
    var w1 := Sample(hash, StageStatus(k), handlers + [SampleRequest(hash, k, Started)], Awaiting(k, h));
    ReachableNext(hash, w1, Other(LCommit(h, 0)));
    SampleAccept(hash, k, handlers);
    SampleAnswer(hash, k, handlers);
  }

  lemma SampleAnswer(hash: Hash, k: nat, handlers: seq<Handler>)
    requires k < 2
    requires Reachable(hash, Sample(hash, FinalStatus(k), handlers + [SampleRequest(hash, k, Written)],
               Awaiting(k, |handlers|)))
    ensures Reachable(hash, Sample(hash, FinalStatus(k), handlers + [SampleRequest(hash, k, Answered(false))],
              Reporting(k + 1)))
  {
    var h := |handlers|;
    var w2 := Sample(hash, FinalStatus(k), handlers + [SampleRequest(hash, k, Written)], Awaiting(k, h));
    var w3 := Sample(hash, FinalStatus(k), handlers + [SampleRequest(hash, k, Answered(false))], Awaiting(k, h));
    ReachableNext(hash, w2, Other(LReread(h)));
    assert Reread(w2.server, h) == w3.server;
    ReachableNext(hash, w3, Receive(0, false));
    assert ReceiveReply(w3, 0, false)
           == Sample(hash, FinalStatus(k), handlers + [SampleRequest(hash, k, Answered(false))], Reporting(k + 1));
  }

  /** The window is reached, so there is a COMPLETED run whose object is gone. */
  lemma LateCancelExample(hash: Hash) returns (ms: seq<Move>)
    ensures Lost(RunProtocol.Run(hash, ms), 0)
  {
    SampleStart(hash);
    SampleReport(hash, 0, []);
    var hs := [SampleRequest(hash, 0, Answered(false))];
    assert [] + hs == hs;
    SampleReport(hash, 1, hs);
    var w := Sample(hash, Verifying, hs + [SampleRequest(hash, 1, Answered(false))], Reporting(2));
    assert IsRequest(w.server.handlers[1], 0, Verifying);
    var before :| RunProtocol.Run(hash, before) == w;
    WindowLosesTheObjectIff(hash, before, 0, 0);
    var more :| Lost(RunProtocol.Run(hash, before + ([Other(LCancel(0, 0))] + more)), 0);
    ms := before + ([Other(LCancel(0, 0))] + more);
  }
}
