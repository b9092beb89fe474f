/**
 What each move of an executor does to the store, to itself and to the server: which report
 it sends, when it deletes the object, and when it goes on.
 */
module RunMoves {
  import opened Common
  import opened BackupRun
  import opened RunServer
  import opened RunProtocol

  /** The executor of r reported this status to the server, with these counters and texts. */
  ghost predicate Reported(w: World, w': World, r: nat, status: Status, outcome: Outcome, pathOk: bool, now: int)
    requires r in w.executors
  {
    w'.server == Step(w.server, LBegin(r, w.executors[r].agent, Report(status, outcome), pathOk, now))
  }

  /** Only r's executor may differ, and only in its phase. */
  ghost predicate OnlyPhase(w: World, w': World, r: nat, p: Phase)
    requires r in w.executors
  {
    w'.executors == w.executors[r := w.executors[r].(phase := p)] && w'.corrupted == w.corrupted
  }

  /** It told the server that it is done, and is. */
  ghost predicate Ended(w: World, w': World, r: nat, status: Status, error: string, p: Phase, now: int)
    requires r in w.executors
  {
    OnlyPhase(w, w', r, p) && Reported(w, w', r, status, Outcome(0, 0, 0, error, "", ""), true, now)
  }

  /** A granted claim that is delivered starts an executor for the claiming agent, with nothing
      produced; a claim that is not delivered starts none. */
  lemma ClaimStartsExecutor(hash: Hash, w: World, r: nat, agent: nat, delivered: bool, now: int)
    ensures var w' := Next(hash, w, ClaimRun(r, agent, delivered, now));
            var granted := agent in w.server.agents && r < |w.server.rows| && w.server.rows[r].agent == agent
                           && w.server.rows[r].status.Pending?;
            && w'.server == Step(w.server, LClaim(r, agent, now)) && w'.objects == w.objects
            && w'.corrupted == w.corrupted
            && w'.executors == if granted && delivered
                               then w.executors[r := Executor(Producing, agent, [], 0, 0, "")] else w.executors
  {
  }

  /** Progress is a report of RUNNING with the bytes read so far, and changes nothing else. */
  lemma ProgressReports(hash: Hash, w: World, r: nat, read: nat, now: int)
    requires r in w.executors && w.executors[r].phase == Producing
    ensures var w' := Next(hash, w, Progress(r, read, now));
            && OnlyPhase(w, w', r, Producing) && w'.objects == w.objects
            && Reported(w, w', r, Running, Outcome(read, 0, 0, "", "", ""), true, now)
  {
    assert w.executors[r].(phase := Producing) == w.executors[r];
    assert w.executors[r := w.executors[r]] == w.executors;
  }

  /** Before the upload a cancel the executor sees ends it as CANCELLED, and an error as FAILED. */
  lemma EarlyEnds(hash: Hash, w: World, r: nat, error: string, now: int)
    requires r in w.executors && (w.executors[r].phase == Producing || w.executors[r].phase == Ready)
    ensures var w' := Next(hash, w, CancelEarly(r, now));
            if r < |w.server.rows| && w.server.rows[r].cancelRequested
            then Ended(w, w', r, Cancelled, "", GaveUp, now) && w'.objects == w.objects
            else w' == w
    ensures var w' := Next(hash, w, Fail(r, error, now));
            Ended(w, w', r, Failed, error, GaveUp, now) && w'.objects == w.objects
  {
  }

  /** An upload that fails ends the run as FAILED; one that succeeds leaves what the store kept
      under the run, and marks it as corrupted exactly if that is not the archive. */
  lemma UploadStores(hash: Hash, w: World, r: nat, stored: Option<Content>, path: string, now: int)
    requires r in w.executors && w.executors[r].phase == Ready
    ensures var w', e := Next(hash, w, Put(r, stored, path, now)), w.executors[r];
            match stored
            case None => Ended(w, w', r, Failed, "upload failed", GaveUp, now) && w'.objects == w.objects
            case Some(content) =>
              && w'.server == w.server && w'.objects == w.objects[r := content]
              && w'.executors == w.executors[r := e.(phase := Stored, path := path)]
              && w'.corrupted == if content == e.archive then w.corrupted else w.corrupted + {r}
  {
  }

  /** The stored object is there, has the archive's size and carries no other checksum. */
  predicate Trusted(hash: Hash, w: World, r: nat, found: bool, metadata: string)
    requires r in w.executors
  {
    && found && r in w.objects && |w.objects[r]| == |w.executors[r].archive|
    && (metadata == "" || metadata == hash(w.executors[r].archive))
  }

  /** Exactly then the executor goes on to its closing reports ... */
  lemma TrustedGoesOn(hash: Hash, w: World, r: nat, found: bool, metadata: string, now: int)
    requires r in w.executors && w.executors[r].phase == Stored
    ensures var w' := Next(hash, w, Head(r, found, metadata, now));
            if Trusted(hash, w, r, found, metadata)
            then OnlyPhase(w, w', r, Reporting(0)) && w'.server == w.server && w'.objects == w.objects
            else w'.executors == w.executors[r := w.executors[r].(phase := GaveUp)]
  {
  }

  /** ... and otherwise ends the run as FAILED, and deletes an object that is there. */
  lemma UntrustedEnds(hash: Hash, w: World, r: nat, found: bool, metadata: string, now: int) returns (error: string)
    requires r in w.executors && w.executors[r].phase == Stored && !Trusted(hash, w, r, found, metadata)
    ensures Ended(w, Next(hash, w, Head(r, found, metadata, now)), r, Failed, error, GaveUp, now)
    ensures Next(hash, w, Head(r, found, metadata, now)).objects
            == if found && r in w.objects then w.objects - {r} else w.objects
  {
    error := if !found || r !in w.objects then "verify failed: HEAD"
             else if |w.objects[r]| != |w.executors[r].archive| then "verify failed: size mismatch"
             else "verify failed: checksum mismatch";
  }

  /** The closing reports are UPLOADING, VERIFYING and COMPLETED, in this order, and each
      carries the counters, the size, the path and the checksum. */
  lemma ClosingReport(hash: Hash, w: World, r: nat, k: nat, pathOk: bool, now: int)
    requires r in w.executors && w.executors[r].phase == Reporting(k)
    ensures var w', e := Next(hash, w, Send(r, pathOk, now)), w.executors[r];
            && w'.objects == w.objects
            && Reported(w, w', r, if k == 0 then Uploading else if k == 1 then Verifying else Completed,
                 Outcome(e.bytesRead, e.bytesCompressed, |e.archive|, "", e.path, hash(e.archive)), pathOk, now)
  {
  }

  /** A request that the server opens is waited for; one that it refuses ends the executor. */
  lemma SendWaitsIff(hash: Hash, w: World, r: nat, k: nat, pathOk: bool, now: int)
    requires r in w.executors && w.executors[r].phase == Reporting(k)
    requires r < |w.server.rows| && w.server.rows[r].agent == w.executors[r].agent
    requires w.server.rows[r].status != FinalStatus(k)
    ensures var w' := Next(hash, w, Send(r, pathOk, now));
            OnlyPhase(w, w', r,
              if CanTransition(w.server.rows[r].status, FinalStatus(k)) && (w.executors[r].path == "" || pathOk)
              then Awaiting(k, |w.server.handlers|) else GaveUp)
  {
  }

  /** A closing report of a status that the run has already is answered at once, and never
      with a cancel. */
  lemma EchoGoesOn(hash: Hash, w: World, r: nat, k: nat, pathOk: bool, now: int)
    requires r in w.executors && w.executors[r].phase == Reporting(k)
    requires r < |w.server.rows| && w.server.rows[r].agent == w.executors[r].agent
    requires w.server.rows[r].status == FinalStatus(k)
    ensures var w' := Next(hash, w, Send(r, pathOk, now));
            OnlyPhase(w, w', r, if k == 0 then Reporting(1) else if k == 1 then Reporting(2) else Succeeded)
  {
  }

  /** An answer stops the executor exactly if it carries a cancel, or a nudge about one came
      first; otherwise it goes on to the next closing report, or is done. */
  lemma AnswerMovesOn(hash: Hash, w: World, r: nat, k: nat, h: nat, nudged: bool)
    requires r in w.executors && w.executors[r].phase == Awaiting(k, h) && h < |w.server.handlers|
    ensures var w', state := Next(hash, w, Receive(r, nudged)), w.server.handlers[h].state;
            var flagged := r < |w.server.rows| && w.server.rows[r].cancelRequested;
            && w'.server == w.server && w'.objects == w.objects
            && match state
               case Answered(cancel) =>
                 OnlyPhase(w, w', r, if cancel || (nudged && flagged) then ToldToCancel(k)
                                     else if k == 0 then Reporting(1)
                                     else if k == 1 then Reporting(2)
                                     else Succeeded)
               case Refused => OnlyPhase(w, w', r, GaveUp)
               case _ => w' == w
  {
  }

  /** Told to cancel, the executor tries to delete the object and reports CANCELLED. */
  lemma CancelledDrops(hash: Hash, w: World, r: nat, k: nat, deleted: bool, now: int)
    requires r in w.executors && w.executors[r].phase == ToldToCancel(k)
    ensures var w' := Next(hash, w, DropObject(r, deleted, now));
            && Ended(w, w', r, Cancelled, "", Dropped(deleted, k), now)
            && w'.objects == if deleted then w.objects - {r} else w.objects
  {
  }

  /** While it reports, an executor may stop for good without telling anybody. */
  lemma AbandonIsSilent(hash: Hash, w: World, r: nat)
    requires r in w.executors && (w.executors[r].phase.Awaiting? || w.executors[r].phase.Reporting?)
    ensures var w' := Next(hash, w, Abandon(r));
            OnlyPhase(w, w', r, GaveUp) && w'.server == w.server && w'.objects == w.objects
  {
  }

  /** Which moves an executor makes in which phase. */
  predicate InTurn(p: Phase, m: Move) {
    match m
    case Progress(_, _, _) => p.Producing?
    case Produce(_, _, _, _) => p.Producing?
    case CancelEarly(_, _) => p.Producing? || p.Ready?
    case Fail(_, _, _) => p.Producing? || p.Ready?
    case Put(_, _, _, _) => p.Ready?
    case Head(_, _, _, _) => p.Stored?
    case Send(_, _, _) => p.Reporting?
    case Receive(_, _) => p.Awaiting?
    case Abandon(_) => p.Awaiting? || p.Reporting?
    case DropObject(_, _, _) => p.ToldToCancel?
    case _ => true
  }

  /** Nothing else comes of a move: without an executor, or out of its turn, it is none. */
  lemma OutOfTurnIsNothing(hash: Hash, w: World, m: Move)
    requires !m.Other? && !m.ClaimRun?
    requires m.run !in w.executors || !InTurn(w.executors[m.run].phase, m)
    ensures Next(hash, w, m) == w
  {
  }

  /** Whoever is not an agent moves the server alone. */
  lemma OthersMoveTheServer(hash: Hash, w: World, l: Label)
    ensures var w' := Next(hash, w, Other(l));
            && w'.executors == w.executors && w'.objects == w.objects && w'.corrupted == w.corrupted
            && w'.server == if l.LClaim? || l.LBegin? then w.server else Step(w.server, l)
  {
  }
}
