/**
 What the row of a COMPLETED run records, told by the moves that made it: the archive and
 the counters of its production, the path of its upload, and the checksum of that archive.
 */
module RunRecord {
  import opened Common
  import opened BackupRun
  import opened RunServer
  import opened RunProtocol

  /** Move k produced the archive of run r: its executor was producing, and is done with that. */
  ghost predicate ProducedAt(hash: Hash, ms: seq<Move>, r: nat, k: nat) {
    && k < |ms| && ms[k].Produce? && ms[k].run == r && ms[k].archive != []
    && var before, after := RunProtocol.Run(hash, ms[..k]), RunProtocol.Run(hash, ms[..k + 1]);
       && r in before.executors && before.executors[r].phase.Producing?
       && r in after.executors && after.executors[r].phase.Ready?
  }

  /** Move k uploaded it: the store holds what the move says it kept. */
  ghost predicate UploadedAt(hash: Hash, ms: seq<Move>, r: nat, k: nat) {
    && k < |ms| && ms[k].Put? && ms[k].run == r && ms[k].stored.Some?
    && var before, after := RunProtocol.Run(hash, ms[..k]), RunProtocol.Run(hash, ms[..k + 1]);
       && r in before.executors && before.executors[r].phase.Ready?
       && r in after.executors && after.executors[r].phase.Stored?
       && r in after.objects && after.objects[r] == ms[k].stored.value
  }

  /** The executor carries what move k produced. */
  ghost predicate CarriesArchive(hash: Hash, ms: seq<Move>, r: nat, e: Executor, k: nat) {
    && ProducedAt(hash, ms, r, k)
    && e.archive == ms[k].archive && e.bytesRead == ms[k].bytesRead && e.bytesCompressed == ms[k].bytesCompressed
  }

  ghost predicate CarriesPath(hash: Hash, ms: seq<Move>, r: nat, e: Executor, k: nat) {
    UploadedAt(hash, ms, r, k) && e.path == ms[k].path
  }

  /** From the upload on. */
  ghost predicate PastUpload(w: World, r: nat)
    requires r in w.executors
  {
    w.executors[r].phase.Stored? || Verified(w.executors[r].phase) || ClosingSent(w, r)
  }

  ghost predicate Traced(hash: Hash, ms: seq<Move>, r: nat) {
    var w := RunProtocol.Run(hash, ms);
    r in w.executors ==>
      && (w.executors[r].phase.Ready? || PastUpload(w, r) ==>
            exists k: nat :: CarriesArchive(hash, ms, r, w.executors[r], k))
      && (PastUpload(w, r) ==> exists k: nat :: CarriesPath(hash, ms, r, w.executors[r], k))
  }

  // ----- Moves leave what is carried alone -----

  lemma EarlierMoves(hash: Hash, ms: seq<Move>, m: Move, r: nat, e: Executor, k: nat)
    ensures CarriesArchive(hash, ms, r, e, k) ==> CarriesArchive(hash, ms + [m], r, e, k)
    ensures CarriesPath(hash, ms, r, e, k) ==> CarriesPath(hash, ms + [m], r, e, k)
  {
    if k < |ms| {
      assert (ms + [m])[..k] == ms[..k] && (ms + [m])[..k + 1] == ms[..k + 1] && (ms + [m])[k] == ms[k];
    }
  }

  /** What the executor carries, up to its phase. */
  predicate SameLoad(a: Executor, b: Executor) {
    a.archive == b.archive && a.bytesRead == b.bytesRead && a.bytesCompressed == b.bytesCompressed && a.path == b.path
  }

  lemma Keeps(hash: Hash, ms: seq<Move>, m: Move, r: nat, a: Executor, b: Executor)
    requires SameLoad(a, b)
    ensures (exists k: nat :: CarriesArchive(hash, ms, r, a, k)) ==>
              exists k: nat :: CarriesArchive(hash, ms + [m], r, b, k)
    ensures (exists k: nat :: CarriesPath(hash, ms, r, a, k)) ==> exists k: nat :: CarriesPath(hash, ms + [m], r, b, k)
  {
    if k: nat :| CarriesArchive(hash, ms, r, a, k) {
      EarlierMoves(hash, ms, m, r, a, k);
      assert CarriesArchive(hash, ms + [m], r, b, k);
    }
    if k: nat :| CarriesPath(hash, ms, r, a, k) {
      EarlierMoves(hash, ms, m, r, a, k);
      assert CarriesPath(hash, ms + [m], r, b, k);
    }
  }

  /** A move of run r's executor that keeps what it carries and does not get past the upload. */
  ghost predicate LoadStays(w: World, w': World, r: nat) {
    && r in w.executors && r in w'.executors && SameLoad(w.executors[r], w'.executors[r])
    && (w'.executors[r].phase.Ready? ==> w.executors[r].phase.Ready?)
    && (PastUpload(w', r) ==> PastUpload(w, r))
  }

  lemma LoadStaysElse(hash: Hash, w: World, m: Move)
    requires !m.Other? && !m.ClaimRun? && m.run in w.executors && !m.Produce? && !m.Put? && !m.Send?
    ensures LoadStays(w, AgentMove(hash, w, m), m.run)
  {
    AgentMoves(hash, w, m);
    if !PastUpload(w, m.run) {
      ClosingsSame(w, AgentMove(hash, w, m), m.run, Sent(hash, w, m));
    }
  }

  lemma PutLoad(hash: Hash, w: World, m: Move)
    requires m.Put? && m.run in w.executors
    ensures var w' := AgentMove(hash, w, m);
            if w.executors[m.run].phase.Ready? && m.stored.Some? then
              && m.run in w'.executors && w'.server == w.server
              && w'.executors[m.run] == w.executors[m.run].(phase := Stored, path := m.path)
              && m.run in w'.objects && w'.objects[m.run] == m.stored.value
            else LoadStays(w, w', m.run)
  {
    AgentMoves(hash, w, m);
    if w.executors[m.run].phase.Ready? && m.stored.None? {
      ClosingsSame(w, AgentMove(hash, w, m), m.run, Sent(hash, w, m));
    }
  }

  lemma SendLoad(hash: Hash, w: World, m: Move)
    requires m.Send? && m.run in w.executors
    ensures LoadStays(w, AgentMove(hash, w, m), m.run)
  {
  }

  lemma OthersSendNothing(w: World, t: Server, r: nat)
    requires OthersStep(w.server, t, r) && ClosingSent(w.(server := t), r)
    ensures ClosingSent(w, r)
  {
    var h :| 0 <= h < |t.handlers| && Closing(t.handlers[h], r);
    assert Closing(w.server.handlers[h], r);
  }

  /** A run without an executor has sent nothing. */
  lemma NobodySends(hash: Hash, w: World, r: nat)
    requires RunOk(hash, w, r) && r !in w.executors
    ensures !ClosingSent(w, r)
  {
    forall h | 0 <= h < |w.server.handlers| ensures !Closing(w.server.handlers[h], r) {
      assert w.server.handlers[h].run == r ==> RequestOk(hash, w, w.server.handlers[h]);
    }
  }

  lemma AnotherSends(w: World, w': World, run: nat, report: Report, r: nat)
    requires OwnMove(w, w', run, report) && run != r && ClosingSent(w', r)
    ensures ClosingSent(w, r)
  {
    var h :| 0 <= h < |w'.server.handlers| && Closing(w'.server.handlers[h], r);
    assert Closing(w.server.handlers[h], r);
  }

  /** A move that leaves r's executor alone, and its requests. */
  lemma UntouchedTraced(hash: Hash, ms: seq<Move>, m: Move, r: nat)
    requires Traced(hash, ms, r)
    requires var w, w' := RunProtocol.Run(hash, ms), RunProtocol.Run(hash, ms + [m]);
             r in w'.executors ==>
               && r in w.executors && SameLoad(w.executors[r], w'.executors[r])
               && (w'.executors[r].phase.Ready? ==> w.executors[r].phase.Ready?)
               && (PastUpload(w', r) ==> PastUpload(w, r))
    ensures Traced(hash, ms + [m], r)
  {
    var w, w' := RunProtocol.Run(hash, ms), RunProtocol.Run(hash, ms + [m]);
    if r in w'.executors {
      Keeps(hash, ms, m, r, w.executors[r], w'.executors[r]);
    }
  }

  lemma RunSnoc(hash: Hash, ms: seq<Move>, m: Move)
    ensures RunProtocol.Run(hash, ms + [m]) == Next(hash, RunProtocol.Run(hash, ms), m)
    ensures (ms + [m])[..|ms|] == ms && (ms + [m])[..|ms| + 1] == ms + [m]
  {
    assert (ms + [m])[..|ms|] == ms;
  }

  lemma OwnTraced(hash: Hash, ms: seq<Move>, m: Move)
    requires !m.Other? && !m.ClaimRun?
    requires var w := RunProtocol.Run(hash, ms); m.run in w.executors && WorldOk(hash, w)
    requires Traced(hash, ms, m.run)
    ensures Traced(hash, ms + [m], m.run)
  {
    var r, w, w' := m.run, RunProtocol.Run(hash, ms), RunProtocol.Run(hash, ms + [m]);
    RunSnoc(hash, ms, m);
    if m.Produce? {
      if w.executors[r].phase.Producing? && m.archive != [] {
        assert CarriesArchive(hash, ms + [m], r, w'.executors[r], |ms|);
        assert RunOk(hash, w, r);
        SameRequests(w, w', r);
      } else {
        UntouchedTraced(hash, ms, m, r);
      }
    } else if m.Put? {
      PutTraced(hash, ms, m);
    } else {
      if m.Send? { SendLoad(hash, w, m); } else { LoadStaysElse(hash, w, m); }
      UntouchedTraced(hash, ms, m, r);
    }
  }

  lemma PutTraced(hash: Hash, ms: seq<Move>, m: Move)
    requires m.Put? && m.run in RunProtocol.Run(hash, ms).executors && Traced(hash, ms, m.run)
    ensures Traced(hash, ms + [m], m.run)
  {
    var r, w, w' := m.run, RunProtocol.Run(hash, ms), RunProtocol.Run(hash, ms + [m]);
    RunSnoc(hash, ms, m);
    PutLoad(hash, w, m);
    if w.executors[r].phase.Ready? && m.stored.Some? {
      assert CarriesPath(hash, ms + [m], r, w'.executors[r], |ms|);
      Keeps(hash, ms, m, r, w.executors[r], w.executors[r]);
      var k: nat :| CarriesArchive(hash, ms + [m], r, w.executors[r], k);
      assert CarriesArchive(hash, ms + [m], r, w'.executors[r], k);
    } else {
      UntouchedTraced(hash, ms, m, r);
    }
  }

  lemma SameRequests(w: World, w': World, r: nat)
    requires w'.server == w.server
    ensures ClosingSent(w', r) == ClosingSent(w, r)
  {
  }

  lemma NextTraced(hash: Hash, ms: seq<Move>, m: Move, r: nat)
    requires WorldOk(hash, RunProtocol.Run(hash, ms)) && Traced(hash, ms, r)
    ensures Traced(hash, ms + [m], r)
  {
    var w, w' := RunProtocol.Run(hash, ms), RunProtocol.Run(hash, ms + [m]);
    RunSnoc(hash, ms, m);
    assert RunOk(hash, w, r);
    if m.Other? {
      if NotAnAgent(m.l) {
        OthersDo(w.server, m.l, r);
        if ClosingSent(w', r) {
          OthersSendNothing(w, Step(w.server, m.l), r);
        }
      }
      UntouchedTraced(hash, ms, m, r);
    } else if m.ClaimRun? {
      ClaimTraced(hash, ms, m, r);
    } else if m.run == r && r in w.executors {
      OwnTraced(hash, ms, m);
    } else {
      if m.run in w.executors {
        AgentMoves(hash, w, m);
        if ClosingSent(w', r) {
          AnotherSends(w, w', m.run, Sent(hash, w, m), r);
        }
      }
      UntouchedTraced(hash, ms, m, r);
    }
  }

  lemma ClaimTraced(hash: Hash, ms: seq<Move>, m: Move, r: nat)
    requires m.ClaimRun? && Traced(hash, ms, r) && RunOk(hash, RunProtocol.Run(hash, ms), r)
    ensures Traced(hash, ms + [m], r)
  {
    var w, w' := RunProtocol.Run(hash, ms), RunProtocol.Run(hash, ms + [m]);
    RunSnoc(hash, ms, m);
    assert w'.server.handlers == w.server.handlers;
    assert ClosingSent(w', r) == ClosingSent(w, r);
    if r in w.executors {
      assert w'.executors[r] == w.executors[r];
      UntouchedTraced(hash, ms, m, r);
    } else {
      NobodySends(hash, w, r);
    }
  }

  lemma {:induction false} ReachableTraced(hash: Hash, ms: seq<Move>, r: nat)
    ensures Traced(hash, ms, r)
  {
    if ms != [] {
      var init := ms[..|ms| - 1];
      ReachableTraced(hash, init, r);
      ReachableWorldsAreOk(hash, init);
      NextTraced(hash, init, ms[|ms| - 1], r);
      assert ms == init + [ms[|ms| - 1]];
    }
  }

  // ----- The main result -----

  /** The outcome recorded for run r is that of the archive move k produced and of the upload
      that move j made of it. */
  ghost predicate Records(hash: Hash, ms: seq<Move>, r: nat, o: Outcome, k: nat, j: nat) {
    && ProducedAt(hash, ms, r, k) && UploadedAt(hash, ms, r, j)
    && o.bytesRead == ms[k].bytesRead && o.bytesCompressed == ms[k].bytesCompressed
    && o.bytesUploaded == |ms[k].archive| && o.checksum == hash(ms[k].archive)
    && o.storagePath == ms[j].path && o.errorMessage == ""
  }

  /** In every reachable state: the row of a COMPLETED run tells which archive was produced
      for it and where that was uploaded to. A restore is handed that path. */
  lemma CompletedRunRecordsItsBackup(hash: Hash, ms: seq<Move>, r: nat) returns (k: nat, j: nat)
    requires var w := RunProtocol.Run(hash, ms);
             r < |w.server.rows| && w.server.rows[r].status.Completed?
    ensures Records(hash, ms, r, RunProtocol.Run(hash, ms).server.rows[r].outcome, k, j)
  {
    var w := RunProtocol.Run(hash, ms);
    ReachableWorldsAreOk(hash, ms);
    ReachableTraced(hash, ms, r);
    assert RunOk(hash, w, r);
    k :| CarriesArchive(hash, ms, r, w.executors[r], k);
    j :| CarriesPath(hash, ms, r, w.executors[r], j);
  }
}
