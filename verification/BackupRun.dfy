/** The life cycle of a backup run: its statuses and the transitions between them. */
module BackupRun {

  datatype Status = Pending | Running | Uploading | Verifying | Completed | Failed | Cancelled

  predicate CanTransition(from: Status, to: Status) {
    match from
    case Pending => to.Running? || to.Cancelled?
    case Running => to.Uploading? || to.Failed? || to.Cancelled?
    case Uploading => to.Verifying? || to.Failed? || to.Cancelled?
    case Verifying => to.Completed? || to.Failed? || to.Cancelled?
    case _ => false
  }

  /** The statuses counted by every in-flight guard. */
  predicate InFlight(s: Status) {
    s.Pending? || s.Running? || s.Uploading? || s.Verifying?
  }

  predicate Terminal(s: Status) {
    s.Completed? || s.Failed? || s.Cancelled?
  }

  /** How far along a status is. Every transition climbs. */
  function Rank(s: Status): (r: nat)
    ensures r <= 4
    ensures r == 4 <==> Terminal(s)
  {
    match s
    case Pending => 0
    case Running => 1
    case Uploading => 2
    case Verifying => 3
    case _ => 4
  }

  /** A sequence of statuses, each reached from the one before by one transition. */
  ghost predicate Path(p: seq<Status>) {
    forall i :: 0 <= i < |p| - 1 ==> CanTransition(p[i], p[i + 1])
  }

  /** A life has at most five statuses, only the last of which can be terminal,
      and none of them is visited twice. */
  lemma {:induction false} PathIsShort(p: seq<Status>)
    requires Path(p)
    ensures |p| <= 5
    ensures forall i, j :: 0 <= i < j < |p| ==> p[i] != p[j] && InFlight(p[i])
    ensures |p| >= 1 ==> |p| - 1 <= Rank(p[|p| - 1])
  {
    if |p| > 1 {
      var q := p[..|p| - 1];
      assert forall i :: 0 <= i < |q| - 1 ==> CanTransition(q[i], q[i + 1]) by {
        forall i | 0 <= i < |q| - 1 ensures CanTransition(q[i], q[i + 1]) {
          assert CanTransition(p[i], p[i + 1]);
        }
      }
      PathIsShort(q);
      assert CanTransition(p[|p| - 2], p[|p| - 1]);
      PathClimbs(p, |p| - 1);
    }
  }

  lemma {:induction false} PathClimbs(p: seq<Status>, j: nat)
    requires Path(p) && j < |p|
    ensures forall i :: 0 <= i < j ==> Rank(p[i]) < Rank(p[j])
  {
    if j > 0 {
      PathClimbs(p, j - 1);
      assert CanTransition(p[j - 1], p[j]);
    }
  }

  const HAPPY: seq<Status> := [Pending, Running, Uploading, Verifying, Completed]

  /** A life follows the happy path, in full or up to where it is now, or leaves it: by a
      cancel from anywhere before the end, by a failure from anywhere but the start. */
  predicate IsLife(p: seq<Status>) {
    || p <= HAPPY
    || (2 <= |p| <= 5 && p[..|p| - 1] <= HAPPY && (p[|p| - 1].Cancelled? || (p[|p| - 1].Failed? && |p| > 2)))
  }

  lemma {:induction false} LivesAre(p: seq<Status>)
    requires p != [] && p[0].Pending?
    ensures Path(p) <==> IsLife(p)
  {
    if |p| > 1 {
      var q := p[..|p| - 1];
      LivesAre(q);
      assert Path(p) <==> Path(q) && CanTransition(q[|q| - 1], p[|p| - 1]) by {
        assert forall i :: 0 <= i < |q| ==> q[i] == p[i];
        if Path(q) && CanTransition(q[|q| - 1], p[|p| - 1]) {
          forall i | 0 <= i < |p| - 1 ensures CanTransition(p[i], p[i + 1]) {
            assert i < |q| - 1 ==> CanTransition(q[i], q[i + 1]);
          }
        }
      }
      LifeGoesOn(q, p[|p| - 1]);
      assert p == q + [p[|p| - 1]];
    }
  }

  lemma LifeGoesOn(q: seq<Status>, to: Status)
    requires q != [] && q[0].Pending?
    ensures IsLife(q + [to]) <==> IsLife(q) && CanTransition(q[|q| - 1], to)
  {
    var p := q + [to];
    assert p[..|p| - 1] == q;
    assert p <= HAPPY ==> q == HAPPY[..|q|];
    if q <= HAPPY {
      assert q == HAPPY[..|q|] && q[|q| - 1] == HAPPY[|q| - 1];
      assert p <= HAPPY <==> |q| < 5 && to == HAPPY[|q|];
    }
  }
}
