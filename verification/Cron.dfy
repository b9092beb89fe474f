/**
 When a schedule is due. A cron library computes, for an instant, the next instant
 at which the schedule fires; the scheduler asks at every tick whether that instant
 lies between the previous tick and this one.
 */
module Cron {
  import opened Common

  /** What the library returns when it gives up: the zero time, before any tick. */
  const ZERO_TIME: int := -62135596800

  type Next = int -> int

  ghost predicate Fires(fires: iset<int>, t: int) {
    t in fires
  }

  /** No instant fires after t for as long as the library looks ahead: to the end of
      the fifth calendar year after t, here any instant `limit(t)`. */
  ghost predicate Silent(fires: iset<int>, limit: Next, t: int) {
    forall u :: t < u <= limit(t) ==> !Fires(fires, u)
  }

  /** `next` finds the least firing instant after t, and gives up with the zero time
      exactly when the schedule is silent there. */
  ghost predicate NextLaw(fires: iset<int>, next: Next, limit: Next) {
    forall t ::
      if Silent(fires, limit, t) then next(t) == ZERO_TIME
      else t < next(t) <= limit(t) && Fires(fires, next(t)) && forall u :: t < u < next(t) ==> !Fires(fires, u)
  }

  /** boundaryFor, for a cron expression that parses. */
  function BoundaryFor(next: Next, prev: int, now: int): Option<int> {
    if next(prev) > now then None else Some(next(prev))
  }

  /** The instants that fire in the window of one tick. */
  ghost predicate InWindow(fires: iset<int>, prev: int, now: int, t: int) {
    prev < t <= now && Fires(fires, t)
  }

  ghost predicate FirstInWindow(fires: iset<int>, prev: int, now: int, t: int) {
    InWindow(fires, prev, now, t) && forall u :: InWindow(fires, prev, now, u) ==> t <= u
  }

  /** An instant is reported exactly when the window holds one, and it is the first
      there, provided the schedule is not silent after prev. */
  lemma BoundaryIsFirstInWindow(fires: iset<int>, next: Next, limit: Next, prev: int, now: int)
    requires NextLaw(fires, next, limit) && !Silent(fires, limit, prev)
    ensures BoundaryFor(next, prev, now).Some? <==> exists t :: InWindow(fires, prev, now, t)
    ensures BoundaryFor(next, prev, now).Some? ==> FirstInWindow(fires, prev, now, BoundaryFor(next, prev, now).value)
  {
    var n := next(prev);
    assert Fires(fires, n);
    if n <= now {
      assert InWindow(fires, prev, now, n);
    }
    forall t | InWindow(fires, prev, now, t) ensures n <= t {
      assert Fires(fires, t);
    }
  }

  /** When the library gives up, the zero time passes for a due boundary: an instant
      outside the window is reported exactly when the schedule is silent after prev. */
  lemma BoundaryStraysIff(fires: iset<int>, next: Next, limit: Next, prev: int, now: int)
    requires NextLaw(fires, next, limit) && ZERO_TIME < prev <= now
    ensures BoundaryFor(next, prev, now).Some? && !(prev < BoundaryFor(next, prev, now).value <= now)
            <==> Silent(fires, limit, prev)
  {
    assert Silent(fires, limit, prev) ==> next(prev) == ZERO_TIME;
  }

  ghost predicate Nondecreasing(ticks: seq<int>) {
    forall i, j :: 0 <= i <= j < |ticks| ==> ticks[i] <= ticks[j]
  }

  /** The instants reported over a run of ticks; tick i looks at (ticks[i-1], ticks[i]]. */
  function Reports(next: Next, ticks: seq<int>): seq<int> {
    if |ticks| <= 1 then []
    else
      var b := BoundaryFor(next, ticks[|ticks| - 2], ticks[|ticks| - 1]);
      var before := Reports(next, ticks[..|ticks| - 1]);
      if b.Some? then before + [b.value] else before
  }

  /** Windows of successive ticks partition the time between the first and the last. */
  lemma {:induction false} WindowsPartition(ticks: seq<int>, t: int) returns (i: nat)
    requires Nondecreasing(ticks) && |ticks| >= 1 && ticks[0] < t <= ticks[|ticks| - 1]
    ensures i + 1 < |ticks| && ticks[i] < t <= ticks[i + 1]
    ensures forall j :: 0 <= j < |ticks| - 1 && ticks[j] < t <= ticks[j + 1] ==> j == i
  {
    if ticks[|ticks| - 2] < t {
      i := |ticks| - 2;
    } else {
      i := WindowsPartition(ticks[..|ticks| - 1], t);
    }
  }

  ghost predicate NeverSilent(fires: iset<int>, limit: Next, ticks: seq<int>) {
    forall i :: 0 <= i < |ticks| ==> !Silent(fires, limit, ticks[i])
  }

  /** Reported instants strictly increase and stay within the ticks seen. */
  lemma {:induction false} ReportsIncrease(fires: iset<int>, next: Next, limit: Next, ticks: seq<int>)
    requires NextLaw(fires, next, limit) && Nondecreasing(ticks) && NeverSilent(fires, limit, ticks)
    ensures forall i, j :: 0 <= i < j < |Reports(next, ticks)| ==> Reports(next, ticks)[i] < Reports(next, ticks)[j]
    ensures forall r :: r in Reports(next, ticks) ==> |ticks| >= 1 && ticks[0] < r <= ticks[|ticks| - 1]
  {
    if |ticks| > 1 {
      var init := ticks[..|ticks| - 1];
      ReportsIncrease(fires, next, limit, init);
      BoundaryIsFirstInWindow(fires, next, limit, ticks[|ticks| - 2], ticks[|ticks| - 1]);
      forall i | 0 <= i < |Reports(next, init)| ensures Reports(next, init)[i] <= ticks[|ticks| - 2] {
        assert Reports(next, init)[i] in Reports(next, init);
      }
    }
  }

  /** Nothing past the last tick has been reported. */
  lemma NotReportedBefore(fires: iset<int>, next: Next, limit: Next, ticks: seq<int>, t: int)
    requires NextLaw(fires, next, limit) && Nondecreasing(ticks) && NeverSilent(fires, limit, ticks)
    requires ticks != [] && t > ticks[|ticks| - 1]
    ensures t !in Reports(next, ticks)
  {
    ReportsIncrease(fires, next, limit, ticks);
  }

  lemma InitTicks(fires: iset<int>, limit: Next, ticks: seq<int>)
    requires Nondecreasing(ticks) && NeverSilent(fires, limit, ticks) && |ticks| > 1
    ensures Nondecreasing(ticks[..|ticks| - 1]) && NeverSilent(fires, limit, ticks[..|ticks| - 1])
    ensures !Silent(fires, limit, ticks[|ticks| - 2])
    ensures forall i :: 0 <= i < |ticks| - 1 ==> ticks[i] <= ticks[|ticks| - 2]
  {
  }

  /** A firing instant is passed over only because an earlier one shares its window:
      it is reported if and only if it is the first firing instant of its window. */
  lemma {:induction false} ReportedIffFirst(fires: iset<int>, next: Next, limit: Next, ticks: seq<int>, i: nat, t: int)
    requires NextLaw(fires, next, limit) && Nondecreasing(ticks) && NeverSilent(fires, limit, ticks)
    requires i + 1 < |ticks| && InWindow(fires, ticks[i], ticks[i + 1], t)
    ensures t in Reports(next, ticks) <==> FirstInWindow(fires, ticks[i], ticks[i + 1], t)
  {
    var init, prev, now := ticks[..|ticks| - 1], ticks[|ticks| - 2], ticks[|ticks| - 1];
    ReportsSnoc(next, ticks, t);
    InitTicks(fires, limit, ticks);
    if i + 1 == |ticks| - 1 {
      LastWindow(fires, next, limit, prev, now, t);
      NotReportedBefore(fires, next, limit, init, t);
    } else {
      ReportedIffFirst(fires, next, limit, init, i, t);
      assert ticks[i + 1] <= prev;
      NotReportedAgain(fires, next, limit, prev, now, t);
    }
  }

  lemma NotReportedAgain(fires: iset<int>, next: Next, limit: Next, prev: int, now: int, t: int)
    requires NextLaw(fires, next, limit) && !Silent(fires, limit, prev) && t <= prev
    ensures BoundaryFor(next, prev, now) != Some(t)
  {
    assert next(prev) > prev;
  }

  lemma LastWindow(fires: iset<int>, next: Next, limit: Next, prev: int, now: int, t: int)
    requires NextLaw(fires, next, limit) && !Silent(fires, limit, prev) && InWindow(fires, prev, now, t)
    ensures BoundaryFor(next, prev, now) == Some(t) <==> FirstInWindow(fires, prev, now, t)
  {
    BoundaryIsFirstInWindow(fires, next, limit, prev, now);
  }

  lemma ReportsSnoc(next: Next, ticks: seq<int>, t: int)
    requires |ticks| > 1
    ensures t in Reports(next, ticks) <==>
              t in Reports(next, ticks[..|ticks| - 1])
                  || BoundaryFor(next, ticks[|ticks| - 2], ticks[|ticks| - 1]) == Some(t)
  {
  }

  /** An "@every d" schedule has no firing instants of its own: the library answers d
      seconds after whatever instant it is asked about. */
  ghost predicate EveryLaw(next: Next, d: int) {
    forall t :: next(t) == t + d
  }

  /** Such a schedule comes due in a tick exactly when the tick is at least d long ... */
  lemma EveryIsDueIff(next: Next, d: int, prev: int, now: int)
    requires EveryLaw(next, d)
    ensures BoundaryFor(next, prev, now).Some? <==> now - prev >= d
  {
  }

  predicate LongTick(ticks: seq<int>, d: int, i: nat) {
    i + 1 < |ticks| && ticks[i + 1] - ticks[i] >= d
  }

  /** ... so a run of ticks reports anything if and only if some tick was that long. */
  lemma {:induction false} EveryReportsIff(next: Next, d: int, ticks: seq<int>)
    requires EveryLaw(next, d)
    ensures Reports(next, ticks) != [] <==> exists i: nat :: LongTick(ticks, d, i)
  {
    if |ticks| > 1 {
      var init, n := ticks[..|ticks| - 1], |ticks| - 2;
      EveryReportsIff(next, d, init);
      EveryIsDueIff(next, d, ticks[n], ticks[n + 1]);
      assert forall i: nat :: i < n ==> LongTick(init, d, i) == LongTick(ticks, d, i);
      assert forall i: nat :: LongTick(ticks, d, i) ==> i <= n;
      assert forall i: nat :: LongTick(init, d, i) ==> i < n;
      assert LongTick(ticks, d, n) <==> ticks[n + 1] - ticks[n] >= d;
    }
  }
}
