/**
 The per-key sliding-window limiter. Each key has a slice of attempt times that is
 filtered in place; a reaper drops keys with nothing recent. Attempts and reaper passes
 happen one at a time, in the order they take the lock; `now` is the clock reading each
 of them took before that.
 */
module RateLimit {
  import opened Common

  /** What attempts are counted by: the client's address. */
  datatype Key = Client(address: string)

  datatype Config = Config(limit: int, window: int)

  /** The times after the cutoff, in order. */
  function After(times: seq<int>, cutoff: int): (kept: seq<int>)
    ensures |kept| <= |times|
  {
    if times == [] then []
    else
      var kept := After(times[..|times| - 1], cutoff);
      if times[|times| - 1] > cutoff then kept + [times[|times| - 1]] else kept
  }

  type Attempts = map<Key, seq<int>>

  function TimesOf(m: Attempts, key: Key): seq<int> {
    if key in m then m[key] else []
  }

  function Recent(c: Config, m: Attempts, key: Key, now: int): seq<int> {
    After(TimesOf(m, key), now - c.window)
  }

  /** Whether an attempt is within budget. */
  predicate Allowed(c: Config, m: Attempts, key: Key, now: int) {
    |Recent(c, m, key, now)| < c.limit
  }

  function AfterAttempt(c: Config, m: Attempts, key: Key, now: int): Attempts {
    var recent := Recent(c, m, key, now);
    m[key := if |recent| < c.limit then recent + [now] else recent]
  }

  function AfterReap(c: Config, m: Attempts, now: int): Attempts {
    map k | k in m && Recent(c, m, k, now) != [] :: Recent(c, m, k, now)
  }

  ghost predicate SameBut(m: Attempts, m': Attempts, key: Key) {
    m'.Keys == m.Keys && forall k :: k in m && k != key ==> m'[k] == m[k]
  }

  lemma SameWithEntry(m: Attempts, m': Attempts, key: Key, times: seq<int>)
    requires SameBut(m, m', key)
    ensures m'[key := times] == m[key := times]
  {
  }

  lemma SameWithout(m: Attempts, m': Attempts, key: Key)
    requires SameBut(m, m', key)
    ensures m' - {key} == m - {key}
  {
  }

  // ----- The limiter, in place -----

  datatype Slice = Slice(buf: array<int>, len: nat)

  /** Filters the first `len` times in place: the write index never passes the read index. */
  method Filter(buf: array<int>, len: nat, cutoff: int) returns (kept: nat)
    requires len <= buf.Length
    modifies buf
    ensures kept <= len && buf[..kept] == After(old(buf[..len]), cutoff)
  {
    kept := 0;
    ghost var was := buf[..len];
    for i := 0 to len
      invariant kept <= i && buf[..kept] == After(was[..i], cutoff) && buf[i..len] == was[i..]
    {
      assert was[..i + 1][..i] == was[..i];
      assert buf[i] == buf[i..len][0] == was[i];
      assert buf[i + 1..len] == buf[i..len][1..];
      if buf[i] > cutoff {
        buf[kept] := buf[i];
        kept := kept + 1;
      }
    }
    assert was[..len] == was;
  }

  method Append(s: Slice, t: int) returns (s': Slice)
    requires s.len <= s.buf.Length
    modifies s.buf
    ensures s'.len == s.len + 1 <= s'.buf.Length && s'.buf[..s'.len] == old(s.buf[..s.len]) + [t]
    ensures s'.buf == s.buf || fresh(s'.buf)
  {
    if s.len < s.buf.Length {
      s.buf[s.len] := t;
      s' := Slice(s.buf, s.len + 1);
    } else {
      var bigger := new int[2 * s.len + 1];
      for i := 0 to s.len
        invariant bigger[..i] == s.buf[..i]
        modifies bigger
      {
        bigger[i] := s.buf[i];
      }
      bigger[s.len] := t;
      assert bigger[..s.len] == s.buf[..s.len];
      s' := Slice(bigger, s.len + 1);
    }
  }

  class RateLimiter {
    const limit: int
    const window: int
    var attempts: map<Key, Slice>
    /** The key each buffer belongs to. */
    ghost var owner: map<array<int>, Key>

    /** Slices are within their buffers, and no two keys share one. */
    ghost predicate Valid()
      reads this
    {
      forall k :: k in attempts ==> Owns(k, attempts[k])
    }

    ghost predicate Owns(key: Key, s: Slice)
      reads this
    {
      s.buf in owner && owner[s.buf] == key && s.len <= s.buf.Length
    }

    ghost function Times(): Attempts
      requires Valid()
      reads this, owner.Keys
    {
      map k | k in attempts :: attempts[k].buf[..attempts[k].len]
    }

    function Settings(): Config {
      Config(limit, window)
    }

    constructor (limit: int, window: int)
      ensures Valid() && Times() == map[] && Settings() == Config(limit, window)
    {
      this.limit, this.window, attempts, owner := limit, window, map[], map[];
    }

    /** Filters a key's slice; without an entry the slice is empty. */
    method Kept(key: Key, cutoff: int) returns (s: Slice)
      requires Valid()
      modifies owner.Keys
      ensures Valid() && s.len <= s.buf.Length && if key in attempts then Owns(key, s) else fresh(s.buf)
      ensures s.buf[..s.len] == After(TimesOf(old(Times()), key), cutoff)
      ensures SameBut(old(Times()), Times(), key)
    {
      if key in attempts {
        var t := attempts[key];
        var n := Filter(t.buf, t.len, cutoff);
        s := Slice(t.buf, n);
      } else {
        var empty := new int[0];
        s := Slice(empty, 0);
      }
    }

    method Put(key: Key, s: Slice)
      requires Valid() && s.len <= s.buf.Length && (s.buf in owner ==> Owns(key, s))
      modifies this
      ensures Valid() && owner == old(owner)[s.buf := key]
      ensures Times() == old(Times())[key := s.buf[..s.len]]
    {
      attempts := attempts[key := s];
      owner := owner[s.buf := key];
    }

    method Delete(key: Key)
      requires Valid()
      modifies this
      ensures Valid() && owner == old(owner) && Times() == old(Times()) - {key}
    {
      attempts := attempts - {key};
    }

    /** Stores a key's filtered slice with one more time at its end. */
    method Record(key: Key, s: Slice, t: int)
      requires Valid() && s.len <= s.buf.Length && (s.buf in owner ==> Owns(key, s))
      modifies this, s.buf
      ensures Valid() && fresh(owner.Keys - old(owner.Keys) - {s.buf})
      ensures Times() == old(Times())[key := old(s.buf[..s.len]) + [t]]
    {
      ghost var was := Times();
      var grown := Append(s, t);
      SameWithEntry(was, Times(), key, grown.buf[..grown.len]);
      Put(key, grown);
    }

    /** Records an attempt and reports whether it is within budget. */
    method Allow(key: Key, now: int) returns (ok: bool)
      requires Valid()
      modifies this, owner.Keys
      ensures Valid() && fresh(owner.Keys - old(owner.Keys))
      ensures ok == Allowed(Settings(), old(Times()), key, now)
      ensures Times() == AfterAttempt(Settings(), old(Times()), key, now)
    {
      ghost var was, recent := Times(), Recent(Settings(), Times(), key, now);
      var kept := Kept(key, now - window);
      assert kept.buf[..kept.len] == recent && (kept.buf in owner ==> Owns(key, kept));
      ok := kept.len < limit;
      if ok {
        SameWithEntry(was, Times(), key, recent + [now]);
        Record(key, kept, now);
      } else {
        SameWithEntry(was, Times(), key, recent);
        Put(key, kept);
      }
    }

    /** One key of a reaper pass. */
    method ReapKey(key: Key, cutoff: int)
      requires Valid() && key in attempts
      modifies this, owner.Keys
      ensures Valid() && owner.Keys == old(owner.Keys) && Times() == ReapedKey(old(Times()), key, cutoff)
    {
      ghost var was := Times();
      var kept := Kept(key, cutoff);
      if kept.len == 0 {
        SameWithout(was, Times(), key);
        Delete(key);
      } else {
        SameWithEntry(was, Times(), key, kept.buf[..kept.len]);
        Put(key, kept);
      }
    }

    /** One pass of the reaper over all keys. */
    method Reap(now: int)
      requires Valid()
      modifies this, owner.Keys
      ensures Valid() && owner.Keys == old(owner.Keys) && Times() == AfterReap(Settings(), old(Times()), now)
    {
      var keys, cutoff := attempts.Keys, now - window;
      ghost var was := Times();
      while keys != {}
        invariant Valid() && owner.Keys == old(owner.Keys)
        invariant ReapedSoFar(was, Times(), keys, cutoff)
      {
        var key :| key in keys;
        ReapedSoFarStep(was, Times(), keys, key, cutoff);
        assert key in Times();
        ReapKey(key, cutoff);
        keys := keys - {key};
      }
      ReapedAll(Settings(), was, Times(), now);
    }
  }

  function ReapedKey(m: Attempts, key: Key, cutoff: int): Attempts
    requires key in m
  {
    var kept := After(m[key], cutoff);
    if kept == [] then m - {key} else m[key := kept]
  }

  /** All keys but those still to come have been reaped. */
  ghost predicate ReapedSoFar(was: Attempts, m: Attempts, keys: set<Key>, cutoff: int) {
    && keys <= m.Keys <= was.Keys
    && (forall k :: k in keys ==> m[k] == was[k])
    && (forall k :: k in was && k !in keys ==> (k in m <==> After(was[k], cutoff) != []))
    && (forall k :: k in m && k !in keys ==> m[k] == After(was[k], cutoff))
  }

  lemma ReapedSoFarStep(was: Attempts, m: Attempts, keys: set<Key>, key: Key, cutoff: int)
    requires ReapedSoFar(was, m, keys, cutoff) && key in keys
    ensures ReapedSoFar(was, ReapedKey(m, key, cutoff), keys - {key}, cutoff)
  {
  }

  lemma ReapedAll(c: Config, was: Attempts, m: Attempts, now: int)
    requires ReapedSoFar(was, m, {}, now - c.window)
    ensures m == AfterReap(c, was, now)
  {
  }

  // ----- Whole runs -----

  datatype Event = Attempt(key: Key, now: int) | Pass(now: int)

  function When(e: Event): int {
    e.now
  }

  /** The limiter's slices after a run. */
  function Run(c: Config, es: seq<Event>): Attempts {
    if es == [] then map[]
    else
      var m := Run(c, es[..|es| - 1]);
      match es[|es| - 1]
      case Attempt(key, now) => AfterAttempt(c, m, key, now)
      case Pass(now) => AfterReap(c, m, now)
  }

  function Remember(c: Config, h: Attempts, key: Key, now: int): Attempts {
    if Allowed(c, h, key, now) then h[key := TimesOf(h, key) + [now]] else h
  }

  /** The same run on a limiter that forgets nothing and is never reaped. */
  function History(c: Config, es: seq<Event>): Attempts {
    if es == [] then map[]
    else
      var m := History(c, es[..|es| - 1]);
      match es[|es| - 1]
      case Attempt(key, now) => Remember(c, m, key, now)
      case Pass(_) => m
  }

  /** Clock readings, in lock order, do not go back. */
  ghost predicate Nondecreasing(es: seq<Event>) {
    forall i, j :: 0 <= i < j < |es| ==> When(es[i]) <= When(es[j])
  }

  lemma {:induction false} AfterConcat(a: seq<int>, b: seq<int>, cutoff: int)
    ensures After(a + b, cutoff) == After(a, cutoff) + After(b, cutoff)
    decreases |b|
  {
    if b == [] {
      assert a + b == a;
    } else {
      AfterConcat(a, b[..|b| - 1], cutoff);
      assert (a + b)[..|a + b| - 1] == a + b[..|b| - 1];
    }
  }

  lemma {:induction false} AfterAfter(times: seq<int>, early: int, late: int)
    requires early <= late
    ensures After(After(times, early), late) == After(times, late)
  {
    if times != [] {
      var init, t := times[..|times| - 1], times[|times| - 1];
      AfterAfter(init, early, late);
      AfterConcat(After(init, early), if t > early then [t] else [], late);
      assert After([t], late) == if t > late then [t] else [] by {
        assert [t][..0] == [];
      }
    }
  }

  /** Seen from any clock reading from `now` on, m and the full history h are alike. */
  ghost predicate Alike(c: Config, m: Attempts, h: Attempts, now: int) {
    forall key, later {:trigger Recent(c, m, key, later)} :: now <= later ==>
        Recent(c, m, key, later) == Recent(c, h, key, later)
  }

  lemma FilteredOneMore(times: seq<int>, full: seq<int>, extra: seq<int>, early: int, late: int)
    requires early <= late && After(times, late) == After(full, late)
    ensures After(After(times, early) + extra, late) == After(full + extra, late)
  {
    AfterConcat(After(times, early), extra, late);
    AfterAfter(times, early, late);
    AfterConcat(full, extra, late);
  }

  /** One attempt keeps a key's slice and a full list of its allowed times alike, seen
      from `cutoff` on. */
  lemma AttemptHoldsAllowed(c: Config, m: Attempts, allowed: seq<int>, key: Key, now: int, cutoff: int)
    requires After(TimesOf(m, key), cutoff) == After(allowed, cutoff) && now - c.window <= cutoff
    ensures After(TimesOf(AfterAttempt(c, m, key, now), key), cutoff)
            == After(if Allowed(c, m, key, now) then allowed + [now] else allowed, cutoff)
  {
    var times, early := TimesOf(m, key), now - c.window;
    if Allowed(c, m, key, now) {
      FilteredOneMore(times, allowed, [now], early, cutoff);
      assert TimesOf(AfterAttempt(c, m, key, now), key) == After(times, early) + [now];
    } else {
      AfterAfter(times, early, cutoff);
      assert TimesOf(AfterAttempt(c, m, key, now), key) == After(times, early);
    }
  }

  lemma AttemptAlikeOwn(c: Config, m: Attempts, h: Attempts, key: Key, now: int, later: int)
    requires Recent(c, m, key, now) == Recent(c, h, key, now) && now <= later
    requires Recent(c, m, key, later) == Recent(c, h, key, later)
    ensures Recent(c, AfterAttempt(c, m, key, now), key, later) == Recent(c, Remember(c, h, key, now), key, later)
  {
    AttemptHoldsAllowed(c, m, TimesOf(h, key), key, now, later - c.window);
    TimesRemembered(c, h, key, now);
  }

  lemma TimesRemembered(c: Config, h: Attempts, key: Key, now: int)
    ensures TimesOf(Remember(c, h, key, now), key)
            == if Allowed(c, h, key, now) then TimesOf(h, key) + [now] else TimesOf(h, key)
  {
  }

  lemma AttemptKeepsAlike(c: Config, m: Attempts, h: Attempts, key: Key, now: int)
    requires Alike(c, m, h, now)
    ensures Alike(c, AfterAttempt(c, m, key, now), Remember(c, h, key, now), now)
  {
    var m', h' := AfterAttempt(c, m, key, now), Remember(c, h, key, now);
    assert Recent(c, m, key, now) == Recent(c, h, key, now);
    forall k, later | now <= later ensures Recent(c, m', k, later) == Recent(c, h', k, later) {
      assert Recent(c, m, k, later) == Recent(c, h, k, later);
      if k == key {
        AttemptAlikeOwn(c, m, h, key, now, later);
      } else {
        assert TimesOf(m', k) == TimesOf(m, k) && TimesOf(h', k) == TimesOf(h, k);
      }
    }
  }

  lemma ReapKeepsAlike(c: Config, m: Attempts, h: Attempts, now: int)
    requires Alike(c, m, h, now)
    ensures Alike(c, AfterReap(c, m, now), h, now)
  {
    var m' := AfterReap(c, m, now);
    forall k, later | now <= later ensures Recent(c, m', k, later) == Recent(c, h, k, later) {
      assert Recent(c, m, k, later) == Recent(c, h, k, later);
      AfterAfter(TimesOf(m, k), now - c.window, later - c.window);
      assert TimesOf(m', k) == Recent(c, m, k, now);
    }
  }

  lemma {:induction false} RunsAlike(c: Config, es: seq<Event>, now: int)
    requires Nondecreasing(es) && forall i :: 0 <= i < |es| ==> When(es[i]) <= now
    ensures Alike(c, Run(c, es), History(c, es), now)
    decreases |es|
  {
    if es != [] {
      var init, last := es[..|es| - 1], es[|es| - 1];
      RunsAlike(c, init, When(last));
      match last
      case Attempt(key, t) => AttemptKeepsAlike(c, Run(c, init), History(c, init), key, t);
      case Pass(t) => ReapKeepsAlike(c, Run(c, init), History(c, init), t);
    }
  }

  /** The limiter answers every attempt exactly as one that keeps the full history. */
  lemma AnswersAsFullHistory(c: Config, es: seq<Event>, key: Key, now: int)
    requires Nondecreasing(es + [Attempt(key, now)])
    ensures Allowed(c, Run(c, es), key, now) <==> Allowed(c, History(c, es), key, now)
  {
    var all := es + [Attempt(key, now)];
    assert forall i :: 0 <= i < |es| ==> es[i] == all[i] && When(all[i]) <= When(all[|es|]);
    RunsAlike(c, es, now);
    assert Recent(c, Run(c, es), key, now) == Recent(c, History(c, es), key, now);
  }

  function WithoutPasses(es: seq<Event>): seq<Event> {
    if es == [] then []
    else if es[|es| - 1].Attempt? then WithoutPasses(es[..|es| - 1]) + [es[|es| - 1]]
    else WithoutPasses(es[..|es| - 1])
  }

  lemma {:induction false} PassesLeaveHistory(c: Config, es: seq<Event>)
    ensures History(c, WithoutPasses(es)) == History(c, es)
  {
    if es != [] {
      var init := WithoutPasses(es[..|es| - 1]);
      PassesLeaveHistory(c, es[..|es| - 1]);
      assert (init + [es[|es| - 1]])[..|init|] == init;
    }
  }

  lemma {:induction false} WithoutPassesInOrder(es: seq<Event>, now: int)
    requires Nondecreasing(es) && forall i :: 0 <= i < |es| ==> When(es[i]) <= now
    ensures Nondecreasing(WithoutPasses(es)) && forall i :: 0 <= i < |WithoutPasses(es)| ==>
              When(WithoutPasses(es)[i]) <= now
    decreases |es|
  {
    if es != [] {
      WithoutPassesInOrder(es[..|es| - 1], When(es[|es| - 1]));
    }
  }

  /** No attempt is answered differently because of reaper passes before it. */
  lemma ReaperGoesUnnoticed(c: Config, es: seq<Event>, key: Key, now: int)
    requires Nondecreasing(es + [Attempt(key, now)])
    ensures Allowed(c, Run(c, es), key, now) <==> Allowed(c, Run(c, WithoutPasses(es)), key, now)
  {
    var all := es + [Attempt(key, now)];
    assert forall i :: 0 <= i < |es| ==> es[i] == all[i] && When(all[i]) <= When(all[|es|]);
    WithoutPassesInOrder(es, now);
    AnswersAsFullHistory(c, es, key, now);
    AnswersAsFullHistory(c, WithoutPasses(es), key, now);
    PassesLeaveHistory(c, es);
  }

  /** When the attempts of a key were allowed. */
  function AllowedTimes(c: Config, es: seq<Event>, key: Key): seq<int> {
    if es == [] then []
    else
      var init, last := es[..|es| - 1], es[|es| - 1];
      if last.Attempt? && last.key == key && Allowed(c, Run(c, init), key, last.now)
      then AllowedTimes(c, init, key) + [last.now]
      else AllowedTimes(c, init, key)
  }

  /** How many times lie in the window (a, b]. */
  function Within(times: seq<int>, a: int, b: int): nat {
    if times == [] then 0
    else Within(times[..|times| - 1], a, b) + if a < times[|times| - 1] <= b then 1 else 0
  }

  lemma {:induction false} WithinAtMostAfter(times: seq<int>, a: int, b: int, cutoff: int)
    requires cutoff <= a
    ensures Within(times, a, b) <= |After(times, cutoff)|
  {
    if times != [] {
      WithinAtMostAfter(times[..|times| - 1], a, b, cutoff);
    }
  }

  lemma {:induction false} LaterKeepsLess(times: seq<int>, early: int, late: int)
    requires early <= late
    ensures |After(times, late)| <= |After(times, early)|
  {
    if times != [] {
      LaterKeepsLess(times[..|times| - 1], early, late);
    }
  }

  /** So does a pass. */
  lemma PassHoldsAllowed(c: Config, m: Attempts, key: Key, now: int, cutoff: int)
    requires now - c.window <= cutoff
    ensures After(TimesOf(AfterReap(c, m, now), key), cutoff) == After(TimesOf(m, key), cutoff)
  {
    AfterAfter(TimesOf(m, key), now - c.window, cutoff);
    assert TimesOf(AfterReap(c, m, now), key) == After(TimesOf(m, key), now - c.window);
  }

  /** The times of the key allowed in es and then e. */
  function WithEvent(c: Config, es: seq<Event>, e: Event, key: Key): seq<int> {
    if e.Attempt? && e.key == key && Allowed(c, Run(c, es), key, e.now) then AllowedTimes(c, es, key) + [e.now]
    else AllowedTimes(c, es, key)
  }

  lemma RunSnoc(c: Config, es: seq<Event>, e: Event, key: Key)
    ensures Run(c, es + [e]) == match e
                                case Attempt(k, now) => AfterAttempt(c, Run(c, es), k, now)
                                case Pass(now) => AfterReap(c, Run(c, es), now)
    ensures AllowedTimes(c, es + [e], key) == WithEvent(c, es, e, key)
  {
    assert (es + [e])[..|es|] == es;
  }

  ghost predicate HoldsAllowed(c: Config, es: seq<Event>, key: Key, cutoff: int) {
    After(TimesOf(Run(c, es), key), cutoff) == After(AllowedTimes(c, es, key), cutoff)
  }

  lemma OneMoreEvent(c: Config, es: seq<Event>, e: Event, key: Key, cutoff: int)
    requires HoldsAllowed(c, es, key, cutoff) && When(e) - c.window <= cutoff
    ensures HoldsAllowed(c, es + [e], key, cutoff)
  {
    var m := Run(c, es);
    RunSnoc(c, es, e, key);
    if e.Pass? {
      PassHoldsAllowed(c, m, key, e.now, cutoff);
    } else if e.key == key {
      AttemptHoldsAllowed(c, m, AllowedTimes(c, es, key), key, e.now, cutoff);
    } else {
      assert TimesOf(AfterAttempt(c, m, e.key, e.now), key) == TimesOf(m, key);
    }
  }

  /** As long as no reading is past `latest`, a key's slice and the list of all its
      allowed times agree on what lies within a window of `latest`. */
  lemma {:induction false} SliceHoldsAllowed(c: Config, es: seq<Event>, key: Key, latest: int, cutoff: int)
    requires (forall i :: 0 <= i < |es| ==> When(es[i]) <= latest) && latest - c.window <= cutoff
    ensures HoldsAllowed(c, es, key, cutoff)
  {
    if es != [] {
      var init, last := es[..|es| - 1], es[|es| - 1];
      SliceHoldsAllowed(c, init, key, latest, cutoff);
      assert es == init + [last];
      OneMoreEvent(c, init, last, key, cutoff);
    }
  }

  /** Clock readings, in lock order, go back by at most `skew`. */
  ghost predicate GoesBackAtMost(es: seq<Event>, skew: int) {
    forall i, j :: 0 <= i < j < |es| ==> When(es[i]) - When(es[j]) <= skew
  }

  /** One more allowed attempt leaves at most `limit` in the window: the slice it was
      counted against still held all that lie there. */
  lemma RoomForOneMore(c: Config, times: seq<int>, allowed: seq<int>, now: int, a: int, b: int)
    requires After(times, a) == After(allowed, a) && now - c.window <= a
    requires |After(times, now - c.window)| < c.limit
    ensures Within(allowed, a, b) < c.limit
  {
    WithinAtMostAfter(allowed, a, b, a);
    LaterKeepsLess(times, now - c.window, a);
  }

  /** The window (a, b] holds at most `limit` allowed attempts of the key. */
  ghost predicate Bounded(c: Config, es: seq<Event>, key: Key, a: int, b: int) {
    Within(AllowedTimes(c, es, key), a, b) <= if c.limit > 0 then c.limit else 0
  }

  lemma OneMoreBounded(c: Config, es: seq<Event>, e: Event, key: Key, skew: nat, a: int)
    requires Bounded(c, es, key, a, a + c.window - skew)
    requires forall i :: 0 <= i < |es| ==> When(es[i]) <= When(e) + skew
    ensures Within(WithEvent(c, es, e, key), a, a + c.window - skew) <= if c.limit > 0 then c.limit else 0
  {
    var b, times, allowed := a + c.window - skew, TimesOf(Run(c, es), key), AllowedTimes(c, es, key);
    WithinSnoc(allowed, e.now, a, b);
    if WithEvent(c, es, e, key) != allowed && a < e.now <= b {
      SliceHoldsAllowed(c, es, key, e.now + skew, a);
      RoomForOneMore(c, times, allowed, e.now, a, b);
    }
  }

  /** When readings go back by at most `skew`, every window shorter than the configured
      one by as much holds at most `limit` allowed attempts of a key: its left end
      excluded, its right end included. */
  lemma {:induction false} WindowBoundWithSkew(c: Config, es: seq<Event>, key: Key, skew: nat, a: int)
    requires GoesBackAtMost(es, skew)
    ensures Bounded(c, es, key, a, a + c.window - skew)
  {
    if es != [] {
      var init, last := es[..|es| - 1], es[|es| - 1];
      WindowBoundWithSkew(c, init, key, skew, a);
      OneMoreBounded(c, init, last, key, skew, a);
      assert AllowedTimes(c, es, key) == WithEvent(c, init, last, key);
    }
  }

  lemma WithinSnoc(times: seq<int>, t: int, a: int, b: int)
    ensures Within(times + [t], a, b) == Within(times, a, b) + if a < t <= b then 1 else 0
  {
    assert (times + [t])[..|times|] == times;
  }

  /** With readings in order, every window of the configured length holds at most
      `limit` allowed attempts of a key. */
  lemma WindowBound(c: Config, es: seq<Event>, key: Key, a: int)
    requires Nondecreasing(es)
    ensures Bounded(c, es, key, a, a + c.window)
  {
    WindowBoundWithSkew(c, es, key, 0, a);
  }

  lemma {:induction false} WithinAll(times: seq<int>, a: int, b: int)
    requires forall i :: 0 <= i < |times| ==> times[i] <= b
    ensures Within(times, a, b) == |After(times, a)|
  {
    if times != [] {
      WithinAll(times[..|times| - 1], a, b);
    }
  }

  lemma {:induction false} AllowedBefore(c: Config, es: seq<Event>, key: Key, now: int)
    requires forall i :: 0 <= i < |es| ==> When(es[i]) <= now
    ensures forall i :: 0 <= i < |AllowedTimes(c, es, key)| ==> AllowedTimes(c, es, key)[i] <= now
  {
    if es != [] {
      AllowedBefore(c, es[..|es| - 1], key, now);
    }
  }

  lemma AllowedAsHistorySays(c: Config, es: seq<Event>, key: Key, now: int)
    requires forall i :: 0 <= i < |es| ==> When(es[i]) <= now
    ensures |Recent(c, Run(c, es), key, now)| == Within(AllowedTimes(c, es, key), now - c.window, now)
  {
    AllowedBefore(c, es, key, now);
    WithinAll(AllowedTimes(c, es, key), now - c.window, now);
    SliceHoldsAllowed(c, es, key, now, now - c.window);
  }

  /** With readings in order an attempt is allowed exactly when fewer than `limit` attempts
      of its key were allowed in the window that ends with it. */
  lemma AllowedIffRoom(c: Config, es: seq<Event>, key: Key, now: int)
    requires Nondecreasing(es + [Attempt(key, now)])
    ensures Allowed(c, Run(c, es), key, now) <==> Within(AllowedTimes(c, es, key), now - c.window, now) < c.limit
  {
    var all := es + [Attempt(key, now)];
    assert forall i :: 0 <= i < |es| ==> es[i] == all[i] && When(all[i]) <= When(all[|es|]);
    AllowedAsHistorySays(c, es, key, now);
  }

  lemma FirstAttempt(c: Config, key: Key, now: int)
    requires c.limit > 0
    ensures Run(c, [Attempt(key, now)]) == map[key := [now]] && AllowedTimes(c, [Attempt(key, now)], key) == [now]
  {
    var es := [Attempt(key, now)];
    assert es[..0] == [];
    assert Run(c, []) == map[] && Recent(c, map[], key, now) == [];
    assert After([], now - c.window) + [now] == [now];
    assert AfterAttempt(c, map[], key, now) == map[key := [now]];
    assert Run(c, es) == AfterAttempt(c, map[], key, now);
    assert AllowedTimes(c, [], key) == [];
    assert Allowed(c, Run(c, es[..0]), key, now);
  }

  /** With both ends included a window can hold one more: the cutoff itself no longer counts. */
  lemma ClosedWindowExample(window: int)
    requires window > 0
    ensures var es := [Attempt(Client("k"), 0), Attempt(Client("k"), window)];
              AllowedTimes(Config(1, window), es, Client("k")) == [0, window]
  {
    var c, first, es := Config(1, window), [Attempt(Client("k"), 0)],
        [Attempt(Client("k"), 0), Attempt(Client("k"), window)];
    assert first[..0] == [] && es[..1] == first;
    FirstAttempt(c, Client("k"), 0);
    assert [0][..0] == [];
    assert Recent(c, Run(c, first), Client("k"), window) == [];
    assert AllowedTimes(c, first, Client("k")) == [0];
  }

  /** The clock is read before the lock is taken. A reaper that took the lock first with a
      later reading makes the limiter allow two attempts where one is the limit. */
  lemma StaleReadingExample()
    ensures var es := [Attempt(Client("k"), 50), Pass(61), Attempt(Client("k"), 59)];
              AllowedTimes(Config(1, 10), es, Client("k")) == [50, 59]
  {
    var c := Config(1, 10);
    var es1, es2, es3 := [Attempt(Client("k"), 50)], [Attempt(Client("k"), 50), Pass(61)],
        [Attempt(Client("k"), 50), Pass(61), Attempt(Client("k"), 59)];
    assert es1[..0] == [] && es2[..1] == es1 && es3[..2] == es2;
    FirstAttempt(c, Client("k"), 50);
    assert [50][..0] == [];
    assert Recent(c, Run(c, es1), Client("k"), 61) == [];
    assert Run(c, es2) == map[];
    assert AllowedTimes(c, es1, Client("k")) == [50] && AllowedTimes(c, es2, Client("k")) == [50];
  }

  /** Shortening the window by all of the skew is necessary: readings that go back by `skew`
      can put two attempts, of which one is the limit, into a window shorter by one less. */
  lemma SkewIsNeeded(window: int, skew: int)
    requires 0 < skew <= window
    ensures var es := [Attempt(Client("k"), 0)] + [Pass(window)] + [Attempt(Client("k"), window - skew)];
            && GoesBackAtMost(es, skew)
            && AllowedTimes(Config(1, window), es, Client("k")) == [0] + [window - skew]
            && Within([0] + [window - skew], -1, -1 + window - (skew - 1)) == 2
  {
    var c, k := Config(1, window), Client("k");
    var first := [Attempt(k, 0)];
    FirstAttempt(c, k, 0);
    RunSnoc(c, first, Pass(window), k);
    assert [0][..0] == [] && After([0], 0) == [];
    assert Run(c, first + [Pass(window)]) == map[];
    RunSnoc(c, first + [Pass(window)], Attempt(k, window - skew), k);
    WithinSnoc([], 0, -1, window - skew);
    assert [] + [0] == [0];
    WithinSnoc([0], window - skew, -1, window - skew);
  }

  /** After a pass every key left has a recent time, and only recent ones. */
  lemma ReapLeavesOnlyRecent(c: Config, m: Attempts, now: int, key: Key)
    requires key in AfterReap(c, m, now)
    ensures AfterReap(c, m, now)[key] != [] && forall i :: 0 <= i < |AfterReap(c, m, now)[key]| ==>
              AfterReap(c, m, now)[key][i] > now - c.window
  {
    AfterIsAfter(m[key], now - c.window);
  }

  lemma {:induction false} AfterIsAfter(times: seq<int>, cutoff: int)
    ensures forall i :: 0 <= i < |After(times, cutoff)| ==> After(times, cutoff)[i] > cutoff
  {
    if times != [] {
      AfterIsAfter(times[..|times| - 1], cutoff);
    }
  }
}
