/** Counting timestamps in sliding windows, and the relay's sliding-window rate limiter. */
module Windows {

  /** The window of length `len` that ends at `end`; `closed` says whether its start belongs to it. */
  datatype Window = Window(end: real, len: real, closed: bool) {
    predicate Contains(t: real) {
      t <= end && if closed then end - len <= t else end - len < t
    }
  }

  function CountIn(log: seq<real>, w: Window): nat {
    if log == [] then 0
    else CountIn(log[..|log| - 1], w) + if w.Contains(log[|log| - 1]) then 1 else 0
  }

  ghost predicate Sorted(log: seq<real>) {
    forall i, j :: 0 <= i < j < |log| ==> log[i] <= log[j]
  }

  ghost predicate NotAfter(log: seq<real>, now: real) {
    forall i :: 0 <= i < |log| ==> log[i] <= now
  }

  /** Each entry found fewer than `bound` earlier entries in the window ending at itself. */
  ghost predicate Admitted(log: seq<real>, bound: int, len: real, closed: bool) {
    log == [] ||
    var front, last := log[..|log| - 1], log[|log| - 1];
    Admitted(front, bound, len, closed) && CountIn(front, Window(last, len, closed)) < bound
  }

  /** No window of the given length, anywhere on the time line, holds more than `bound` entries. */
  ghost predicate Bounded(log: seq<real>, bound: int, len: real, closed: bool) {
    forall end: real :: CountIn(log, Window(end, len, closed)) <= if bound < 0 then 0 else bound
  }

  lemma {:induction false} CountMonotone(log: seq<real>, w: Window, w': Window)
    requires forall i :: 0 <= i < |log| && w.Contains(log[i]) ==> w'.Contains(log[i])
    ensures CountIn(log, w) <= CountIn(log, w')
  {
    if log == [] {
    } else {
      CountMonotone(log[..|log| - 1], w, w');
    }
  }

  lemma {:induction false} CountPrefix(log: seq<real>, w: Window, k: nat)
    requires k <= |log|
    ensures CountIn(log[..k], w) <= CountIn(log, w)
  {
    if k == |log| {
      assert log[..k] == log;
    } else {
      assert log[..|log| - 1][..k] == log[..k];
      CountPrefix(log[..|log| - 1], w, k);
    }
  }

  lemma CountAppend(log: seq<real>, t: real, w: Window)
    ensures CountIn(log + [t], w) == CountIn(log, w) + if w.Contains(t) then 1 else 0
  {
    assert (log + [t])[..|log|] == log;
  }

  lemma CountStep(log: seq<real>, i: nat, w: Window)
    requires i < |log|
    ensures CountIn(log[..i + 1], w) == CountIn(log[..i], w) + if w.Contains(log[i]) then 1 else 0
  {
    CountAppend(log[..i], log[i], w);
    assert log[..i] + [log[i]] == log[..i + 1];
  }

  /** Entries outside the window can be forgotten from the front of a log. */
  lemma {:induction false} CountSuffix(log: seq<real>, w: Window, k: nat)
    requires k <= |log|
    requires forall i :: 0 <= i < k ==> !w.Contains(log[i])
    ensures CountIn(log, w) == CountIn(log[k..], w)
  {
    if log == [] {
    } else if k < |log| {
      var front := log[..|log| - 1];
      assert log[k..][..|log| - k - 1] == front[k..];
      CountSuffix(front, w, k);
    } else {
      CountSuffix(log[..|log| - 1], w, k - 1);
      assert log[..|log| - 1][k - 1..] == [] == log[k..];
    }
  }

  lemma {:induction false} CountAll(log: seq<real>, w: Window)
    requires forall i :: 0 <= i < |log| ==> w.Contains(log[i])
    ensures CountIn(log, w) == |log|
  {
    if log == [] {
    } else {
      CountAll(log[..|log| - 1], w);
    }
  }

  /** What each decision looked at (windows ending at the decision) bounds every window whatsoever. */
  lemma {:induction false} AdmittedBoundsEveryWindow(log: seq<real>, bound: int, len: real, closed: bool, end: real)
    requires Sorted(log) && Admitted(log, bound, len, closed)
    ensures CountIn(log, Window(end, len, closed)) <= if bound < 0 then 0 else bound
  {
    if log == [] {
    } else {
      var front, t := log[..|log| - 1], log[|log| - 1];
      AdmittedBoundsEveryWindow(front, bound, len, closed, end);
      var w := Window(end, len, closed);
      if w.Contains(t) {
        CountMonotone(front, w, Window(t, len, closed));
      }
    }
  }

  lemma {:induction false} BoundedIsAdmitted(log: seq<real>, bound: int, len: real, closed: bool)
    requires len > 0.0 && Bounded(log, bound, len, closed)
    ensures Admitted(log, bound, len, closed)
  {
    if log == [] {
    } else {
      var front, last := log[..|log| - 1], log[|log| - 1];
      forall end: real ensures CountIn(front, Window(end, len, closed)) <= if bound < 0 then 0 else bound {
        CountPrefix(log, Window(end, len, closed), |log| - 1);
      }
      BoundedIsAdmitted(front, bound, len, closed);
      assert CountIn(log, Window(last, len, closed)) == CountIn(front, Window(last, len, closed)) + 1;
    }
  }

  /** Admission is exact: a time-ordered log comes from admitted entries iff every window is bounded. */
  lemma AdmittedIffBounded(log: seq<real>, bound: int, len: real, closed: bool)
    requires Sorted(log) && len > 0.0
    ensures Admitted(log, bound, len, closed) <==> Bounded(log, bound, len, closed)
  {
    if Admitted(log, bound, len, closed) {
      forall end: real ensures CountIn(log, Window(end, len, closed)) <= if bound < 0 then 0 else bound {
        AdmittedBoundsEveryWindow(log, bound, len, closed, end);
      }
    }
    if Bounded(log, bound, len, closed) {
      BoundedIsAdmitted(log, bound, len, closed);
    }
  }
}

module RateLimiting {
  import opened Windows

  const WINDOW_SECONDS := 60.0
  const BURST_SECONDS := 5.0

  function Minute(now: real): Window { Window(now, WINDOW_SECONDS, true) }

  function Burst(now: real): Window { Window(now, BURST_SECONDS, false) }

  /** The limiter's answer as a function of all grants ever made. */
  predicate Allowed(grants: seq<real>, maxPerMinute: int, burstSize: int, now: real) {
    CountIn(grants, Minute(now)) < maxPerMinute && CountIn(grants, Burst(now)) < burstSize
  }

  ghost predicate GrantLog(grants: seq<real>, maxPerMinute: int, burstSize: int) {
    && Sorted(grants)
    && Admitted(grants, maxPerMinute, WINDOW_SECONDS, true)
    && Admitted(grants, burstSize, BURST_SECONDS, false)
  }

  /** Every closed minute holds at most maxPerMinute grants, every span under 5 s at most burstSize. */
  ghost predicate FloodFree(grants: seq<real>, maxPerMinute: int, burstSize: int) {
    && Bounded(grants, maxPerMinute, 60.0, true)
    && Bounded(grants, burstSize, 5.0, false)
  }

  lemma WindowsHold(now: real, t: real)
    ensures Minute(now).Contains(t) <==> now - 60.0 <= t <= now
    ensures Burst(now).Contains(t) <==> now - 5.0 < t <= now
  {
  }

  lemma GrantLogIffFloodFree(grants: seq<real>, maxPerMinute: int, burstSize: int)
    requires Sorted(grants)
    ensures GrantLog(grants, maxPerMinute, burstSize) <==> FloodFree(grants, maxPerMinute, burstSize)
  {
    AdmittedIffBounded(grants, maxPerMinute, WINDOW_SECONDS, true);
    AdmittedIffBounded(grants, burstSize, BURST_SECONDS, false);
  }

  /** The limiter is neither too lax nor too strict: it refuses exactly the grants that would flood a window. */
  lemma AllowedIffStaysFloodFree(grants: seq<real>, maxPerMinute: int, burstSize: int, now: real)
    requires GrantLog(grants, maxPerMinute, burstSize)
    requires NotAfter(grants, now)
    ensures Allowed(grants, maxPerMinute, burstSize, now) <==> GrantLog(grants + [now], maxPerMinute, burstSize)
    ensures Allowed(grants, maxPerMinute, burstSize, now) <==> FloodFree(grants + [now], maxPerMinute, burstSize)
  {
    var next := grants + [now];
    assert next[..|grants|] == grants && next[|grants|] == now;
    GrantLogIffFloodFree(next, maxPerMinute, burstSize);
  }

  lemma GrantKeepsLog(grants: seq<real>, maxPerMinute: int, burstSize: int, now: real)
    requires GrantLog(grants, maxPerMinute, burstSize) && NotAfter(grants, now)
    requires Allowed(grants, maxPerMinute, burstSize, now)
    ensures GrantLog(grants + [now], maxPerMinute, burstSize)
  {
    AllowedIffStaysFloodFree(grants, maxPerMinute, burstSize, now);
  }

  /** A log whose first k entries are older than a minute, and no others, has its last minute in log[k..]. */
  lemma LastMinuteIsSuffix(grants: seq<real>, k: nat, now: real)
    requires Sorted(grants) && k <= |grants|
    requires NotAfter(grants, now)
    requires forall i :: 0 <= i < k ==> grants[i] < now - WINDOW_SECONDS
    requires k < |grants| ==> grants[k] >= now - WINDOW_SECONDS
    ensures CountIn(grants, Minute(now)) == |grants| - k
    ensures CountIn(grants, Burst(now)) == CountIn(grants[k..], Burst(now))
  {
    CountSuffix(grants, Minute(now), k);
    CountSuffix(grants, Burst(now), k);
    CountAll(grants[k..], Minute(now));
  }

  /** A grant at the present instant is the newest entry of the deque and of the log. */
  lemma RestGrows(timestamps: seq<real>, grants: seq<real>, forgotten: nat, now: real)
    requires IsRest(timestamps, grants, forgotten, now - WINDOW_SECONDS) && Sorted(grants) && NotAfter(grants, now)
    ensures IsRest(timestamps + [now], grants + [now], forgotten, now - WINDOW_SECONDS)
    ensures Sorted(grants + [now]) && NotAfter(grants + [now], now)
  {
  }

  ghost predicate IsRest(timestamps: seq<real>, grants: seq<real>, forgotten: nat, cutoff: real) {
    && forgotten <= |grants| && timestamps == grants[forgotten..]
    && forall i :: 0 <= i < forgotten ==> grants[i] < cutoff
  }

  lemma RestOfRest(timestamps: seq<real>, grants: seq<real>, forgotten: nat, cutoff: real)
    requires IsRest(timestamps, grants, forgotten, cutoff) && |timestamps| > 0 && timestamps[0] < cutoff
    ensures IsRest(timestamps[1..], grants, forgotten + 1, cutoff)
  {
    assert timestamps[0] == grants[forgotten];
  }

  method RecentCount(timestamps: seq<real>, now: real) returns (count: nat)
    requires NotAfter(timestamps, now)
    ensures count == CountIn(timestamps, Burst(now))
  {
    count := 0;
    for i := 0 to |timestamps|
      invariant count == CountIn(timestamps[..i], Burst(now))
    {
      CountStep(timestamps, i, Burst(now));
      if now - timestamps[i] < BURST_SECONDS {
        count := count + 1;
      }
    }
    assert timestamps[..|timestamps|] == timestamps;
  }

  class RateLimiter {
    const maxPerMinute: int
    const burstSize: int
    var timestamps: seq<real>
    ghost var grants: seq<real>  // every grant ever made
    ghost var forgotten: nat     // how many of them the deque no longer holds
    ghost var clock: real        // latest reading of the monotonic clock

    /** The deque is a suffix of the grant log that lost only grants older than a minute. */
    ghost predicate DequeValid()
      reads this
    {
      && Sorted(grants) && NotAfter(grants, clock)
      && IsRest(timestamps, grants, forgotten, clock - WINDOW_SECONDS)
    }

    ghost predicate Valid()
      reads this
    {
      GrantLog(grants, maxPerMinute, burstSize) && DequeValid()
    }

    constructor (maxPerMinute: int, burstSize: int, ghost now: real)
      ensures Valid() && grants == [] && clock == now
      ensures this.maxPerMinute == maxPerMinute && this.burstSize == burstSize
    {
      this.maxPerMinute, this.burstSize := maxPerMinute, burstSize;
      timestamps := [];
      grants, forgotten, clock := [], 0, now;
    }

    method Prune(now: real)
      requires DequeValid() && clock <= now
      modifies this`timestamps, this`forgotten, this`clock
      ensures DequeValid() && clock == now
      ensures |timestamps| == CountIn(grants, Minute(now))
      ensures CountIn(timestamps, Burst(now)) == CountIn(grants, Burst(now))
    {
      clock := now;
      var cutoff := now - WINDOW_SECONDS;
      while |timestamps| > 0 && timestamps[0] < cutoff
        invariant clock == now && IsRest(timestamps, grants, forgotten, cutoff)
      {
        RestOfRest(timestamps, grants, forgotten, cutoff);
        timestamps := timestamps[1..];
        forgotten := forgotten + 1;
      }
      LastMinuteIsSuffix(grants, forgotten, now);
    }

    method Allow(now: real) returns (ok: bool)
      requires Valid() && clock <= now
      modifies this
      ensures Valid() && clock == now
      ensures ok == Allowed(old(grants), maxPerMinute, burstSize, now)
      ensures grants == if ok then old(grants) + [now] else old(grants)
    {
      Prune(now);
      if |timestamps| >= maxPerMinute {
        return false;
      }
      var recentCount := RecentCount(timestamps, now);
      if recentCount >= burstSize {
        return false;
      }
      Record(now);
      return true;
    }

    method Record(now: real)
      requires Valid() && clock == now && Allowed(grants, maxPerMinute, burstSize, now)
      requires IsRest(timestamps, grants, forgotten, now - WINDOW_SECONDS)
      modifies this`timestamps, this`grants
      ensures Valid() && grants == old(grants) + [now]
    {
      GrantKeepsLog(grants, maxPerMinute, burstSize, now);
      RestGrows(timestamps, grants, forgotten, now);
      timestamps := timestamps + [now];
      grants := grants + [now];
      assert GrantLog(grants, maxPerMinute, burstSize);
    }

    /** Reading prunes the deque but never the log, so it cannot change any later answer. */
    method CurrentRate(now: real) returns (rate: real)
      requires Valid() && clock <= now
      modifies this`timestamps, this`forgotten, this`clock
      ensures Valid() && clock == now
      ensures rate == CountIn(grants, Minute(now)) as real
    {
      Prune(now);
      rate := |timestamps| as real;
    }

    method RemainingCapacity(now: real) returns (capacity: nat)
      requires Valid() && clock <= now
      modifies this`timestamps, this`forgotten, this`clock
      ensures Valid() && clock == now
      ensures (capacity == 0 <==> CountIn(grants, Minute(now)) >= maxPerMinute)
      ensures capacity > 0 ==> CountIn(grants, Minute(now)) + capacity == maxPerMinute
    {
      Prune(now);
      capacity := if |timestamps| >= maxPerMinute then 0 else maxPerMinute - |timestamps|;
    }
  }
}
