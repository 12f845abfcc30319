/** Rolling-window airtime accounting for native transmissions. */
module DutyCycle {
  import opened Numbers
  import opened Windows

  datatype TxRecord = TxRecord(timestamp: real, airtimeMs: nat)

  function Total(records: seq<TxRecord>): nat {
    if records == [] then 0 else Total(records[..|records| - 1]) + records[|records| - 1].airtimeMs
  }

  /** Airtime recorded within a window. */
  function AirtimeIn(log: seq<TxRecord>, w: Window): nat {
    if log == [] then 0
    else AirtimeIn(log[..|log| - 1], w)
         + if w.Contains(log[|log| - 1].timestamp) then log[|log| - 1].airtimeMs else 0
  }

  ghost predicate Ordered(log: seq<TxRecord>, now: real) {
    && (forall i, j :: 0 <= i < j < |log| ==> log[i].timestamp <= log[j].timestamp)
    && forall i :: 0 <= i < |log| ==> log[i].timestamp <= now
  }

  lemma {:induction false} AirtimeMonotone(log: seq<TxRecord>, w: Window, w': Window)
    requires forall i :: 0 <= i < |log| && w.Contains(log[i].timestamp) ==> w'.Contains(log[i].timestamp)
    ensures AirtimeIn(log, w) <= AirtimeIn(log, w')
  {
    if log == [] {
    } else {
      AirtimeMonotone(log[..|log| - 1], w, w');
    }
  }

  lemma AirtimeAppend(log: seq<TxRecord>, r: TxRecord, w: Window)
    ensures AirtimeIn(log + [r], w) == AirtimeIn(log, w) + if w.Contains(r.timestamp) then r.airtimeMs else 0
  {
    assert (log + [r])[..|log|] == log;
  }

  /** Once exactly the records older than the window are gone, summing the rest sums the window. */
  lemma {:induction false} AirtimeOfSuffix(log: seq<TxRecord>, w: Window, k: nat)
    requires k <= |log|
    requires forall i :: 0 <= i < k ==> !w.Contains(log[i].timestamp)
    requires forall i :: k <= i < |log| ==> w.Contains(log[i].timestamp)
    ensures AirtimeIn(log, w) == Total(log[k..])
  {
    if log == [] {
    } else if k < |log| {
      var front := log[..|log| - 1];
      assert log[k..][..|log| - k - 1] == front[k..];
      AirtimeOfSuffix(front, w, k);
    } else {
      AirtimeOfSuffix(log[..|log| - 1], w, k - 1);
      assert log[..|log| - 1][k - 1..] == [] == log[k..];
    }
  }

  /** The duty cycle rule: a window length and the share of it that may be spent on the air. */
  datatype Limit = Limit(windowSeconds: int, maxPercent: real) {
    ghost predicate Valid() { windowSeconds > 0 }

    function Window(now: real): Window { Windows.Window(now, windowSeconds as real, true) }

    function WindowMs(): int { windowSeconds * 1000 }

    /** The budget in exact milliseconds. */
    function CapMs(): real { WindowMs() as real * maxPercent / 100.0 }

    predicate Fits(usedMs: nat, airtimeMs: nat)
      requires Valid()
    {
      (usedMs + airtimeMs) as real / WindowMs() as real * 100.0 <= maxPercent
    }

    function Remaining(usedMs: nat): nat {
      var left := Truncate(CapMs()) - usedMs;
      if left < 0 then 0 else left
    }
  }

  /** The airtime used and to come is at most p percent of a window of s seconds. */
  predicate WithinShare(limit: Limit, usedMs: nat, airtimeMs: nat) {
    100.0 * (usedMs + airtimeMs) as real <= 1000.0 * limit.windowSeconds as real * limit.maxPercent
  }

  lemma WindowHolds(limit: Limit, now: real, t: real)
    ensures limit.Window(now).Contains(t) <==> now - limit.windowSeconds as real <= t <= now
  {
  }

  lemma ScaleRatio(x: real, w: real, p: real)
    requires w > 0.0
    ensures x / w * 100.0 <= p <==> x <= w * p / 100.0
  {
    var q := x / w;
    assert x == q * w;
    if q * 100.0 <= p {
      assert q <= p / 100.0;
      assert q * w <= p / 100.0 * w;
    } else {
      assert q > p / 100.0;
      assert q * w > p / 100.0 * w;
    }
    assert p / 100.0 * w == w * p / 100.0;
  }

  lemma FitsIffWithinCap(limit: Limit, usedMs: nat, airtimeMs: nat)
    requires limit.Valid()
    ensures limit.Fits(usedMs, airtimeMs) <==> (usedMs + airtimeMs) as real <= limit.CapMs()
  {
    ScaleRatio((usedMs + airtimeMs) as real, limit.WindowMs() as real, limit.maxPercent);
  }

  /** A cap of p percent of a window of s seconds is 10 * s * p milliseconds. */
  lemma CapInMs(limit: Limit)
    ensures limit.CapMs() == 10.0 * limit.windowSeconds as real * limit.maxPercent
  {
    var s, p := limit.windowSeconds as real, limit.maxPercent;
    assert limit.WindowMs() as real == 1000.0 * s;
    assert 1000.0 * s * p / 100.0 == 10.0 * s * p;
  }

  lemma Hundredfold(x: real, s: real, p: real)
    ensures x <= 10.0 * s * p <==> 100.0 * x <= 1000.0 * s * p
  {
    assert 1000.0 * s * p == 100.0 * (10.0 * s * p);
  }

  lemma ShareIffWithinCap(limit: Limit, usedMs: nat, airtimeMs: nat)
    ensures WithinShare(limit, usedMs, airtimeMs) <==> (usedMs + airtimeMs) as real <= limit.CapMs()
  {
    CapInMs(limit);
    Hundredfold((usedMs + airtimeMs) as real, limit.windowSeconds as real, limit.maxPercent);
  }

  /** The percentage test asks for what is on record and the new airtime together. */
  lemma FitsIffWithinShare(limit: Limit, usedMs: nat, airtimeMs: nat)
    requires limit.Valid()
    ensures limit.Fits(usedMs, airtimeMs) <==> WithinShare(limit, usedMs, airtimeMs)
  {
    FitsIffWithinCap(limit, usedMs, airtimeMs);
    ShareIffWithinCap(limit, usedMs, airtimeMs);
  }

  /** The percentage test and the millisecond count agree, despite the truncation, except that an airtime
      of zero always "fits" the remaining budget even when the cap is already exceeded. */
  lemma CheckAgreesWithRemaining(limit: Limit, usedMs: nat, airtimeMs: nat)
    requires limit.Valid()
    ensures limit.Fits(usedMs, airtimeMs) == (airtimeMs <= limit.Remaining(usedMs))
            <==> airtimeMs > 0 || usedMs as real <= limit.CapMs()
  {
    FitsIffWithinCap(limit, usedMs, airtimeMs);
    var total := usedMs + airtimeMs;
    if limit.CapMs() >= 0.0 {
      assert total as real <= limit.CapMs() <==> total <= limit.CapMs().Floor;
    }
  }

  /** The records are what the log leaves after forgetting a prefix of old transmissions. */
  ghost predicate IsRest(records: seq<TxRecord>, log: seq<TxRecord>, forgotten: nat, cutoff: real) {
    && forgotten <= |log| && records == log[forgotten..]
    && forall i :: 0 <= i < forgotten ==> log[i].timestamp < cutoff
  }

  lemma RestOfRest(records: seq<TxRecord>, log: seq<TxRecord>, forgotten: nat, cutoff: real)
    requires IsRest(records, log, forgotten, cutoff) && |records| > 0 && records[0].timestamp < cutoff
    ensures IsRest(records[1..], log, forgotten + 1, cutoff)
  {
    assert records[0] == log[forgotten];
  }

  /** Once the old records are gone, the rest is the current window. */
  lemma RestIsWindow(records: seq<TxRecord>, log: seq<TxRecord>, forgotten: nat, limit: Limit, now: real)
    requires Ordered(log, now) && IsRest(records, log, forgotten, now - limit.windowSeconds as real)
    requires |records| > 0 ==> records[0].timestamp >= now - limit.windowSeconds as real
    ensures Total(records) == AirtimeIn(log, limit.Window(now))
  {
    assert |records| > 0 ==> records[0] == log[forgotten];
    AirtimeOfSuffix(log, limit.Window(now), forgotten);
  }

  class DutyCycleTracker {
    const limit: Limit
    var records: seq<TxRecord>
    ghost var log: seq<TxRecord>  // every transmission ever recorded
    ghost var forgotten: nat
    ghost var clock: real

    ghost predicate Valid()
      reads this
    {
      && limit.Valid() && Ordered(log, clock)
      && IsRest(records, log, forgotten, clock - limit.windowSeconds as real)
    }

    constructor (limit: Limit, ghost now: real)
      requires limit.Valid()
      ensures Valid() && log == [] && this.limit == limit && clock == now
    {
      this.limit := limit;
      records := [];
      log, forgotten, clock := [], 0, now;
    }

    method PruneExpired(now: real)
      requires Valid() && clock <= now
      modifies this`records, this`forgotten, this`clock
      ensures Valid() && clock == now
      ensures Total(records) == AirtimeIn(log, limit.Window(now))
    {
      clock := now;
      var cutoff := now - limit.windowSeconds as real;
      while |records| > 0 && records[0].timestamp < cutoff
        invariant clock == now && Ordered(log, now) && IsRest(records, log, forgotten, cutoff)
      {
        RestOfRest(records, log, forgotten, cutoff);
        records := records[1..];
        forgotten := forgotten + 1;
      }
      RestIsWindow(records, log, forgotten, limit, now);
    }

    method CheckBudget(airtimeMs: nat, now: real) returns (ok: bool)
      requires Valid() && clock <= now
      modifies this`records, this`forgotten, this`clock
      ensures Valid() && clock == now
      ensures ok == limit.Fits(AirtimeIn(log, limit.Window(now)), airtimeMs)
      ensures ok <==> WithinShare(limit, AirtimeIn(log, limit.Window(now)), airtimeMs)
    {
      PruneExpired(now);
      var currentMs := Total(records);
      FitsIffWithinShare(limit, currentMs, airtimeMs);
      ok := limit.Fits(currentMs, airtimeMs);
    }

    /** The usage warning that follows every record prunes too, at its own reading of the clock. */
    method RecordTx(airtimeMs: nat, now: real, loggedAt: real)
      requires Valid() && clock <= now <= loggedAt
      modifies this
      ensures Valid() && clock == loggedAt
      ensures log == old(log) + [TxRecord(now, airtimeMs)]
    {
      clock := now;
      records := records + [TxRecord(now, airtimeMs)];
      log := log + [TxRecord(now, airtimeMs)];
      PruneExpired(loggedAt);
    }

    method RemainingBudgetMs(now: real) returns (ms: nat)
      requires Valid() && clock <= now
      modifies this`records, this`forgotten, this`clock
      ensures Valid() && clock == now
      ensures forall airtimeMs: nat :: airtimeMs > 0 ==>
                (airtimeMs <= ms <==> WithinShare(limit, AirtimeIn(log, limit.Window(now)), airtimeMs))
    {
      PruneExpired(now);
      ms := limit.Remaining(Total(records));
      forall airtimeMs: nat | airtimeMs > 0
        ensures airtimeMs <= ms <==> WithinShare(limit, Total(records), airtimeMs)
      {
        FitsIffWithinShare(limit, Total(records), airtimeMs);
        CheckAgreesWithRemaining(limit, Total(records), airtimeMs);
      }
    }
  }
}
