/** Native transmissions as interleaved steps: the budget check and the airtime record of one send are
    separated by awaits, so other sends run in between. */
module Transmission {
  import opened Windows
  import opened DutyCycle
  import Bytes
  import Crypto

  /** n * ms, by repeated addition. */
  function Times(n: nat, ms: nat): nat {
    if n == 0 then 0 else ms + Times(n - 1, ms)
  }

  lemma {:induction false} TimesIsProduct(n: nat, ms: nat)
    ensures Times(n, ms) == n * ms
  {
    if n == 0 {
    } else {
      TimesIsProduct(n - 1, ms);
    }
  }

  lemma {:induction false} TimesGrows(n: nat, m: nat, ms: nat)
    requires n <= m
    ensures Times(n, ms) <= Times(m, ms)
  {
    if n == m {
    } else {
      TimesGrows(n, m - 1, ms);
    }
  }

  /** At most maxInFlight sends are between their check and their record; no airtime exceeds maxAirtimeMs. */
  datatype Config = Config(limit: Limit, maxInFlight: nat, maxAirtimeMs: nat) {
    ghost predicate Valid() { limit.Valid() && maxInFlight >= 1 }

    /** The airtime that any window may end up holding: the cap plus maxAirtimeMs for every send but one. */
    function BoundMs(): real
      requires maxInFlight >= 1
    {
      (if limit.CapMs() < 0.0 then 0.0 else limit.CapMs()) + Times(maxInFlight - 1, maxAirtimeMs) as real
    }
  }

  /** Sends that passed the check wait in `pending`, oldest first, until recorded or abandoned. */
  datatype State = State(log: seq<TxRecord>, pending: seq<nat>, clock: real)

  datatype Event =
    | Check(airtimeMs: nat, now: real)
    | Record(index: nat, now: real)   // lgw_send succeeded
    | Abandon(index: nat)             // lgw_send returned an error

  predicate Enabled(c: Config, s: State, e: Event) {
    match e
    case Check(airtimeMs, now) => s.clock <= now && airtimeMs <= c.maxAirtimeMs && |s.pending| < c.maxInFlight
    case Record(index, now) => s.clock <= now && index < |s.pending|
    case Abandon(index) => index < |s.pending|
  }

  function Without(pending: seq<nat>, index: nat): seq<nat>
    requires index < |pending|
  {
    pending[..index] + pending[index + 1..]
  }

  function Apply(c: Config, s: State, e: Event): State
    requires c.limit.Valid() && Enabled(c, s, e)
  {
    match e
    case Check(airtimeMs, now) =>
      if c.limit.Fits(AirtimeIn(s.log, c.limit.Window(now)), airtimeMs)
      then s.(pending := s.pending + [airtimeMs], clock := now)
      else s.(clock := now)
    case Record(index, now) =>
      State(s.log + [TxRecord(now, s.pending[index])], Without(s.pending, index), now)
    case Abandon(index) => s.(pending := Without(s.pending, index))
  }

  ghost predicate ValidRun(c: Config, s: State, events: seq<Event>)
    requires c.limit.Valid()
    decreases |events|
  {
    events == [] || (Enabled(c, s, events[0]) && ValidRun(c, Apply(c, s, events[0]), events[1..]))
  }

  ghost function Run(c: Config, s: State, events: seq<Event>): State
    requires c.limit.Valid() && ValidRun(c, s, events)
    decreases |events|
  {
    if events == [] then s else Run(c, Apply(c, s, events[0]), events[1..])
  }

  function Start(now: real): State { State([], [], now) }

  function Sum(pending: seq<nat>): nat {
    if pending == [] then 0 else pending[0] + Sum(pending[1..])
  }

  lemma {:induction false} SumConcat(a: seq<nat>, b: seq<nat>)
    ensures Sum(a + b) == Sum(a) + Sum(b)
  {
    if a == [] {
      assert a + b == b;
    } else {
      assert (a + b)[1..] == a[1..] + b;
      SumConcat(a[1..], b);
    }
  }

  lemma SumSplit(a: seq<nat>, x: nat, b: seq<nat>)
    ensures Sum(a + [x] + b) == Sum(a) + x + Sum(b)
  {
    assert a + [x] + b == a + ([x] + b) && ([x] + b)[1..] == b;
    SumConcat(a, [x] + b);
  }

  lemma SumWithout(pending: seq<nat>, index: nat)
    requires index < |pending|
    ensures Sum(Without(pending, index)) == Sum(pending) - pending[index]
  {
    SumConcat(pending[..index], pending[index + 1..]);
    SumSplit(pending[..index], pending[index], pending[index + 1..]);
    SplitAt(pending, index);
  }

  lemma SplitAt(pending: seq<nat>, index: nat)
    requires index < |pending|
    ensures pending == pending[..index] + [pending[index]] + pending[index + 1..]
  {
  }

  lemma {:induction false} SumBound(pending: seq<nat>, most: nat)
    requires forall i :: 0 <= i < |pending| ==> pending[i] <= most
    ensures Sum(pending) <= Times(|pending|, most)
  {
    if pending == [] {
    } else {
      SumBound(pending[1..], most);
    }
  }

  /** What is on record in the current window together with what is in flight stays within the bound. */
  ghost predicate Inv(c: Config, s: State)
    requires c.Valid()
  {
    && Ordered(s.log, s.clock)
    && |s.pending| <= c.maxInFlight
    && (forall i :: 0 <= i < |s.pending| ==> s.pending[i] <= c.maxAirtimeMs)
    && (AirtimeIn(s.log, c.limit.Window(s.clock)) + Sum(s.pending)) as real <= c.BoundMs()
    && forall end: real :: AirtimeIn(s.log, c.limit.Window(end)) as real <= c.BoundMs()
  }

  lemma StartInv(c: Config, now: real)
    requires c.Valid()
    ensures Inv(c, Start(now))
  {
  }

  lemma ClockAdvances(c: Config, s: State, now: real)
    requires c.Valid() && Inv(c, s) && s.clock <= now
    ensures Inv(c, s.(clock := now))
    ensures AirtimeIn(s.log, c.limit.Window(now)) <= AirtimeIn(s.log, c.limit.Window(s.clock))
  {
    AirtimeMonotone(s.log, c.limit.Window(now), c.limit.Window(s.clock));
  }

  lemma CheckKeepsInv(c: Config, s: State, airtimeMs: nat, now: real)
    requires c.Valid() && Inv(c, s) && Enabled(c, s, Check(airtimeMs, now))
    ensures Inv(c, Apply(c, s, Check(airtimeMs, now)))
  {
    ClockAdvances(c, s, now);
    var used := AirtimeIn(s.log, c.limit.Window(now));
    if c.limit.Fits(used, airtimeMs) {
      FitsIffWithinCap(c.limit, used, airtimeMs);
      SumBound(s.pending, c.maxAirtimeMs);
      TimesGrows(|s.pending|, c.maxInFlight - 1, c.maxAirtimeMs);
      SumConcat(s.pending, [airtimeMs]);
    }
  }

  lemma RecordKeepsInv(c: Config, s: State, index: nat, now: real)
    requires c.Valid() && Inv(c, s) && Enabled(c, s, Record(index, now))
    ensures Inv(c, Apply(c, s, Record(index, now)))
  {
    ClockAdvances(c, s, now);
    SumWithout(s.pending, index);
    var r := TxRecord(now, s.pending[index]);
    var log := s.log + [r];
    AirtimeAppend(s.log, r, c.limit.Window(now));
    forall end: real ensures AirtimeIn(log, c.limit.Window(end)) as real <= c.BoundMs() {
      AirtimeAppend(s.log, r, c.limit.Window(end));
      if c.limit.Window(end).Contains(now) {
        AirtimeMonotone(log, c.limit.Window(end), c.limit.Window(now));
      }
    }
  }

  lemma StepKeepsInv(c: Config, s: State, e: Event)
    requires c.Valid() && Inv(c, s) && Enabled(c, s, e)
    ensures Inv(c, Apply(c, s, e))
  {
    match e
    case Check(airtimeMs, now) => CheckKeepsInv(c, s, airtimeMs, now);
    case Record(index, now) => RecordKeepsInv(c, s, index, now);
    case Abandon(index) => SumWithout(s.pending, index);
  }

  lemma {:induction false} RunKeepsInv(c: Config, s: State, events: seq<Event>)
    requires c.Valid() && Inv(c, s) && ValidRun(c, s, events)
    ensures Inv(c, Run(c, s, events))
    decreases |events|
  {
    if events == [] {
    } else {
      StepKeepsInv(c, s, events[0]);
      RunKeepsInv(c, Apply(c, s, events[0]), events[1..]);
    }
  }

  /** The bound in milliseconds: p percent of s seconds, if that is positive, and (k - 1) * A. */
  lemma BoundInMs(c: Config)
    requires c.Valid()
    ensures var cap := 10.0 * c.limit.windowSeconds as real * c.limit.maxPercent;
            c.BoundMs() == (if cap < 0.0 then 0.0 else cap) + ((c.maxInFlight - 1) * c.maxAirtimeMs) as real
  {
    CapInMs(c.limit);
    TimesIsProduct(c.maxInFlight - 1, c.maxAirtimeMs);
  }

  lemma RunWithinBound(c: Config, now: real, events: seq<Event>, end: real)
    requires c.Valid() && ValidRun(c, Start(now), events)
    ensures AirtimeIn(Run(c, Start(now), events).log, c.limit.Window(end)) as real <= c.BoundMs()
  {
    StartInv(c, now);
    RunKeepsInv(c, Start(now), events);
  }

  /** In every interleaving, every closed window holds at most cap + (maxInFlight - 1) * maxAirtimeMs. */
  lemma EveryWindowWithinBound(c: Config, now: real, events: seq<Event>, end: real)
    requires c.Valid() && ValidRun(c, Start(now), events)
    ensures var cap := 10.0 * c.limit.windowSeconds as real * c.limit.maxPercent;
            AirtimeIn(Run(c, Start(now), events).log, c.limit.Window(end)) as real
            <= (if cap < 0.0 then 0.0 else cap) + ((c.maxInFlight - 1) * c.maxAirtimeMs) as real
  {
    RunWithinBound(c, now, events, end);
    BoundInMs(c);
  }

  lemma {:induction false} RunConcat(c: Config, s: State, a: seq<Event>, b: seq<Event>)
    requires c.limit.Valid() && ValidRun(c, s, a) && ValidRun(c, Run(c, s, a), b)
    ensures ValidRun(c, s, a + b) && Run(c, s, a + b) == Run(c, Run(c, s, a), b)
    decreases |a|
  {
    if a == [] {
      assert a + b == b;
    } else {
      assert (a + b)[0] == a[0] && (a + b)[1..] == a[1..] + b;
      RunConcat(c, Apply(c, s, a[0]), a[1..], b);
    }
  }

  const ONE_MS_SEND := [Check(1, 0.0), Record(0, 0.0)]

  lemma OneMsSend(c: Config, s: State)
    requires c.Valid() && c.maxAirtimeMs >= 1 && s.pending == [] && s.clock == 0.0
    requires c.limit.Fits(AirtimeIn(s.log, c.limit.Window(0.0)), 1)
    ensures ValidRun(c, s, ONE_MS_SEND)
    ensures Run(c, s, ONE_MS_SEND) == State(s.log + [TxRecord(0.0, 1)], [], 0.0)
  {
    assert ONE_MS_SEND[1..] == [Record(0, 0.0)];
    assert Apply(c, s, ONE_MS_SEND[0]) == s.(pending := [1]);
    assert ONE_MS_SEND[1..][1..] == [];
  }

  /** n one-millisecond sends, one after the other, all at instant 0. */
  lemma {:induction false} SerialFill(c: Config, n: nat) returns (events: seq<Event>)
    requires c.Valid() && c.maxAirtimeMs >= 1 && n as real <= c.limit.CapMs()
    ensures ValidRun(c, Start(0.0), events)
    ensures var s := Run(c, Start(0.0), events);
            s.pending == [] && s.clock == 0.0 && AirtimeIn(s.log, c.limit.Window(0.0)) == n
  {
    if n == 0 {
      events := [];
    } else {
      var before := SerialFill(c, n - 1);
      var s := Run(c, Start(0.0), before);
      FitsIffWithinCap(c.limit, n - 1, 1);
      OneMsSend(c, s);
      AirtimeAppend(s.log, TxRecord(0.0, 1), c.limit.Window(0.0));
      RunConcat(c, Start(0.0), before, ONE_MS_SEND);
      events := before + ONE_MS_SEND;
    }
  }

  ghost predicate AllEqual(pending: seq<nat>, airtimeMs: nat) {
    forall i :: 0 <= i < |pending| ==> pending[i] == airtimeMs
  }

  /** k sends of one airtime check before any of them records. */
  lemma {:induction false} CheckTogether(c: Config, s: State, airtimeMs: nat, k: nat) returns (events: seq<Event>)
    requires c.Valid() && s.clock == 0.0 && |s.pending| + k <= c.maxInFlight && airtimeMs <= c.maxAirtimeMs
    requires c.limit.Fits(AirtimeIn(s.log, c.limit.Window(0.0)), airtimeMs) && AllEqual(s.pending, airtimeMs)
    ensures ValidRun(c, s, events)
    ensures var s' := Run(c, s, events);
            s'.log == s.log && s'.clock == 0.0 && |s'.pending| == |s.pending| + k && AllEqual(s'.pending, airtimeMs)
    decreases k
  {
    if k == 0 {
      events := [];
    } else {
      var e := Check(airtimeMs, 0.0);
      var rest := CheckTogether(c, Apply(c, s, e), airtimeMs, k - 1);
      events := [e] + rest;
      assert events[1..] == rest;
    }
  }

  lemma RecordFirst(c: Config, s: State)
    requires c.Valid() && s.clock == 0.0 && s.pending != []
    ensures Enabled(c, s, Record(0, 0.0))
    ensures Apply(c, s, Record(0, 0.0)) == State(s.log + [TxRecord(0.0, s.pending[0])], s.pending[1..], 0.0)
    ensures AirtimeIn(s.log + [TxRecord(0.0, s.pending[0])], c.limit.Window(0.0))
            == AirtimeIn(s.log, c.limit.Window(0.0)) + s.pending[0]
  {
    AirtimeAppend(s.log, TxRecord(0.0, s.pending[0]), c.limit.Window(0.0));
    assert Without(s.pending, 0) == s.pending[1..];
  }

  lemma {:induction false} RecordTogether(c: Config, s: State, airtimeMs: nat) returns (events: seq<Event>)
    requires c.Valid() && s.clock == 0.0 && AllEqual(s.pending, airtimeMs)
    ensures ValidRun(c, s, events)
    ensures AirtimeIn(Run(c, s, events).log, c.limit.Window(0.0))
            == AirtimeIn(s.log, c.limit.Window(0.0)) + Times(|s.pending|, airtimeMs)
    decreases |s.pending|
  {
    if s.pending == [] {
      events := [];
    } else {
      var e := Record(0, 0.0);
      RecordFirst(c, s);
      var rest := RecordTogether(c, Apply(c, s, e), airtimeMs);
      events := [e] + rest;
      assert events[1..] == rest;
    }
  }

  /** As many sends as may be in flight check together and then record together. */
  lemma AllTogether(c: Config, s: State, airtimeMs: nat) returns (events: seq<Event>)
    requires c.Valid() && s.pending == [] && s.clock == 0.0 && airtimeMs <= c.maxAirtimeMs
    requires c.limit.Fits(AirtimeIn(s.log, c.limit.Window(0.0)), airtimeMs)
    ensures ValidRun(c, s, events)
    ensures AirtimeIn(Run(c, s, events).log, c.limit.Window(0.0))
            == AirtimeIn(s.log, c.limit.Window(0.0)) + Times(c.maxInFlight, airtimeMs)
  {
    var checks := CheckTogether(c, s, airtimeMs, c.maxInFlight);
    var records := RecordTogether(c, Run(c, s, checks), airtimeMs);
    RunConcat(c, s, checks, records);
    events := checks + records;
  }

  /** maxInFlight sends that are checked together overshoot by all but one of their airtimes. */
  lemma OvershootingRun(c: Config, capMs: nat, airtimeMs: nat) returns (events: seq<Event>)
    requires c.Valid() && capMs as real <= c.limit.CapMs()
    requires 1 <= airtimeMs <= capMs && airtimeMs <= c.maxAirtimeMs
    ensures ValidRun(c, Start(0.0), events)
    ensures AirtimeIn(Run(c, Start(0.0), events).log, c.limit.Window(0.0))
            == capMs + Times(c.maxInFlight - 1, airtimeMs)
  {
    var fill := SerialFill(c, capMs - airtimeMs);
    FitsIffWithinCap(c.limit, capMs - airtimeMs, airtimeMs);
    var together := AllTogether(c, Run(c, Start(0.0), fill), airtimeMs);
    RunConcat(c, Start(0.0), fill, together);
    events := fill + together;
  }

  /** The bound is the best possible: whenever the cap is a whole number of milliseconds, some run attains it. */
  lemma BoundIsAttained(c: Config, capMs: nat) returns (events: seq<Event>)
    requires c.Valid() && 1 <= c.maxAirtimeMs <= capMs
    requires capMs as real == 10.0 * c.limit.windowSeconds as real * c.limit.maxPercent
    ensures ValidRun(c, Start(0.0), events)
    ensures AirtimeIn(Run(c, Start(0.0), events).log, c.limit.Window(0.0))
            == capMs + (c.maxInFlight - 1) * c.maxAirtimeMs
  {
    CapInMs(c.limit);
    TimesIsProduct(c.maxInFlight - 1, c.maxAirtimeMs);
    events := OvershootingRun(c, capMs, c.maxAirtimeMs);
  }

  /** Under a cap of less than a millisecond only sends of no airtime pass the check. */
  ghost predicate Silent(s: State) {
    && AllEqual(s.pending, 0)
    && forall i :: 0 <= i < |s.log| ==> s.log[i].airtimeMs == 0
  }

  lemma {:induction false} SilentRun(c: Config, s: State, events: seq<Event>)
    requires c.Valid() && c.limit.CapMs() < 1.0 && Silent(s) && ValidRun(c, s, events)
    ensures Silent(Run(c, s, events))
    decreases |events|
  {
    if events == [] {
    } else {
      if events[0].Check? {
        FitsIffWithinCap(c.limit, AirtimeIn(s.log, c.limit.Window(events[0].now)), events[0].airtimeMs);
      }
      SilentRun(c, Apply(c, s, events[0]), events[1..]);
    }
  }

  lemma {:induction false} SilentAirtime(log: seq<TxRecord>, w: Window)
    requires forall i :: 0 <= i < |log| ==> log[i].airtimeMs == 0
    ensures AirtimeIn(log, w) == 0
  {
    if log == [] {
    } else {
      SilentAirtime(log[..|log| - 1], w);
    }
  }

  /** The duty cycle rule as a promise about every run: no closed window ever holds more than the cap. */
  ghost predicate Enforced(c: Config)
    requires c.limit.Valid()
  {
    forall events, end: real | ValidRun(c, Start(0.0), events) ::
      WithinShare(c.limit, AirtimeIn(Run(c, Start(0.0), events).log, c.limit.Window(end)), 0)
  }

  /** One run whose log exceeds the cap in one window breaks the promise. */
  lemma ExceededOnce(c: Config, events: seq<Event>, end: real)
    requires c.Valid() && ValidRun(c, Start(0.0), events)
    requires AirtimeIn(Run(c, Start(0.0), events).log, c.limit.Window(end)) as real > c.limit.CapMs()
    ensures !Enforced(c)
  {
    ShareIffWithinCap(c.limit, AirtimeIn(Run(c, Start(0.0), events).log, c.limit.Window(end)), 0);
  }

  /** Sends that overshoot by a millisecond can break it wherever they may overlap and have airtime. */
  lemma OverlapExceeds(c: Config)
    requires c.Valid() && c.maxInFlight > 1 && c.maxAirtimeMs >= 1 && c.limit.CapMs() >= 1.0
    ensures !Enforced(c)
  {
    var events := OvershootingRun(c, c.limit.CapMs().Floor, 1);
    TimesGrows(1, c.maxInFlight - 1, 1);
    ExceededOnce(c, events, 0.0);
  }

  lemma NoRunExceeds(c: Config, events: seq<Event>, end: real)
    requires c.Valid() && ValidRun(c, Start(0.0), events) && c.limit.CapMs() >= 0.0
    requires c.maxInFlight == 1 || c.maxAirtimeMs == 0 || c.limit.CapMs() < 1.0
    ensures WithinShare(c.limit, AirtimeIn(Run(c, Start(0.0), events).log, c.limit.Window(end)), 0)
  {
    ShareIffWithinCap(c.limit, AirtimeIn(Run(c, Start(0.0), events).log, c.limit.Window(end)), 0);
    if c.maxInFlight == 1 || c.maxAirtimeMs == 0 {
      RunWithinBound(c, 0.0, events, end);
      TimesIsProduct(c.maxInFlight - 1, c.maxAirtimeMs);
    } else {
      SilentRun(c, Start(0.0), events);
      SilentAirtime(Run(c, Start(0.0), events).log, c.limit.Window(end));
    }
  }

  /** The tracker keeps that promise exactly when the cap is not negative, and sends are serialised or nothing
      with airtime can be sent. Even the empty log exceeds a negative cap. */
  lemma EnforcedIff(c: Config)
    requires c.Valid()
    ensures var cap := 10.0 * c.limit.windowSeconds as real * c.limit.maxPercent;
            Enforced(c) <==> cap >= 0.0 && (c.maxInFlight == 1 || c.maxAirtimeMs == 0 || cap < 1.0)
  {
    CapInMs(c.limit);
    if c.limit.CapMs() < 0.0 {
      ExceededOnce(c, [], 0.0);
    } else if c.maxInFlight == 1 || c.maxAirtimeMs == 0 || c.limit.CapMs() < 1.0 {
      forall events, end: real | ValidRun(c, Start(0.0), events)
        ensures WithinShare(c.limit, AirtimeIn(Run(c, Start(0.0), events).log, c.limit.Window(end)), 0)
      {
        NoRunExceeds(c, events, end);
      }
    } else {
      OverlapExceeds(c);
    }
  }

  const ID_SPACE: nat := 0x1_0000_0000

  /** The id of the n-th packet after the counter stood at `counter`. */
  function IdAfter(counter: nat, n: nat): (id: nat)
    ensures id < ID_SPACE
  {
    (counter + n) % ID_SPACE
  }

  /** Any 2^32 consecutive packets carry pairwise distinct ids, and the next one repeats the first. */
  lemma IdsDistinct(counter: nat, i: nat, j: nat)
    requires i < j
    ensures j - i < ID_SPACE ==> IdAfter(counter, i) != IdAfter(counter, j)
    ensures j - i == ID_SPACE ==> IdAfter(counter, i) == IdAfter(counter, j)
  {
    var a, b := counter + i, counter + j;
    var qa, qb := a / ID_SPACE, b / ID_SPACE;
    assert a == qa * ID_SPACE + a % ID_SPACE && b == qb * ID_SPACE + b % ID_SPACE;
    assert b - a == (qb - qa) * ID_SPACE + b % ID_SPACE - a % ID_SPACE;
  }

  /** How far counter' is ahead of a counter, on the circle of ids. */
  function Ahead(counter: nat, counter': nat): nat { (counter' - counter) % ID_SPACE }

  lemma MeetsAhead(c: nat, c': nat, i: nat, j: nat)
    requires IdAfter(c, i) == IdAfter(c', j) && i >= j
    ensures Ahead(c, c') <= i - j
  {
    var q, q' := (c + i) / ID_SPACE, (c' + j) / ID_SPACE;
    assert c' - c == i - j + (q' - q) * ID_SPACE;
    RemainderIsLeast(c' - c, i - j, q' - q);
  }

  lemma RemainderIsLeast(x: int, r: nat, q: int)
    requires x == r + q * ID_SPACE
    ensures x % ID_SPACE <= r
  {
    assert x - r == q * ID_SPACE && x - x % ID_SPACE == x / ID_SPACE * ID_SPACE;
  }

  lemma AheadMeets(c: nat, c': nat)
    ensures IdAfter(c, Ahead(c, c') + 1) == IdAfter(c', 1)
  {
    var q := (c' - c) / ID_SPACE;
    assert c' - c == q * ID_SPACE + Ahead(c, c');
    SameRemainder(c + Ahead(c, c') + 1, c' + 1, q);
  }

  lemma SameRemainder(x: nat, y: nat, q: int)
    requires y == x + q * ID_SPACE
    ensures x % ID_SPACE == y % ID_SPACE
  {
    assert y == x % ID_SPACE + (q + x / ID_SPACE) * ID_SPACE;
    assert y - y % ID_SPACE == y / ID_SPACE * ID_SPACE;
    assert x % ID_SPACE - y % ID_SPACE == (y / ID_SPACE - q - x / ID_SPACE) * ID_SPACE;
  }

  /** Some packet among the n that one run of a node sends and some among the n' of another share a counter block.
      Each run starts its counter anew, the source id stays. */
  ghost predicate RunsShareBlock(c: nat, n: nat, c': nat, n': nat, source: int)
    requires Bytes.Is32Bit(source)
  {
    exists i, j :: 1 <= i <= n && 1 <= j <= n' && Crypto.ShareBlock(IdAfter(c, i), source, IdAfter(c', j), source)
  }

  /** That happens exactly when both runs send, and one of the counters starts within the other run. */
  lemma RunsShareBlockIff(c: nat, n: nat, c': nat, n': nat, source: int)
    requires Bytes.Is32Bit(source)
    ensures RunsShareBlock(c, n, c', n', source) <==>
            n >= 1 && n' >= 1 && (Ahead(c, c') < n || Ahead(c', c) < n')
  {
    if RunsShareBlock(c, n, c', n', source) {
      var i, j :| 1 <= i <= n && 1 <= j <= n'
                  && Crypto.ShareBlock(IdAfter(c, i), source, IdAfter(c', j), source);
      Crypto.ShareBlockIff(IdAfter(c, i), source, IdAfter(c', j), source);
      if i >= j {
        MeetsAhead(c, c', i, j);
      } else {
        MeetsAhead(c', c, j, i);
      }
    }
    if n >= 1 && n' >= 1 && Ahead(c, c') < n {
      AheadMeets(c, c');
      Crypto.ShareBlockIff(IdAfter(c, Ahead(c, c') + 1), source, IdAfter(c', 1), source);
    }
    if n >= 1 && n' >= 1 && Ahead(c', c) < n' {
      AheadMeets(c', c);
      Crypto.ShareBlockIff(IdAfter(c, 1), source, IdAfter(c', Ahead(c', c) + 1), source);
    }
  }

  /** For the counters that a start draws, and runs too short to wrap, that is an overlap of two intervals. */
  lemma RestartSharesBlockIff(c: nat, n: nat, c': nat, n': nat, source: int)
    requires 1 <= c <= 0xFFFF && 1 <= c' <= 0xFFFF && Bytes.Is32Bit(source)
    requires n <= 0xFFFF_0000 && n' <= 0xFFFF_0000
    ensures RunsShareBlock(c, n, c', n', source) <==> n >= 1 && n' >= 1 && c < c' + n' && c' < c + n
  {
    RunsShareBlockIff(c, n, c', n', source);
    assert Ahead(c, c') == if c <= c' then c' - c else ID_SPACE - (c - c');
    assert Ahead(c', c) == if c' <= c then c - c' else ID_SPACE - (c' - c);
  }

  /** For instance, a node that starts at 100 and sends 50 packets, and after a restart starts at 120, reuses a
      block with its first packet; had it started at 150, it would not have. */
  lemma RestartReusesBlock(source: int)
    requires Bytes.Is32Bit(source)
    ensures RunsShareBlock(100, 50, 120, 1, source) && !RunsShareBlock(100, 50, 150, 1, source)
  {
    RestartSharesBlockIff(100, 50, 120, 1, source);
    RestartSharesBlockIff(100, 50, 150, 1, source);
  }

  lemma NextId(counter: nat, n: nat)
    ensures (IdAfter(counter, n) + 1) % ID_SPACE == IdAfter(counter, n + 1)
  {
    var a := counter + n;
    assert a == a / ID_SPACE * ID_SPACE + a % ID_SPACE;
  }

  class TxService {
    const duty: DutyCycleTracker
    ghost const config: Config
    var packetCounter: nat
    ghost var pending: seq<nat>
    ghost const firstCounter: nat
    ghost var issued: seq<nat>  // every packet id ever taken

    ghost function Abstract(): State
      reads this, duty
    {
      State(duty.log, pending, duty.clock)
    }

    ghost predicate Valid()
      reads this, duty
    {
      && duty.Valid() && config.Valid() && config.limit == duty.limit
      && Inv(config, Abstract())
      && packetCounter == IdAfter(firstCounter, |issued|)
      && forall i :: 0 <= i < |issued| ==> issued[i] == IdAfter(firstCounter, i + 1)
    }

    constructor (ghost config: Config, limit: Limit, counter: nat, ghost now: real)
      requires config.Valid() && config.limit == limit && counter < ID_SPACE
      ensures Valid() && fresh(duty) && Abstract() == Start(now) && issued == []
      ensures this.config == config && firstCounter == counter
    {
      duty := new DutyCycleTracker(limit, now);
      this.config, packetCounter, firstCounter := config, counter, counter;
      pending, issued := [], [];
      new;
      StartInv(config, now);
    }

    method NextPacketId() returns (id: nat)
      requires Valid()
      modifies this`packetCounter, this`issued
      ensures Valid() && issued == old(issued) + [id]
      ensures id == packetCounter == (old(packetCounter) + 1) % 0x1_0000_0000
    {
      NextId(firstCounter, |issued|);
      packetCounter := (packetCounter + 1) % ID_SPACE;
      id := packetCounter;
      issued := issued + [id];
    }

    /** The budget check of one send; from here until its record other sends may run. */
    method BeginSend(airtimeMs: nat, now: real) returns (accepted: bool)
      requires Valid() && Enabled(config, Abstract(), Check(airtimeMs, now))
      modifies this`pending, duty
      ensures Valid() && Abstract() == Apply(config, old(Abstract()), Check(airtimeMs, now))
      ensures accepted <==> |pending| == |old(pending)| + 1
    {
      CheckKeepsInv(config, Abstract(), airtimeMs, now);
      accepted := duty.CheckBudget(airtimeMs, now);
      if accepted {
        pending := pending + [airtimeMs];
      }
    }

    /** The rest of a send, once the radio has answered: only a result code of 0 is recorded. */
    method FinishSend(index: nat, airtimeMs: nat, resultCode: int, now: real)
      requires Valid() && Enabled(config, Abstract(), Record(index, now)) && airtimeMs == pending[index]
      modifies this`pending, duty
      ensures Valid()
      ensures Abstract()
              == Apply(config, old(Abstract()), if resultCode == 0 then Record(index, now) else Abandon(index))
    {
      StepKeepsInv(config, Abstract(), if resultCode == 0 then Record(index, now) else Abandon(index));
      if resultCode == 0 {
        duty.RecordTx(airtimeMs, now, now);
      }
      pending := Without(pending, index);
    }

    /** In every reachable state the window bound of the machine holds, and ids less than 2^32 apart differ. */
    lemma EveryRunIsSafe(end: real)
      requires Valid()
      ensures AirtimeIn(duty.log, config.limit.Window(end)) as real <= config.BoundMs()
      ensures forall i, j :: 0 <= i < j < |issued| && j - i < ID_SPACE ==> issued[i] != issued[j]
    {
      forall i, j | 0 <= i < j < |issued| && j - i < ID_SPACE ensures issued[i] != issued[j] {
        IdsDistinct(firstCounter, i + 1, j + 1);
      }
    }

    /** Any two packets that one service issues less than 2^32 apart use no common counter block, whichever node
        ids they carry. */
    lemma IssuedPacketsShareNoBlock(i: nat, j: nat, source: int, source': int)
      requires Valid() && i < j < |issued| && j - i < ID_SPACE
      requires Bytes.Is32Bit(source) && Bytes.Is32Bit(source')
      ensures Bytes.Is32Bit(issued[i]) && Bytes.Is32Bit(issued[j])
      ensures !Crypto.ShareBlock(issued[i], source, issued[j], source')
    {
      IdsDistinct(firstCounter, i + 1, j + 1);
      Crypto.ShareBlockIff(issued[i], source, issued[j], source');
    }
  }

  /** A service and the one that follows it under the same node id: some packets of the two use a common counter
      block exactly when both sent some, and one of the counters started within the other's run. */
  lemma ServicesShareBlockIff(before: TxService, after: TxService, source: int)
    requires before.Valid() && after.Valid() && Bytes.Is32Bit(source)
    ensures (exists i, j :: 0 <= i < |before.issued| && 0 <= j < |after.issued|
                            && Bytes.Is32Bit(before.issued[i]) && Bytes.Is32Bit(after.issued[j])
                            && Crypto.ShareBlock(before.issued[i], source, after.issued[j], source))
            <==> && |before.issued| >= 1 && |after.issued| >= 1
                 && (Ahead(before.firstCounter, after.firstCounter) < |before.issued|
                     || Ahead(after.firstCounter, before.firstCounter) < |after.issued|)
  {
    var c, n, c', n' := before.firstCounter, |before.issued|, after.firstCounter, |after.issued|;
    RunsShareBlockIff(c, n, c', n', source);
    if RunsShareBlock(c, n, c', n', source) {
      var i, j :| 1 <= i <= n && 1 <= j <= n'
                  && Crypto.ShareBlock(IdAfter(c, i), source, IdAfter(c', j), source);
      assert before.issued[i - 1] == IdAfter(c, i) && after.issued[j - 1] == IdAfter(c', j);
    }
    if i, j :| 0 <= i < n && 0 <= j < n' && Bytes.Is32Bit(before.issued[i]) && Bytes.Is32Bit(after.issued[j])
               && Crypto.ShareBlock(before.issued[i], source, after.issued[j], source) {
      assert before.issued[i] == IdAfter(c, i + 1) && after.issued[j] == IdAfter(c', j + 1);
    }
  }
}
