/** The periodic NodeInfo broadcast loop as a timed state machine over its awaits, and the class that runs it. */
module Broadcasting {
  import opened Options

  const INTERVAL_MIN_MINUTES := 5
  const INTERVAL_MAX_MINUTES := 1440

  function ClampIntervalMinutes(value: int): nat {
    if value <= 0 then 0
    else if value < INTERVAL_MIN_MINUTES then INTERVAL_MIN_MINUTES
    else if value > INTERVAL_MAX_MINUTES then INTERVAL_MAX_MINUTES
    else value
  }

  function Gap(a: int, b: int): nat { if a < b then b - a else a - b }

  /** A positive value becomes the nearest number of minutes from 5 to 1440, any other pauses. */
  lemma ClampsToNearest(value: int, minutes: int)
    ensures value <= 0 <==> ClampIntervalMinutes(value) == 0
    ensures value > 0 ==> 5 <= ClampIntervalMinutes(value) <= 1440
    ensures value > 0 && 5 <= minutes <= 1440 ==> Gap(ClampIntervalMinutes(value), value) <= Gap(minutes, value)
  {
  }

  /** Intervals that a hot reload can leave behind, in seconds: paused, or 5 minutes to 24 hours. */
  ghost predicate Supported(interval: nat) {
    interval == 0 || 300 <= interval <= 86400
  }

  /** Where the loop is suspended. */
  datatype Loop =
    | Idle                      // never started, or stopped
    | Scheduled                 // task created, first step not run yet
    | Startup(deadline: real)   // waiting for the startup delay or a changed interval
    | Paused                    // interval is 0, waiting for a changed interval
    | Sending                   // awaiting the outcome of a periodic broadcast
    | Sleeping(deadline: real)  // waiting for the next due time or a changed interval

  /** A periodic attempt: when it started, under which interval, and how many sends had succeeded by then. */
  datatype Attempt = Attempt(start: real, interval: nat, sentBefore: nat)

  datatype State = State(
    loop: Loop,
    changed: bool,              // the interval_changed event
    interval: nat,              // seconds
    startedAt: Option<real>,
    lastSentAt: Option<real>,
    clock: real,
    attempts: seq<Attempt>,     // every periodic attempt so far
    sent: seq<real>)            // completion time of every successful send, periodic or "Send Now"

  datatype Event =
    | Start(now: real)
    | Stop(now: real)
    | SetInterval(minutes: int, now: real)
    | Resume(now: real)                       // the loop's wait is over
    | PeriodicReturned(ok: bool, now: real)   // the loop's own broadcast finished
    | SendNowReturned(ok: bool, now: real)    // a concurrent broadcast_now finished

  predicate Ready(s: State, now: real) {
    match s.loop
    case Scheduled => true
    case Startup(deadline) => s.changed || now >= deadline
    case Paused => s.changed
    case Sleeping(deadline) => s.changed || now >= deadline
    case _ => false
  }

  predicate Enabled(s: State, e: Event) {
    && s.clock <= e.now
    && (e.Resume? ==> Ready(s, e.now))
    && (e.PeriodicReturned? ==> s.loop == Sending)
  }

  predicate Due(s: State) {
    s.interval != 0 && (s.lastSentAt.None? || s.clock >= s.lastSentAt.value + s.interval as real)
  }

  /** Where the loop comes to rest when it runs from its head. */
  function Settle(s: State): State {
    if s.interval == 0 then s.(loop := Paused, changed := false)
    else if Due(s) then s.(loop := Sending, attempts := s.attempts + [Attempt(s.clock, s.interval, |s.sent|)])
    else s.(loop := Sleeping(s.lastSentAt.value + s.interval as real), changed := false)
  }

  /** Where it comes to rest when it runs on from a finished broadcast. */
  function SettleAfterSend(s: State): State {
    if s.interval != 0 && s.lastSentAt.None?
    then s.(loop := Sleeping(s.clock + s.interval as real), changed := false)
    else Settle(s.(changed := false))
  }

  function Succeeded(s: State, ok: bool): State {
    if ok then s.(lastSentAt := Some(s.clock), sent := s.sent + [s.clock]) else s
  }

  function Reload(s: State, startupDelay: nat, minutes: int): State {
    var interval := ClampIntervalMinutes(minutes) * 60;
    var reanchor := interval > 0 && s.lastSentAt.None? && s.startedAt.Some?;
    s.(interval := interval, changed := true,
       startedAt := if reanchor then Some(s.clock - startupDelay as real) else s.startedAt)
  }

  function Step(s: State, startupDelay: nat, e: Event): State
    requires Enabled(s, e)
  {
    var s := s.(clock := e.now);
    match e
    case Start(_) => if s.loop.Idle? then s.(loop := Scheduled, startedAt := Some(s.clock)) else s
    case Stop(_) => s.(loop := Idle)
    case SetInterval(minutes, _) => Reload(s, startupDelay, minutes)
    case Resume(_) =>
      if s.loop.Scheduled? && startupDelay > 0
      then s.(loop := Startup(s.clock + startupDelay as real), changed := false)
      else Settle(s)
    case PeriodicReturned(ok, _) => SettleAfterSend(Succeeded(s, ok))
    case SendNowReturned(ok, _) => Succeeded(s, ok)
  }

  ghost predicate ValidRun(s: State, startupDelay: nat, events: seq<Event>)
    decreases |events|
  {
    events == [] ||
    (Enabled(s, events[0]) && ValidRun(Step(s, startupDelay, events[0]), startupDelay, events[1..]))
  }

  ghost function Run(s: State, startupDelay: nat, events: seq<Event>): State
    requires ValidRun(s, startupDelay, events)
    decreases |events|
  {
    if events == [] then s else Run(Step(s, startupDelay, events[0]), startupDelay, events[1..])
  }

  function Initial(interval: nat, now: real): State {
    State(Idle, false, interval, None, None, now, [], [])
  }

  /** Successful sends complete in order, and the last of them is last_sent_at. */
  ghost predicate InOrder(sent: seq<real>, lastSentAt: Option<real>, clock: real) {
    && (forall i, j :: 0 <= i < j < |sent| ==> sent[i] <= sent[j])
    && (forall i :: 0 <= i < |sent| ==> sent[i] <= clock)
    && lastSentAt == if sent == [] then None else Some(sent[|sent| - 1])
  }

  ghost predicate SentInOrder(s: State) { InOrder(s.sent, s.lastSentAt, s.clock) }

  /** A periodic attempt starts under a non-zero interval, that long or longer after the latest success. */
  ghost predicate AttemptWasDue(a: Attempt, sent: seq<real>) {
    && a.interval > 0 && a.sentBefore <= |sent|
    && (a.sentBefore > 0 ==> a.start >= sent[a.sentBefore - 1] + a.interval as real)
  }

  /** No wake-up is lost: a waiting loop has been signalled, or its wait ends by the next due time. */
  ghost predicate WillWakeInTime(s: State) {
    match s.loop
    case Paused => s.changed || s.interval == 0
    case Sleeping(deadline) =>
      s.changed ||
      (&& s.interval > 0
       && deadline <= (if s.lastSentAt.Some? then s.lastSentAt.value else s.clock) + s.interval as real)
    case _ => true
  }

  ghost predicate Known(interval: nat, initialInterval: nat) {
    interval == initialInterval || Supported(interval)
  }

  ghost predicate HistoryInv(s: State, initialInterval: nat) {
    && Known(s.interval, initialInterval)
    && SentInOrder(s)
    && forall i :: 0 <= i < |s.attempts| ==>
         AttemptWasDue(s.attempts[i], s.sent) && Known(s.attempts[i].interval, initialInterval)
  }

  ghost predicate Inv(s: State, initialInterval: nat) {
    HistoryInv(s, initialInterval) && WillWakeInTime(s)
  }

  lemma SettleKeepsInv(s: State, initialInterval: nat)
    requires HistoryInv(s, initialInterval)
    ensures Inv(Settle(s), initialInterval)
  {
  }

  lemma SettleAfterSendKeepsInv(s: State, initialInterval: nat)
    requires HistoryInv(s, initialInterval)
    ensures Inv(SettleAfterSend(s), initialInterval)
  {
    SettleKeepsInv(s.(changed := false), initialInterval);
  }

  lemma SuccessKeepsHistory(s: State, ok: bool, initialInterval: nat)
    requires HistoryInv(s, initialInterval)
    ensures HistoryInv(Succeeded(s, ok), initialInterval)
  {
    assert forall i :: 0 <= i < |s.attempts| ==> AttemptWasDue(s.attempts[i], s.sent + [s.clock]);
  }

  /** A concurrent success only moves the due time out, a reload signals the loop. */
  lemma OtherTasksKeepInv(s: State, startupDelay: nat, minutes: int, ok: bool, initialInterval: nat)
    requires Inv(s, initialInterval)
    ensures Inv(Succeeded(s, ok), initialInterval) && Inv(Reload(s, startupDelay, minutes), initialInterval)
  {
    SuccessKeepsHistory(s, ok, initialInterval);
  }

  lemma StepKeepsInv(s: State, startupDelay: nat, e: Event, initialInterval: nat)
    requires Inv(s, initialInterval) && Enabled(s, e)
    ensures Inv(Step(s, startupDelay, e), initialInterval)
  {
    var now := s.(clock := e.now);
    match e
    case SetInterval(minutes, _) => OtherTasksKeepInv(now, startupDelay, minutes, false, initialInterval);
    case Resume(_) => SettleKeepsInv(now, initialInterval);
    case PeriodicReturned(ok, _) =>
      SuccessKeepsHistory(now, ok, initialInterval);
      SettleAfterSendKeepsInv(Succeeded(now, ok), initialInterval);
    case SendNowReturned(ok, _) => OtherTasksKeepInv(now, startupDelay, 0, ok, initialInterval);
    case _ =>
  }

  /** In every run, from boot on: no lost wake-up, no sleep past a due time, no premature attempt. */
  lemma {:induction false} EveryRunKeepsInv(s: State, startupDelay: nat, events: seq<Event>, initialInterval: nat)
    requires Inv(s, initialInterval) && ValidRun(s, startupDelay, events)
    ensures Inv(Run(s, startupDelay, events), initialInterval)
    decreases |events|
  {
    if events == [] {
    } else {
      StepKeepsInv(s, startupDelay, events[0], initialInterval);
      EveryRunKeepsInv(Step(s, startupDelay, events[0]), startupDelay, events[1..], initialInterval);
    }
  }

  /** Read off for a broadcaster booted with a supported interval: a periodic attempt never starts within
      five minutes of any send that succeeded before it, however the interval was reloaded. */
  lemma PeriodicAttemptsArePolite(interval: nat, startupDelay: nat, boot: real, events: seq<Event>, i: nat, j: nat)
    requires Supported(interval) && ValidRun(Initial(interval, boot), startupDelay, events)
    requires var s := Run(Initial(interval, boot), startupDelay, events);
             i < |s.attempts| && j < s.attempts[i].sentBefore
    ensures var s := Run(Initial(interval, boot), startupDelay, events);
            s.attempts[i].sentBefore <= |s.sent| && s.attempts[i].start >= s.sent[j] + 300.0
  {
    EveryRunKeepsInv(Initial(interval, boot), startupDelay, events, interval);
    var s := Run(Initial(interval, boot), startupDelay, events);
    assert AttemptWasDue(s.attempts[i], s.sent);
  }

  /** At any time in any run, a loop asleep with a timeout has been signalled, or nothing was ever sent, or it
      wakes no later than the latest success plus the current interval. */
  lemma NeverSleepsPastDue(interval: nat, startupDelay: nat, boot: real, events: seq<Event>)
    requires ValidRun(Initial(interval, boot), startupDelay, events)
    ensures var s := Run(Initial(interval, boot), startupDelay, events);
            s.loop.Sleeping? ==>
              s.changed || s.lastSentAt.None? || s.loop.deadline <= s.lastSentAt.value + s.interval as real
    ensures var s := Run(Initial(interval, boot), startupDelay, events);
            s.loop.Paused? ==> s.changed || s.interval == 0
  {
    EveryRunKeepsInv(Initial(interval, boot), startupDelay, events, interval);
  }

  lemma StaysInOrder(sent: seq<real>, lastSentAt: Option<real>, clock: real, now: real)
    requires InOrder(sent, lastSentAt, clock) && clock <= now
    ensures InOrder(sent, lastSentAt, now) && InOrder(sent + [now], Some(now), now)
  {
  }

  predicate IsSuccess(e: Event) {
    (e.PeriodicReturned? || e.SendNowReturned?) && e.ok
  }

  lemma StepSends(s: State, startupDelay: nat, e: Event)
    requires Enabled(s, e)
    ensures var next := Step(s, startupDelay, e);
            && next.clock == e.now
            && next.sent == (if IsSuccess(e) then s.sent + [e.now] else s.sent)
            && next.lastSentAt == (if IsSuccess(e) then Some(e.now) else s.lastSentAt)
  {
  }

  /** last_sent_at never decreases: sends are only ever added at the end, in time order. */
  lemma {:induction false} SentOnlyGrows(s: State, startupDelay: nat, events: seq<Event>)
    requires SentInOrder(s) && ValidRun(s, startupDelay, events)
    ensures var s' := Run(s, startupDelay, events);
            SentInOrder(s') && s.sent <= s'.sent
    decreases |events|
  {
    if events == [] {
    } else {
      var next := Step(s, startupDelay, events[0]);
      StepSends(s, startupDelay, events[0]);
      StaysInOrder(s.sent, s.lastSentAt, s.clock, events[0].now);
      SentOnlyGrows(next, startupDelay, events[1..]);
      assert s.sent <= next.sent;
    }
  }

  lemma LastSentNeverDecreases(s: State, startupDelay: nat, events: seq<Event>)
    requires SentInOrder(s) && ValidRun(s, startupDelay, events) && s.lastSentAt.Some?
    ensures var s' := Run(s, startupDelay, events);
            s'.lastSentAt.Some? && s.lastSentAt.value <= s'.lastSentAt.value
  {
    SentOnlyGrows(s, startupDelay, events);
    var s' := Run(s, startupDelay, events);
    assert s'.sent[|s.sent| - 1] == s.lastSentAt.value;
  }

  /** While the interval is 0 and every reload keeps it 0, no periodic attempt starts. */
  lemma {:induction false} PauseHolds(s: State, startupDelay: nat, events: seq<Event>)
    requires ValidRun(s, startupDelay, events) && s.interval == 0
    requires forall i :: 0 <= i < |events| && events[i].SetInterval? ==> ClampIntervalMinutes(events[i].minutes) == 0
    ensures Run(s, startupDelay, events).attempts == s.attempts
    decreases |events|
  {
    if events == [] {
    } else {
      PauseHolds(Step(s, startupDelay, events[0]), startupDelay, events[1..]);
    }
  }

  /** A reload reaches a waiting loop at once: the loop may resume immediately, and it then pauses, fires, or
      sleeps until exactly last_sent_at + the new interval. */
  lemma ReloadTakesEffect(s: State, startupDelay: nat, minutes: int, now: real)
    requires s.clock <= now && (s.loop.Startup? || s.loop.Paused? || s.loop.Sleeping?)
    ensures var s1 := Step(s, startupDelay, SetInterval(minutes, now));
            && Enabled(s1, Resume(now))
            && var s2 := Step(s1, startupDelay, Resume(now));
               var notYetDue := s.lastSentAt.Some? && now < s.lastSentAt.value + s1.interval as real;
               s2.loop == if s1.interval == 0 then Paused
                          else if notYetDue then Sleeping(s.lastSentAt.value + s1.interval as real)
                          else Sending
  {
  }

  /** A reload while a broadcast is in flight is picked up when that broadcast returns: the loop then pauses,
      sleeps out the new interval from the latest success or, if nothing was ever sent, from now, or fires. */
  lemma ReloadDuringSendTakesEffect(
    s: State, startupDelay: nat, minutes: int, now: real, ok: bool, returned: real)
    requires s.clock <= now <= returned && s.loop.Sending?
    ensures var s1 := Step(s, startupDelay, SetInterval(minutes, now));
            var s2 := Step(s1, startupDelay, PeriodicReturned(ok, returned));
            var from := if ok || s.lastSentAt.None? then returned else s.lastSentAt.value;
            s2.loop == if s1.interval == 0 then Paused
                       else if returned < from + s1.interval as real then Sleeping(from + s1.interval as real)
                       else Sending
  {
  }

  /** A running loop can act on a reload at once, except while a broadcast is in flight, and except between
      start() and its first step when there is a startup delay: that step clears the event and waits. */
  lemma ReloadIsPromptIff(s: State, startupDelay: nat, minutes: int, now: real)
    requires s.clock <= now && !s.loop.Idle?
    ensures var s1 := Step(s, startupDelay, SetInterval(minutes, now));
            (Enabled(s1, Resume(now)) && Step(s1, startupDelay, Resume(now)) == Settle(s1)
             <==> !s.loop.Sending? && !(s.loop.Scheduled? && startupDelay > 0))
  {
  }

  // Starting and stopping

  /** Starting schedules an idle loop and does nothing to a running one; stopping makes any loop idle. */
  lemma StartStopIs(s: State, startupDelay: nat, now: real)
    requires s.clock <= now
    ensures var started := Step(s, startupDelay, Start(now));
            if s.loop.Idle? then
              started.loop == Scheduled && NextDueAt(started, startupDelay).Some? == (s.interval > 0)
            else started == s.(clock := now)
    ensures Step(s, startupDelay, Stop(now)) == s.(clock := now, loop := Idle)
  {
  }

  /** A stopped loop makes no attempt until it is started again, whatever else happens. */
  lemma {:induction false} StoppedStaysQuiet(s: State, startupDelay: nat, events: seq<Event>)
    requires s.loop.Idle? && ValidRun(s, startupDelay, events)
    requires forall i :: 0 <= i < |events| ==> !events[i].Start?
    ensures Run(s, startupDelay, events).loop.Idle? && Run(s, startupDelay, events).attempts == s.attempts
    decreases |events|
  {
    if events == [] {
    } else {
      StoppedStaysQuiet(Step(s, startupDelay, events[0]), startupDelay, events[1..]);
    }
  }

  // When a resting loop wakes

  /** The loop's own steps leave no stale signal behind: a loop at rest waits, and does not spin. */
  lemma RestsUnsignalled(s: State, startupDelay: nat, e: Event)
    requires Enabled(s, e) && (e.Resume? || e.PeriodicReturned?)
    ensures var next := Step(s, startupDelay, e);
            (e.PeriodicReturned? || !next.loop.Sending?) ==> !next.changed
  {
  }

  /** Without a signal a paused loop stays, and a waiting one goes on exactly from its deadline. */
  lemma WakesExactlyAtDeadline(s: State, now: real)
    requires s.clock <= now && !s.changed
    ensures s.loop.Paused? ==> !Enabled(s, Resume(now))
    ensures s.loop.Startup? || s.loop.Sleeping? ==> (Enabled(s, Resume(now)) <==> s.loop.deadline <= now)
  {
  }

  // The startup delay, and the time of the next broadcast that the dashboard shows

  /** The first step of a loop with a startup delay waits it out to the end, unless the interval changes. */
  lemma StartupWaitIs(s: State, startupDelay: nat, now: real, later: real)
    requires s.loop.Scheduled? && startupDelay > 0 && s.clock <= now <= later
    ensures var s1 := Step(s, startupDelay, Resume(now));
            Enabled(s1, Resume(later)) <==> later >= now + startupDelay as real
  {
  }

  /** ... and then the first attempt is made at once, or the loop pauses. */
  lemma StartupWaitEnds(s: State, startupDelay: nat, now: real)
    requires s.loop.Scheduled? && startupDelay > 0 && s.clock <= now && s.lastSentAt.None?
    ensures var s1 := Step(s, startupDelay, Resume(now));
            var s2 := Step(s1, startupDelay, Resume(now + startupDelay as real));
            if s.interval == 0 then s2.loop == Paused && s2.attempts == s.attempts
            else s2.loop == Sending
                 && s2.attempts == s.attempts + [Attempt(now + startupDelay as real, s.interval, |s.sent|)]
  {
  }

  /** No attempt was made before the startup delay was over, and the loop will not make one. */
  ghost predicate WaitsUntil(s: State, startupDelay: nat, start: real) {
    && (forall i :: 0 <= i < |s.attempts| ==> s.attempts[i].start >= start)
    && match s.loop
       case Idle => false
       case Scheduled => s.clock + startupDelay as real >= start
       case Startup(deadline) => deadline >= start && !s.changed
       case _ => s.clock >= start
  }

  predicate Undisturbed(e: Event) { !e.Start? && !e.Stop? && !e.SetInterval? }

  lemma {:induction false} RunWaitsUntil(s: State, startupDelay: nat, events: seq<Event>, start: real)
    requires WaitsUntil(s, startupDelay, start) && ValidRun(s, startupDelay, events)
    requires forall i :: 0 <= i < |events| ==> Undisturbed(events[i])
    ensures WaitsUntil(Run(s, startupDelay, events), startupDelay, start)
    decreases |events|
  {
    if events == [] {
    } else {
      RunWaitsUntil(Step(s, startupDelay, events[0]), startupDelay, events[1..], start);
    }
  }

  /** From a start at t, with no reload, no periodic attempt starts before the startup delay is over. */
  lemma NoAttemptBeforeStartupDelay(
    interval: nat, startupDelay: nat, boot: real, t: real, events: seq<Event>, i: nat)
    requires ValidRun(Initial(interval, boot), startupDelay, [Start(t)] + events)
    requires forall i :: 0 <= i < |events| ==> Undisturbed(events[i])
    requires i < |Run(Initial(interval, boot), startupDelay, [Start(t)] + events).attempts|
    ensures Run(Initial(interval, boot), startupDelay, [Start(t)] + events).attempts[i].start
            >= t + startupDelay as real
  {
    assert ([Start(t)] + events)[1..] == events;
    var s := Step(Initial(interval, boot), startupDelay, Start(t));
    RunWaitsUntil(s, startupDelay, events, t + startupDelay as real);
  }

  /** next_due_at: nothing while stopped or paused, the end of the startup delay before the first success. */
  function NextDueAt(s: State, startupDelay: nat): Option<real> {
    if s.loop.Idle? || s.interval == 0 then None
    else if s.lastSentAt.Some? then Some(s.lastSentAt.value + s.interval as real)
    else if s.startedAt.Some? then Some(s.startedAt.value + startupDelay as real)
    else None
  }

  /** The dashboard shows the startup delay after a start, "now" after a reload before the first success, and
      after a success one interval from it. */
  lemma NextDueIs(s: State, startupDelay: nat, e: Event)
    requires Enabled(s, e)
    ensures var next := NextDueAt(Step(s, startupDelay, e), startupDelay);
            && (e.Start? && s.loop.Idle? && s.lastSentAt.None? && s.interval > 0 ==>
                  next == Some(e.now + startupDelay as real))
            && (e.SetInterval? && !s.loop.Idle? && s.lastSentAt.None? && s.startedAt.Some? && e.minutes > 0 ==>
                  next == Some(e.now))
            && (IsSuccess(e) && !s.loop.Idle? && s.interval > 0 ==> next == Some(e.now + s.interval as real))
            && (e.SetInterval? && e.minutes <= 0 ==>
                  next == None && Step(s, startupDelay, e).startedAt == s.startedAt)
  {
  }

  /** A sleeping loop that was not signalled wakes no later than the time shown, once something was sent. */
  lemma WakesByNextDue(s: State, startupDelay: nat, initialInterval: nat)
    requires Inv(s, initialInterval) && s.loop.Sleeping? && !s.changed && s.lastSentAt.Some?
    ensures NextDueAt(s, startupDelay).Some? && s.loop.deadline <= NextDueAt(s, startupDelay).value
  {
  }

  /** After a failed attempt the loop pauses only if nothing was ever sent; otherwise, unless a reload or a
      Send Now made it not due, it starts the next attempt at the same instant. */
  lemma AfterFailure(s: State, startupDelay: nat, now: real)
    requires s.clock <= now && s.loop.Sending? && s.interval > 0
    ensures var s1 := Step(s, startupDelay, PeriodicReturned(false, now));
            && (s1.loop == Sleeping(now + s.interval as real) <==>
                s.lastSentAt.None? || s.lastSentAt.value == now)
            && (s1.loop == Sending && |s1.attempts| == |s.attempts| + 1 <==>
                s.lastSentAt.Some? && now >= s.lastSentAt.value + s.interval as real)
  {
  }

  /** So as long as sends keep failing, attempts repeat without bound and without any time passing. */
  lemma {:induction false} FailuresRetryWithoutPause(s: State, startupDelay: nat, n: nat) returns (events: seq<Event>)
    requires s.loop.Sending? && Due(s) && s.lastSentAt.Some?
    ensures |events| == n && ValidRun(s, startupDelay, events)
    ensures forall i :: 0 <= i < n ==> events[i] == PeriodicReturned(false, s.clock)
    ensures var s' := Run(s, startupDelay, events);
            s'.loop == Sending && s'.clock == s.clock && |s'.attempts| == |s.attempts| + n
    decreases n
  {
    if n == 0 {
      events := [];
    } else {
      var e := PeriodicReturned(false, s.clock);
      var rest := FailuresRetryWithoutPause(Step(s, startupDelay, e), startupDelay, n - 1);
      events := [e] + rest;
      assert events[1..] == rest;
    }
  }

  class NodeInfoBroadcaster {
    const startupDelay: nat
    ghost const initialInterval: nat
    var interval: nat
    var running: bool
    var startedAt: Option<real>
    var lastSentAt: Option<real>
    var intervalChanged: bool
    var loop: Loop
    ghost var clock: real
    ghost var attempts: seq<Attempt>
    ghost var sent: seq<real>

    ghost function Abstract(): State
      reads this
    {
      State(loop, intervalChanged, interval, startedAt, lastSentAt, clock, attempts, sent)
    }

    ghost predicate Valid()
      reads this
    {
      Inv(Abstract(), initialInterval) && (running <==> !loop.Idle?)
    }

    constructor (startupDelay: nat, interval: nat, ghost now: real)
      ensures Valid() && Abstract() == Initial(interval, now)
      ensures !running && !intervalChanged && lastSentAt == startedAt == None && sent == []
      ensures this.startupDelay == startupDelay && initialInterval == interval
    {
      this.startupDelay, this.interval, initialInterval := startupDelay, interval, interval;
      running, intervalChanged, loop := false, false, Idle;
      startedAt, lastSentAt := None, None;
      clock, attempts, sent := now, [], [];
    }

    function NextDue(): (due: Option<real>)
      requires Valid()
      reads this
      ensures due == NextDueAt(Abstract(), startupDelay)
    {
      if !running then None
      else if interval == 0 then None
      else if lastSentAt.Some? then Some(lastSentAt.value + interval as real)
      else if startedAt.Some? then Some(startedAt.value + startupDelay as real)
      else None
    }

    method StartLoop(now: real)
      requires Valid() && Enabled(Abstract(), Start(now))
      modifies this
      ensures Valid() && Abstract() == Step(old(Abstract()), startupDelay, Start(now))
    {
      clock := now;
      if !running {
        running, startedAt, loop := true, Some(now), Scheduled;
      }
    }

    method StopLoop(now: real)
      requires Valid() && Enabled(Abstract(), Stop(now))
      modifies this
      ensures Valid() && Abstract() == Step(old(Abstract()), startupDelay, Stop(now))
    {
      clock := now;
      running, loop := false, Idle;
    }

    method SetIntervalMinutes(minutes: int, now: real) returns (clamped: nat)
      requires Valid() && Enabled(Abstract(), SetInterval(minutes, now))
      modifies this
      ensures Valid() && Abstract() == Step(old(Abstract()), startupDelay, SetInterval(minutes, now))
      ensures clamped * 60 == interval && Supported(interval)
    {
      StepKeepsInv(Abstract(), startupDelay, SetInterval(minutes, now), initialInterval);
      clock := now;
      clamped := ClampIntervalMinutes(minutes);
      interval := clamped * 60;
      if interval > 0 && lastSentAt.None? && startedAt.Some? {
        startedAt := Some(now - startupDelay as real);
      }
      intervalChanged := true;
    }

    predicate IsDueNow(now: real)
      reads this
    {
      interval != 0 && (lastSentAt.None? || now >= lastSentAt.value + interval as real)
    }

    function SleepUntilNext(now: real): real
      reads this
    {
      if interval == 0 then 0.0
      else if lastSentAt.None? then interval as real
      else
        var remaining := lastSentAt.value + interval as real - now;
        if remaining < 0.0 then 0.0 else remaining
    }

    /** The `while self._running` loop from one await to the next; `afterSend` enters it behind the broadcast. */
    method RunToAwait(now: real, afterSend: bool)
      requires running && clock == now
      modifies this`loop, this`intervalChanged, this`attempts
      ensures Abstract() == if afterSend then SettleAfterSend(old(Abstract())) else Settle(old(Abstract()))
    {
      var behindSend := afterSend;
      ghost var rounds := 2;
      while running
        invariant attempts == old(attempts) && loop == old(loop)
        invariant rounds == 2 ==> behindSend == afterSend && intervalChanged == old(intervalChanged)
        invariant rounds == 1 ==> afterSend && !behindSend && !intervalChanged && (interval == 0 || IsDueNow(now))
        invariant rounds == 1 ==> interval == 0 || lastSentAt.Some?
        invariant 1 <= rounds <= 2
        decreases rounds
      {
        rounds := rounds - 1;
        if !behindSend {
          if interval == 0 {
            intervalChanged := false;
            loop := Paused;
            return;
          }
          if IsDueNow(now) {
            attempts := attempts + [Attempt(now, interval, |sent|)];
            loop := Sending;
            return;
          }
        }
        behindSend := false;
        intervalChanged := false;
        var sleepSeconds := SleepUntilNext(now);
        if sleepSeconds <= 0.0 {
          continue;
        }
        loop := Sleeping(now + sleepSeconds);
        return;
      }
    }

    method ResumeLoop(now: real)
      requires Valid() && Enabled(Abstract(), Resume(now))
      modifies this
      ensures Valid() && Abstract() == Step(old(Abstract()), startupDelay, Resume(now))
    {
      StepKeepsInv(Abstract(), startupDelay, Resume(now), initialInterval);
      clock := now;
      if loop.Scheduled? && startupDelay > 0 {
        intervalChanged := false;
        loop := Startup(now + startupDelay as real);
      } else {
        RunToAwait(now, false);
      }
    }

    /** The end of broadcast_now, shared by the loop and the "Send Now" button. */
    method FinishBroadcast(ok: bool, now: real)
      modifies this`lastSentAt, this`sent, this`clock
      ensures Abstract() == Succeeded(old(Abstract()).(clock := now), ok)
    {
      clock := now;
      if ok {
        lastSentAt := Some(now);
        sent := sent + [now];
      }
    }

    method SendNowBroadcastReturned(ok: bool, now: real)
      requires Valid() && Enabled(Abstract(), SendNowReturned(ok, now))
      modifies this
      ensures Valid() && Abstract() == Step(old(Abstract()), startupDelay, SendNowReturned(ok, now))
    {
      StepKeepsInv(Abstract(), startupDelay, SendNowReturned(ok, now), initialInterval);
      FinishBroadcast(ok, now);
    }

    method PeriodicBroadcastReturned(ok: bool, now: real)
      requires Valid() && Enabled(Abstract(), PeriodicReturned(ok, now))
      modifies this
      ensures Valid() && Abstract() == Step(old(Abstract()), startupDelay, PeriodicReturned(ok, now))
    {
      StepKeepsInv(Abstract(), startupDelay, PeriodicReturned(ok, now), initialInterval);
      FinishBroadcast(ok, now);
      RunToAwait(now, true);
    }
  }
}
