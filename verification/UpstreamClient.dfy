/** The upstream store-and-forward buffer: enqueues and overflow evictions interleave with a flush whose send
    is an await between the peek and the pop. */
module Upstream {
  import opened Options
  import opened RateLimiting

  /** An abstract client: the messages ever accepted, how many have left the buffer at its front, which one is
      being sent, and which ones (by position) completed their send. */
  datatype State = State(
    accepted: nat, left: nat, sending: Option<nat>, delivered: seq<nat>, overflows: nat)
  {
    function Buffered(): int { accepted - left }
  }

  datatype Event = Accept | Peek | SendDone | SendFailed

  predicate Enabled(s: State, e: Event) {
    match e
    case Accept => true
    case Peek => s.sending.None? && s.left < s.accepted
    case SendDone => s.sending.Some?
    case SendFailed => s.sending.Some?
  }

  /** One atomic stretch between awaits, for a deque of the given maximum length. */
  function Step(s: State, maxSize: nat, e: Event): State
    requires Enabled(s, e)
  {
    match e
    case Accept =>
      var s := s.(accepted := s.accepted + 1);
      if s.Buffered() > maxSize
      then s.(left := s.left + 1, overflows := s.overflows + 1)
      else s
    case Peek => s.(sending := Some(s.left))
    case SendDone => s.(sending := None, delivered := s.delivered + [s.sending.value], left := s.left + 1)
    case SendFailed => s.(sending := None)
  }

  const INITIAL := State(0, 0, None, [], 0)

  /** The buffer is bounded, sends complete in strictly increasing order, and every message that left the
      buffer was popped by a completed send or pushed out by an overflow: none leaves twice or uncounted. */
  ghost predicate Inv(s: State, maxSize: nat) {
    && 0 <= s.Buffered() <= maxSize
    && (forall i, j :: 0 <= i < j < |s.delivered| ==> s.delivered[i] < s.delivered[j])
    && (forall i :: 0 <= i < |s.delivered| ==> s.delivered[i] < s.left)
    && s.left == |s.delivered| + s.overflows
    && (s.sending.Some? ==>
          && s.sending.value <= s.left < s.accepted
          && forall i :: 0 <= i < |s.delivered| ==> s.delivered[i] < s.sending.value)
  }

  lemma StepKeepsInv(s: State, maxSize: nat, e: Event)
    requires Inv(s, maxSize) && Enabled(s, e)
    ensures Inv(Step(s, maxSize, e), maxSize)
  {
  }

  ghost predicate ValidRun(s: State, maxSize: nat, events: seq<Event>)
    decreases |events|
  {
    events == [] || (Enabled(s, events[0]) && ValidRun(Step(s, maxSize, events[0]), maxSize, events[1..]))
  }

  ghost function Run(s: State, maxSize: nat, events: seq<Event>): State
    requires ValidRun(s, maxSize, events)
    decreases |events|
  {
    if events == [] then s else Run(Step(s, maxSize, events[0]), maxSize, events[1..])
  }

  /** Conservation over every interleaving: accepted = delivered + buffered + overflows, in order, no repeats. */
  lemma {:induction false} EveryRunConserves(s: State, maxSize: nat, events: seq<Event>)
    requires Inv(s, maxSize) && ValidRun(s, maxSize, events)
    ensures var s' := Run(s, maxSize, events);
            && Inv(s', maxSize)
            && s'.accepted == |s'.delivered| + s'.Buffered() + s'.overflows
    decreases |events|
  {
    if events == [] {
    } else {
      StepKeepsInv(s, maxSize, events[0]);
      EveryRunConserves(Step(s, maxSize, events[0]), maxSize, events[1..]);
    }
  }

  lemma {:induction false} IncreasingIsIdentity(delivered: seq<nat>, bound: nat)
    requires forall i, j :: 0 <= i < j < |delivered| ==> delivered[i] < delivered[j]
    requires forall i :: 0 <= i < |delivered| ==> delivered[i] < bound
    ensures |delivered| <= bound
    ensures |delivered| == bound ==> forall i :: 0 <= i < bound ==> delivered[i] == i
    decreases bound
  {
    if delivered == [] {
    } else {
      var last := delivered[|delivered| - 1];
      assert last < bound;
      IncreasingIsIdentity(delivered[..|delivered| - 1], last);
    }
  }

  /** Exactly when the buffer never overflowed has everything that left it been delivered, in order. */
  lemma NothingLostIffNoOverflow(s: State, maxSize: nat)
    requires Inv(s, maxSize)
    ensures (forall i :: 0 <= i < s.left ==> i in s.delivered) <==> s.overflows == 0
    ensures s.overflows == 0 ==> |s.delivered| == s.left && forall i :: 0 <= i < s.left ==> s.delivered[i] == i
  {
    if s.overflows == 0 {
      IncreasingIsIdentity(s.delivered, s.left);
      forall i | 0 <= i < s.left ensures i in s.delivered {
        assert s.delivered[i] == i;
      }
    } else if forall i :: 0 <= i < s.left ==> i in s.delivered {
      CoverNeedsLength(s.delivered, s.left);
    }
  }

  lemma {:induction false} CoverNeedsLength(delivered: seq<nat>, bound: nat)
    requires forall i :: 0 <= i < bound ==> i in delivered
    ensures |delivered| >= bound
    decreases bound
  {
    if bound == 0 {
    } else {
      assert bound - 1 in delivered;
      var k :| 0 <= k < |delivered| && delivered[k] == bound - 1;
      var rest := delivered[..k] + delivered[k + 1..];
      forall i | 0 <= i < bound - 1 ensures i in rest {
        assert i in delivered;
        var m :| 0 <= m < |delivered| && delivered[m] == i;
        assert if m < k then rest[m] == i else rest[m - 1] == i;
      }
      CoverNeedsLength(rest, bound - 1);
    }
  }

  // What becomes of the messages when newcomers arrive during a send

  function Newcomers(n: nat): seq<Event> {
    if n == 0 then [] else [Accept] + Newcomers(n - 1)
  }

  /** How many of n newcomers find no room. */
  function Excess(s: State, maxSize: nat, n: nat): nat
    requires s.Buffered() <= maxSize
  {
    if n <= maxSize - s.Buffered() then 0 else n - (maxSize - s.Buffered())
  }

  lemma {:induction false} NewcomersThenPop(s: State, maxSize: nat, n: nat)
    requires Inv(s, maxSize) && s.sending.Some?
    ensures var events := Newcomers(n) + [SendDone];
            && ValidRun(s, maxSize, events)
            && var s' := Run(s, maxSize, events);
               && s'.accepted == s.accepted + n && s'.left == s.left + Excess(s, maxSize, n) + 1
               && s'.delivered == s.delivered + [s.sending.value]
    decreases n
  {
    var events := Newcomers(n) + [SendDone];
    if n == 0 {
      assert events == [SendDone] && events[1..] == [];
    } else {
      StepKeepsInv(s, maxSize, Accept);
      NewcomersThenPop(Step(s, maxSize, Accept), maxSize, n - 1);
      assert events[0] == Accept && events[1..] == Newcomers(n - 1) + [SendDone];
    }
  }

  /** A flush round peeks at the front of the buffer, n messages are accepted while it is being sent, and the
      send completes. */
  function FlushRound(n: nat): seq<Event> { [Peek] + (Newcomers(n) + [SendDone]) }

  /** The pop at the end of a round takes the position before `left`. It is the message that was sent iff all
      newcomers found room; otherwise as many messages leave the buffer unsent as found none. */
  lemma PopRemovesSentIff(s: State, maxSize: nat, n: nat)
    requires Inv(s, maxSize) && s.sending.None? && s.Buffered() >= 1
    ensures ValidRun(s, maxSize, FlushRound(n))
    ensures var s' := Run(s, maxSize, FlushRound(n));
            && s'.accepted == s.accepted + n && s'.delivered == s.delivered + [s.left]
            && (s'.left - 1 == s.left <==> n <= maxSize - s.Buffered())
            && s'.left - s.left - 1 == Excess(s, maxSize, n)
            && forall p :: s.left < p < s'.left ==> p !in s'.delivered
  {
    var events := FlushRound(n);
    StepKeepsInv(s, maxSize, Peek);
    NewcomersThenPop(Step(s, maxSize, Peek), maxSize, n);
    assert events[0] == Peek && events[1..] == Newcomers(n) + [SendDone];
  }

  /** For instance, with a full buffer a single newcomer during a send evicts the message on its way, and the
      pop then discards the next one unsent. */
  lemma FullBufferLosesNext(s: State, maxSize: nat)
    requires Inv(s, maxSize) && s.sending.None? && s.Buffered() == maxSize && maxSize >= 1
    ensures ValidRun(s, maxSize, FlushRound(1))
    ensures var s' := Run(s, maxSize, FlushRound(1));
            && s'.accepted == s.accepted + 1 && s'.left == s.left + 2
            && s'.delivered == s.delivered + [s.left] && s.left + 1 !in s'.delivered
  {
    PopRemovesSentIff(s, maxSize, 1);
  }

  // The client's fields against the abstract positions

  /** The buffer is a contiguous suffix of the accepted messages, and what was sent, or is being sent, is what
      the abstract positions say. */
  ghost predicate Tracks(
    s: State, buffer: seq<int>, inFlight: Option<int>, accepted: seq<int>, sent: seq<int>)
  {
    && s.left <= s.accepted == |accepted| && buffer == accepted[s.left..]
    && |sent| == |s.delivered|
    && (forall i :: 0 <= i < |sent| ==> s.delivered[i] < |accepted| && sent[i] == accepted[s.delivered[i]])
    && match s.sending
       case None => inFlight == None
       case Some(p) => p < |accepted| && inFlight == Some(accepted[p])
  }

  /** Appending to a deque of a maximum length: a full one drops its oldest element. */
  function Appended(buffer: seq<int>, message: int, maxSize: nat): seq<int> {
    var longer := buffer + [message];
    if |longer| > maxSize then longer[1..] else longer
  }

  lemma TracksAccept(
    s: State, buffer: seq<int>, inFlight: Option<int>, accepted: seq<int>, sent: seq<int>, maxSize: nat, message: int)
    requires Tracks(s, buffer, inFlight, accepted, sent)
    ensures Tracks(Step(s, maxSize, Accept), Appended(buffer, message, maxSize), inFlight, accepted + [message], sent)
  {
    assert (accepted + [message])[s.left..] == buffer + [message];
  }

  lemma TracksDone(
    s: State, buffer: seq<int>, inFlight: Option<int>, accepted: seq<int>, sent: seq<int>, maxSize: nat)
    requires Tracks(s, buffer, inFlight, accepted, sent) && s.sending.Some? && s.left < s.accepted
    ensures inFlight.Some? && Tracks(Step(s, maxSize, SendDone), buffer[1..], None, accepted, sent + [inFlight.value])
    ensures Tracks(Step(s, maxSize, SendFailed), buffer, None, accepted, sent)
  {
  }

  lemma AcceptWithRoom(s: State, maxSize: nat, n: nat)
    requires 0 <= s.Buffered() < maxSize && n >= 1
    ensures var next := s.(accepted := s.accepted + 1);
            && Step(s, maxSize, Accept) == next
            && next.(accepted := next.accepted + (n - 1)) == s.(accepted := s.accepted + n)
  {
  }

  /** Accepting while there is room only makes the buffer longer, whatever comes next. */
  lemma {:induction false} NewcomersFindRoom(s: State, maxSize: nat, n: nat, rest: seq<Event>)
    requires 0 <= s.Buffered() && s.Buffered() + n <= maxSize
    requires ValidRun(s.(accepted := s.accepted + n), maxSize, rest)
    ensures ValidRun(s, maxSize, Newcomers(n) + rest)
    ensures Run(s, maxSize, Newcomers(n) + rest) == Run(s.(accepted := s.accepted + n), maxSize, rest)
    decreases n
  {
    if n == 0 {
      assert Newcomers(n) + rest == rest;
    } else {
      AcceptWithRoom(s, maxSize, n);
      NewcomersFindRoom(s.(accepted := s.accepted + 1), maxSize, n - 1, rest);
      var events := Newcomers(n) + rest;
      assert events[0] == Accept && events[1..] == Newcomers(n - 1) + rest;
    }
  }

  /** Filling up the buffer and one flush round with a newcomer lose a message. */
  lemma FillThenLose(s: State, maxSize: nat, n: nat)
    requires Inv(s, maxSize) && s.sending.None? && s.Buffered() + n == maxSize && maxSize >= 1
    ensures ValidRun(s, maxSize, Newcomers(n) + FlushRound(1))
    ensures var s' := Run(s, maxSize, Newcomers(n) + FlushRound(1));
            && s'.accepted == s.accepted + n + 1 && s'.left == s.left + 2
            && |s'.delivered| == |s.delivered| + 1 && s'.delivered[|s.delivered|] == s.left
  {
    var full := s.(accepted := s.accepted + n);
    FullBufferLosesNext(full, maxSize);
    NewcomersFindRoom(s, maxSize, n, FlushRound(1));
  }

  lemma UnusedClientLosesMessage(s: State, maxSize: nat)
    requires s.accepted == s.left == s.overflows == 0 && s.delivered == [] && s.sending.None? && maxSize >= 1
    ensures ValidRun(s, maxSize, Newcomers(maxSize) + FlushRound(1))
    ensures var s' := Run(s, maxSize, Newcomers(maxSize) + FlushRound(1));
            s'.accepted == maxSize + 1 && s'.left == 2 && |s'.delivered| == 1 && s'.delivered[0] == 0
  {
    FillThenLose(s, maxSize, maxSize);
  }

  /** So a new client gets there with maxSize messages and one round: message 0 is sent, message 1 is lost. */
  lemma NewClientLosesMessage(maxSize: nat)
    requires maxSize >= 1
    ensures ValidRun(INITIAL, maxSize, Newcomers(maxSize) + FlushRound(1))
    ensures var s := Run(INITIAL, maxSize, Newcomers(maxSize) + FlushRound(1));
            s.accepted == maxSize + 1 && s.left == 2 && |s.delivered| == 1 && s.delivered[0] == 0
  {
    UnusedClientLosesMessage(INITIAL, maxSize);
  }

  class UpstreamClient {
    const maxSize: nat
    const enabled: bool
    const limiter: RateLimiter
    var buffer: seq<int>              // queued messages, opaque here
    var connected: bool
    var droppedCount: nat
    var inFlight: Option<int>         // the local `message` of the flush loop during its send
    ghost var accepted: seq<int>      // every message ever queued
    ghost var sent: seq<int>          // every message whose send completed
    ghost var state: State

    ghost predicate BufferValid()
      reads `buffer, `connected, `inFlight, `accepted, `sent, `state
    {
      && Inv(state, maxSize) && Tracks(state, buffer, inFlight, accepted, sent)
      && (inFlight.Some? ==> connected)
    }

    ghost predicate Valid()
      reads this, limiter
    {
      && BufferValid()
      && limiter.Valid() && limiter.maxPerMinute == 120 && limiter.burstSize == 20
      && |accepted| == |limiter.grants|
    }

    constructor (maxSize: nat, enabled: bool, ghost now: real)
      ensures Valid() && fresh(limiter) && accepted == [] && sent == [] && state == INITIAL
      ensures this.maxSize == maxSize && this.enabled == enabled && !connected && droppedCount == 0
    {
      this.maxSize, this.enabled := maxSize, enabled;
      limiter := new RateLimiter(120, 20, now);
      buffer, connected, droppedCount, inFlight := [], false, 0, None;
      accepted, sent, state := [], [], INITIAL;
      new;
      assert Tracks(state, buffer, inFlight, accepted, sent);
    }

    method SendPacket(message: int, now: real)
      requires Valid() && limiter.clock <= now
      modifies this`buffer, this`droppedCount, this`accepted, this`state, limiter
      ensures Valid()
      ensures var queued := enabled && Allowed(old(limiter.grants), 120, 20, now);
              && accepted == (if queued then old(accepted) + [message] else old(accepted))
              && state == (if queued then Step(old(state), maxSize, Accept) else old(state))
              && droppedCount == old(droppedCount) + (if enabled && !queued then 1 else 0)
    {
      if !enabled {
        return;
      }
      var allowed := limiter.Allow(now);
      if !allowed {
        droppedCount := droppedCount + 1;
        return;
      }
      Append(message);
    }

    method Append(message: int)
      requires BufferValid()
      modifies this`buffer, this`accepted, this`state
      ensures BufferValid()
      ensures accepted == old(accepted) + [message] && state == Step(old(state), maxSize, Accept)
    {
      StepKeepsInv(state, maxSize, Accept);
      TracksAccept(state, buffer, inFlight, accepted, sent, maxSize, message);
      buffer := Appended(buffer, message, maxSize);
      accepted := accepted + [message];
      state := Step(state, maxSize, Accept);
      assert Inv(state, maxSize) && Tracks(state, buffer, inFlight, accepted, sent);
    }

    method Connected()
      requires Valid() && inFlight.None?
      modifies this`connected
      ensures Valid() && connected
    {
      connected := true;
    }

    method Disconnected()
      requires Valid() && inFlight.None?
      modifies this`connected
      ensures Valid() && !connected
    {
      connected := false;
    }

    /** The flush loop up to its await; `more` says whether it has anything to send. */
    method FlushPeek() returns (more: bool)
      requires Valid() && inFlight.None?
      modifies this`inFlight, this`state
      ensures Valid() && more == (buffer != [] && connected)
      ensures state == if more then Step(old(state), maxSize, Peek) else old(state)
      ensures more ==> inFlight == Some(buffer[0])
    {
      more := |buffer| > 0 && connected;
      if more {
        StepKeepsInv(state, maxSize, Peek);
        inFlight := Some(buffer[0]);
        state := Step(state, maxSize, Peek);
      }
    }

    /** The rest of a round: the send completed and the front of the buffer is popped, or the connection
        closed and the message stays queued. The pop never finds the buffer empty. */
    method FlushFinish(ok: bool)
      requires Valid() && inFlight.Some?
      modifies this`buffer, this`inFlight, this`connected, this`sent, this`state
      ensures Valid() && inFlight.None?
      ensures state == Step(old(state), maxSize, if ok then SendDone else SendFailed)
      ensures sent == if ok then old(sent) + [old(inFlight).value] else old(sent)
      ensures buffer == if ok then old(buffer)[1..] else old(buffer)
      ensures connected == ok
    {
      StepKeepsInv(state, maxSize, if ok then SendDone else SendFailed);
      TracksDone(state, buffer, inFlight, accepted, sent, maxSize);
      if ok {
        sent := sent + [inFlight.value];
        buffer := buffer[1..];
        state := Step(state, maxSize, SendDone);
      } else {
        connected := false;
        state := Step(state, maxSize, SendFailed);
      }
      inFlight := None;
    }
  }
}
