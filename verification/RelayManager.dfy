/** The relay engine: filters a packet through dedup, hop, type, signal and rate checks, and keeps count. */
module Relaying {
  import opened Deduplication
  import opened Options
  import opened RateLimiting

  datatype PacketType =
    | Text | Position | Telemetry | NodeInfo | Routing | Admin | Traceroute | NeighborInfo | Waypoint
    | RangeTest | StoreForward | DetectionSensor | PaxCounter | MapReport | Encrypted | Unknown

  datatype Packet = Packet(
    sourceId: string, packetId: string, hopLimit: int, packetType: PacketType, rssi: Option<real>)

  datatype Decision =
    | RelayDisabled | Duplicate | NoHopsRemaining | NonRelayableType | SignalTooStrong | SignalTooWeak
    | RateLimited | Approved

  const RELAY_WORTHY_TYPES := {Text, Position, Telemetry, NodeInfo}

  /** What a packet must satisfy by itself, leaving aside what was heard and relayed before. */
  ghost predicate Relayable(packet: Packet, minRssi: real, maxRssi: real) {
    && packet.hopLimit > 0
    && (packet.packetType.Text? || packet.packetType.Position? || packet.packetType.Telemetry?
        || packet.packetType.NodeInfo?)
    && (packet.rssi.Some? ==> minRssi <= packet.rssi.value <= maxRssi)
  }

  /** The checks in the order they are made; the first to fail decides. */
  function Decide(
    enabled: bool, duplicate: bool, packet: Packet, minRssi: real, maxRssi: real, allowed: bool): Decision
  {
    if !enabled then RelayDisabled
    else if duplicate then Duplicate
    else if packet.hopLimit <= 0 then NoHopsRemaining
    else if packet.packetType !in RELAY_WORTHY_TYPES then NonRelayableType
    else if packet.rssi.Some? && packet.rssi.value > maxRssi then SignalTooStrong
    else if packet.rssi.Some? && packet.rssi.value < minRssi then SignalTooWeak
    else if !allowed then RateLimited
    else Approved
  }

  /** A packet is approved iff the relay is on, it is new, relayable and within the rate; the rate limiter is
      consulted only for new, relayable packets. */
  lemma ApprovedIff(enabled: bool, duplicate: bool, packet: Packet, minRssi: real, maxRssi: real, allowed: bool)
    ensures var decision := Decide(enabled, duplicate, packet, minRssi, maxRssi, allowed);
            && (decision == Approved <==>
                enabled && !duplicate && Relayable(packet, minRssi, maxRssi) && allowed)
            && (decision in {Approved, RateLimited} <==>
                enabled && !duplicate && Relayable(packet, minRssi, maxRssi))
            && (decision == RelayDisabled <==> !enabled) && (decision == Duplicate <==> enabled && duplicate)
  {
  }

  /** Which of the remaining checks rejects a new packet: the first that fails of hops, type, too strong, too weak. */
  lemma RejectedBecause(packet: Packet, minRssi: real, maxRssi: real, allowed: bool)
    ensures var decision := Decide(true, false, packet, minRssi, maxRssi, allowed);
            var worthy := Relayable(packet.(hopLimit := 1, rssi := None), minRssi, maxRssi);
            && (decision == NoHopsRemaining <==> packet.hopLimit <= 0)
            && (decision == NonRelayableType <==> packet.hopLimit > 0 && !worthy)
            && (decision == SignalTooStrong <==>
                packet.hopLimit > 0 && worthy && packet.rssi.Some? && packet.rssi.value > maxRssi)
            && (decision == SignalTooWeak <==>
                packet.hopLimit > 0 && worthy && packet.rssi.Some? && packet.rssi.value <= maxRssi
                && packet.rssi.value < minRssi)
            && (decision == RateLimited <==> Relayable(packet, minRssi, maxRssi) && !allowed)
  {
  }

  datatype Approval = Approval(packet: Packet, sighting: nat)

  /** Approvals point at ever later first sightings of their own packet's key. */
  ghost predicate ApprovalsFollow(approvals: seq<Approval>, sightings: seq<Sighting>) {
    && (forall i :: 0 <= i < |approvals| ==>
          && approvals[i].sighting < |sightings|
          && sightings[approvals[i].sighting].key
             == Key(approvals[i].packet.sourceId, approvals[i].packet.packetId))
    && forall i, j :: 0 <= i < j < |approvals| ==> approvals[i].sighting < approvals[j].sighting
  }

  /** No relay loop: two approvals of one (source, packet id) stem from receptions at least ttl apart,
      unless more than maxEntries other first sightings came in between. */
  lemma ReapprovalIsSpaced(
    approvals: seq<Approval>, sightings: seq<Sighting>, maxEntries: nat, ttl: real, i: nat, j: nat)
    requires ApprovalsFollow(approvals, sightings) && Spaced(sightings, maxEntries, ttl)
    requires i < j < |approvals|
    requires approvals[i].packet.sourceId == approvals[j].packet.sourceId
    requires approvals[i].packet.packetId == approvals[j].packet.packetId
    ensures var a, b := approvals[i].sighting, approvals[j].sighting;
            sightings[b].time - sightings[a].time >= ttl || b - a > maxEntries
  {
    assert approvals[i].sighting < approvals[j].sighting;
  }

  /** A newer approval of a freshly recorded packet, or a sighting without approval, keeps the approvals in step. */
  lemma ApprovalsKeepFollowing(approvals: seq<Approval>, sightings: seq<Sighting>, packet: Packet, sighting: Sighting)
    requires ApprovalsFollow(approvals, sightings)
    requires sighting.key == Key(packet.sourceId, packet.packetId)
    ensures ApprovalsFollow(approvals, sightings + [sighting])
    ensures ApprovalsFollow(approvals + [Approval(packet, |sightings|)], sightings + [sighting])
  {
  }

  /** Approvals, first sightings and grants tell the same story: each approval is of a relayable packet, has
      its own sighting, and cost one grant. */
  ghost predicate LogsAgree(
    approvals: seq<Approval>, sightings: seq<Sighting>, grants: seq<real>, minRssi: real, maxRssi: real)
  {
    && |approvals| == |grants|
    && ApprovalsFollow(approvals, sightings)
    && forall i :: 0 <= i < |approvals| ==> Relayable(approvals[i].packet, minRssi, maxRssi)
  }

  /** What a decision adds to the three logs keeps them in agreement. */
  lemma DecisionKeepsLogs(
    approvals: seq<Approval>, sightings: seq<Sighting>, grants: seq<real>, minRssi: real, maxRssi: real,
    packet: Packet, sighting: Sighting, grantedAt: real, decision: Decision)
    requires LogsAgree(approvals, sightings, grants, minRssi, maxRssi)
    requires sighting.key == Key(packet.sourceId, packet.packetId)
    requires decision == Approved ==> Relayable(packet, minRssi, maxRssi)
    ensures LogsAgree(
              if decision == Approved then approvals + [Approval(packet, |sightings|)] else approvals,
              if decision in {RelayDisabled, Duplicate} then sightings else sightings + [sighting],
              if decision == Approved then grants + [grantedAt] else grants, minRssi, maxRssi)
  {
    ApprovalsKeepFollowing(approvals, sightings, packet, sighting);
  }

  function Count(counts: map<Decision, nat>, reason: Decision): nat {
    if reason in counts then counts[reason] else 0
  }

  function Total(counts: map<Decision, nat>): nat {
    Count(counts, RelayDisabled) + Count(counts, Duplicate) + Count(counts, NoHopsRemaining)
    + Count(counts, NonRelayableType) + Count(counts, SignalTooStrong) + Count(counts, SignalTooWeak)
    + Count(counts, RateLimited)
  }

  function Bump(counts: map<Decision, nat>, reason: Decision): map<Decision, nat> {
    counts[reason := Count(counts, reason) + 1]
  }

  lemma BumpAddsOne(counts: map<Decision, nat>, reason: Decision)
    requires reason != Approved
    ensures Total(Bump(counts, reason)) == Total(counts) + 1
  {
  }

  class RelayManager {
    const dedup: DeduplicationFilter
    const limiter: RateLimiter
    const minRssi: real
    const maxRssi: real
    var enabled: bool
    var relayCount: nat
    var rejectedCount: nat
    var rejectionReasons: map<Decision, nat>
    ghost var approvals: seq<Approval>
    ghost var evaluated: nat
    ghost var clock: real
    ghost var relaying: nat  // approved packets whose transmit call has not returned yet

    ghost predicate FiltersValid()
      reads `clock, dedup, limiter
    {
      && dedup.Valid() && limiter.Valid()
      && dedup.clock <= clock && limiter.clock <= clock
      && dedup.maxEntries == 10000 && dedup.ttl == 300.0
    }

    ghost predicate CountsValid()
      reads `relayCount, `rejectedCount, `rejectionReasons, `approvals, `evaluated, `relaying
    {
      && relayCount + relaying == |approvals|
      && relayCount + relaying + rejectedCount == evaluated
      && Total(rejectionReasons) == rejectedCount && Approved !in rejectionReasons
    }

    ghost predicate Valid()
      reads this, dedup, limiter
    {
      && FiltersValid() && CountsValid()
      && LogsAgree(approvals, dedup.sightings, limiter.grants, minRssi, maxRssi)
    }

    constructor (maxRelayPerMinute: int, burstSize: int, minRssi: real, maxRssi: real, enabled: bool, ghost now: real)
      ensures Valid() && fresh(dedup) && fresh(limiter)
      ensures evaluated == 0 && approvals == [] && clock == now && dedup.sightings == [] && limiter.grants == []
      ensures limiter.maxPerMinute == maxRelayPerMinute && limiter.burstSize == burstSize
      ensures this.minRssi == minRssi && this.maxRssi == maxRssi && this.enabled == enabled
    {
      dedup := new DeduplicationFilter(10000, 300.0, now);
      limiter := new RateLimiter(maxRelayPerMinute, burstSize, now);
      this.minRssi, this.maxRssi, this.enabled := minRssi, maxRssi, enabled;
      relayCount, rejectedCount, rejectionReasons := 0, 0, map[];
      approvals, evaluated, relaying, clock := [], 0, 0, now;
    }

    method SetEnabled(value: bool)
      requires Valid()
      modifies this`enabled
      ensures Valid() && enabled == value
    {
      enabled := value;
    }

    /** One decision. The filter and the limiter each read the monotonic clock, in that order.
        A disabled relay touches neither; an approval costs one rate slot and nothing else does. */
    method Evaluate(packet: Packet, seenAt: real, grantedAt: real) returns (decision: Decision)
      requires dedup.Valid() && limiter.Valid()
      requires dedup.clock <= seenAt <= grantedAt && limiter.clock <= grantedAt
      modifies dedup, limiter
      ensures dedup.Valid() && limiter.Valid()
      ensures dedup.clock <= grantedAt && limiter.clock <= grantedAt
      ensures decision == Decide(
                enabled,
                Remembered(old(dedup.sightings), dedup.maxEntries, dedup.ttl,
                           Key(packet.sourceId, packet.packetId), seenAt),
                packet, minRssi, maxRssi,
                Allowed(old(limiter.grants), limiter.maxPerMinute, limiter.burstSize, grantedAt))
      ensures decision == Approved ==> Relayable(packet, minRssi, maxRssi)
      ensures limiter.grants == if decision == Approved then old(limiter.grants) + [grantedAt] else old(limiter.grants)
      ensures dedup.sightings ==
              if decision in {RelayDisabled, Duplicate} then old(dedup.sightings)
              else old(dedup.sightings) + [Sighting(Key(packet.sourceId, packet.packetId), seenAt)]
    {
      if !enabled {
        return RelayDisabled;
      }
      var duplicate := dedup.IsDuplicate(packet.sourceId, packet.packetId, seenAt);
      if duplicate {
        return Duplicate;
      }
      var rejection := CheckPacket(packet);
      if rejection.Some? {
        return rejection.value;
      }
      var allowed := limiter.Allow(grantedAt);
      return if allowed then Approved else RateLimited;
    }

    /** The checks between the filter and the limiter, which look at the packet only. */
    method CheckPacket(packet: Packet) returns (rejection: Option<Decision>)
      ensures rejection.None? <==> Relayable(packet, minRssi, maxRssi)
      ensures rejection.Some? ==>
              && rejection.value in {NoHopsRemaining, NonRelayableType, SignalTooStrong, SignalTooWeak}
              && forall allowed :: Decide(true, false, packet, minRssi, maxRssi, allowed) == rejection.value
    {
      if packet.hopLimit <= 0 {
        return Some(NoHopsRemaining);
      }
      if packet.packetType !in RELAY_WORTHY_TYPES {
        return Some(NonRelayableType);
      }
      if packet.rssi.Some? {
        if packet.rssi.value > maxRssi {
          return Some(SignalTooStrong);
        }
        if packet.rssi.value < minRssi {
          return Some(SignalTooWeak);
        }
      }
      return None;
    }

    /** process_packet up to its await: a rejection is counted at once, an approval goes to the radio. */
    method BeginProcess(packet: Packet, seenAt: real, grantedAt: real) returns (decision: Decision)
      requires Valid() && clock <= seenAt <= grantedAt
      modifies this`clock, this`evaluated, this`approvals, this`relaying, this`rejectedCount, this`rejectionReasons
      modifies dedup, limiter
      ensures Valid() && clock == grantedAt && evaluated == old(evaluated) + 1
      ensures decision == Approved ==>
              && approvals == old(approvals) + [Approval(packet, |old(dedup.sightings)|)]
              && limiter.grants == old(limiter.grants) + [grantedAt]
              && rejectionReasons == old(rejectionReasons)
      ensures decision != Approved ==>
              && approvals == old(approvals) && limiter.grants == old(limiter.grants)
              && rejectionReasons == Bump(old(rejectionReasons), decision)
    {
      decision := Evaluate(packet, seenAt, grantedAt);
      DecisionKeepsLogs(approvals, old(dedup.sightings), old(limiter.grants), minRssi, maxRssi, packet,
                        Sighting(Key(packet.sourceId, packet.packetId), seenAt), grantedAt, decision);
      clock := grantedAt;
      assert FiltersValid();
      CountDecision(packet, decision, |old(dedup.sightings)|);
      assert LogsAgree(approvals, dedup.sightings, limiter.grants, minRssi, maxRssi);
    }

    method CountDecision(packet: Packet, decision: Decision, ghost sighting: nat)
      requires CountsValid()
      modifies this`evaluated, this`approvals, this`relaying, this`rejectedCount, this`rejectionReasons
      ensures CountsValid() && evaluated == old(evaluated) + 1
      ensures decision == Approved ==>
              && approvals == old(approvals) + [Approval(packet, sighting)]
              && rejectionReasons == old(rejectionReasons)
      ensures decision != Approved ==>
              approvals == old(approvals) && rejectionReasons == Bump(old(rejectionReasons), decision)
    {
      evaluated := evaluated + 1;
      if decision == Approved {
        approvals := approvals + [Approval(packet, sighting)];
        relaying := relaying + 1;
      } else {
        BumpAddsOne(rejectionReasons, decision);
        rejectedCount := rejectedCount + 1;
        rejectionReasons := Bump(rejectionReasons, decision);
      }
    }

    /** process_packet after its await; transmit errors are swallowed, so every relay gets here. */
    method FinishRelay()
      requires Valid() && relaying > 0
      modifies this`relayCount, this`relaying
      ensures Valid() && relayCount == old(relayCount) + 1 && relaying == old(relaying) - 1
    {
      relayCount, relaying := relayCount + 1, relaying - 1;
    }

    /** What holds after any interleaving of calls: floods are impossible, approvals are deserved and
        spaced, and once no transmit call is pending every packet is counted exactly once. */
    lemma EveryRunIsSafe()
      requires Valid()
      ensures FloodFree(limiter.grants, limiter.maxPerMinute, limiter.burstSize)
      ensures |approvals| == |limiter.grants|
      ensures forall i :: 0 <= i < |approvals| ==> Relayable(approvals[i].packet, minRssi, maxRssi)
      ensures forall i, j | 0 <= i < j < |approvals| &&
                approvals[i].packet.sourceId == approvals[j].packet.sourceId &&
                approvals[i].packet.packetId == approvals[j].packet.packetId ::
                var a, b := approvals[i].sighting, approvals[j].sighting;
                dedup.sightings[b].time - dedup.sightings[a].time >= 300.0 || b - a > 10000
      ensures relaying == 0 ==> relayCount + rejectedCount == evaluated
      ensures Total(rejectionReasons) == rejectedCount
    {
      GrantLogIffFloodFree(limiter.grants, limiter.maxPerMinute, limiter.burstSize);
      forall i, j | 0 <= i < j < |approvals| &&
        approvals[i].packet.sourceId == approvals[j].packet.sourceId &&
        approvals[i].packet.packetId == approvals[j].packet.packetId
        ensures var a, b := approvals[i].sighting, approvals[j].sighting;
                dedup.sightings[b].time - dedup.sightings[a].time >= 300.0 || b - a > 10000
      {
        ReapprovalIsSpaced(approvals, dedup.sightings, dedup.maxEntries, dedup.ttl, i, j);
      }
    }
  }
}
