/** The relay's duplicate filter: a bounded, expiring cache that refines the full log of first sightings. */
module Deduplication {

  datatype Sighting = Sighting(key: string, time: real)

  const SEPARATOR := ':'

  function Key(sourceId: string, packetId: string): string {
    sourceId + [SEPARATOR] + packetId
  }

  lemma LastSeparator(source: string, id: string)
    requires SEPARATOR !in id
    ensures forall j :: |source| < j < |Key(source, id)| ==> Key(source, id)[j] != SEPARATOR
  {
    forall j | |source| < j < |Key(source, id)| ensures Key(source, id)[j] != SEPARATOR {
      assert Key(source, id)[j] == id[j - |source| - 1];
    }
  }

  /** Colon-free packet ids make the joined key unambiguous, whatever the source ids contain. */
  lemma KeyInjective(source: string, id: string, source': string, id': string)
    requires SEPARATOR !in id && SEPARATOR !in id'
    requires Key(source, id) == Key(source', id')
    ensures source == source' && id == id'
  {
    var key := Key(source, id);
    assert key[|source|] == SEPARATOR && key[|source'|] == SEPARATOR;
    LastSeparator(source, id);
    LastSeparator(source', id');
    assert source == key[..|source|] && source' == key[..|source'|];
    assert id == key[|source| + 1..] && id' == key[|source'| + 1..];
  }

  /** Position of the last separator of a string that has one. */
  function LastColon(s: string): (k: nat)
    requires SEPARATOR in s
    ensures k < |s| && s[k] == SEPARATOR && SEPARATOR !in s[k + 1..]
  {
    if s[|s| - 1] == SEPARATOR then |s| - 1
    else
      assert s == s[..|s| - 1] + [s[|s| - 1]];
      var k := LastColon(s[..|s| - 1]);
      assert s[k + 1..] == s[..|s| - 1][k + 1..] + [s[|s| - 1]];
      k
  }

  /** A colon in a packet id is exactly what lets the key be read as that of another, colon-free id. The decoders
      produce hexadecimal ids only. */
  lemma KeySharedIff(source: string, id: string)
    ensures (exists source', id' ::
               (source', id') != (source, id) && SEPARATOR !in id' && Key(source', id') == Key(source, id))
            <==> SEPARATOR in id
  {
    if SEPARATOR in id {
      var k := LastColon(id);
      var source', id' := Key(source, id[..k]), id[k + 1..];
      assert id == id[..k] + [SEPARATOR] + id[k + 1..];
      assert Key(source', id') == Key(source, id);
      assert |id'| < |id|;
    } else {
      forall source', id' | SEPARATOR !in id' && Key(source', id') == Key(source, id)
        ensures (source', id') == (source, id)
      {
        KeyInjective(source, id, source', id');
      }
    }
  }

  /** The filter's answer in terms of the whole log: the key is among the last maxEntries first
      sightings and was recorded strictly later than now - ttl. */
  ghost predicate Remembered(log: seq<Sighting>, maxEntries: nat, ttl: real, key: string, now: real) {
    exists i :: 0 <= i < |log| && |log| - maxEntries <= i && log[i].key == key && log[i].time > now - ttl
  }

  ghost predicate TimeSorted(log: seq<Sighting>) {
    forall i, j :: 0 <= i < j < |log| ==> log[i].time <= log[j].time
  }

  /** A key is recorded again only ttl later, or after more than maxEntries newer recordings. */
  ghost predicate Spaced(log: seq<Sighting>, maxEntries: nat, ttl: real) {
    forall i, j :: 0 <= i < j < |log| && log[i].key == log[j].key ==>
      log[j].time - log[i].time >= ttl || j - i > maxEntries
  }

  /** Recording exactly when the key is not remembered is exactly what keeps the log spaced. */
  lemma RecordIffStaysSpaced(log: seq<Sighting>, maxEntries: nat, ttl: real, key: string, now: real)
    requires Spaced(log, maxEntries, ttl)
    ensures !Remembered(log, maxEntries, ttl, key, now) <==> Spaced(log + [Sighting(key, now)], maxEntries, ttl)
  {
    var next := log + [Sighting(key, now)];
    if Remembered(log, maxEntries, ttl, key, now) {
      var i :| 0 <= i < |log| && |log| - maxEntries <= i && log[i].key == key && log[i].time > now - ttl;
      assert next[i].key == next[|log|].key;
    }
  }

  // The promise of the class: duplicate if seen within the TTL

  /** The first sightings recorded from a series of receptions. */
  ghost function Recorded(heard: seq<Sighting>, maxEntries: nat, ttl: real): seq<Sighting> {
    if heard == [] then []
    else
      var log, last := Recorded(heard[..|heard| - 1], maxEntries, ttl), heard[|heard| - 1];
      if Remembered(log, maxEntries, ttl, last.key, last.time) then log else log + [last]
  }

  /** The answer to the n-th reception. */
  ghost predicate Answer(heard: seq<Sighting>, n: nat, maxEntries: nat, ttl: real)
    requires n < |heard|
  {
    Remembered(Recorded(heard[..n], maxEntries, ttl), maxEntries, ttl, heard[n].key, heard[n].time)
  }

  lemma RecordNext(heard: seq<Sighting>, r: Sighting, maxEntries: nat, ttl: real)
    ensures var log := Recorded(heard, maxEntries, ttl);
            Recorded(heard + [r], maxEntries, ttl)
            == if Remembered(log, maxEntries, ttl, r.key, r.time) then log else log + [r]
  {
    assert (heard + [r])[..|heard|] == heard;
  }

  /** Reception n comes less than ttl after reception i of the same key. */
  ghost predicate Follows(heard: seq<Sighting>, i: nat, n: nat, ttl: real) {
    i < n < |heard| && heard[i].key == heard[n].key && heard[n].time - heard[i].time < ttl
  }

  /** Whatever was seen within the TTL, recorded or not, is answered as a duplicate. */
  ghost predicate KeepsPromise(heard: seq<Sighting>, maxEntries: nat, ttl: real) {
    forall i, n :: Follows(heard, i, n, ttl) ==> Answer(heard, n, maxEntries, ttl)
  }

  ghost predicate IsChain(heard: seq<Sighting>, chain: seq<nat>, ttl: real) {
    |chain| >= 2 && forall c :: 0 <= c < |chain| - 1 ==> Follows(heard, chain[c], chain[c + 1], ttl)
  }

  /** Receptions of a key that follow one another by less than ttl never span ttl in all. */
  ghost predicate ChainsStayShort(heard: seq<Sighting>, ttl: real) {
    forall chain :: IsChain(heard, chain, ttl) ==> Follows(heard, chain[0], chain[|chain| - 1], ttl)
  }

  /** Reception n opens its chain: its key was not heard within the TTL. */
  ghost predicate Opens(heard: seq<Sighting>, n: nat, ttl: real) {
    forall i :: !Follows(heard, i, n, ttl)
  }

  /** The receptions among the first n that open a chain. */
  ghost function Openings(heard: seq<Sighting>, n: nat, ttl: real): (openings: seq<nat>)
    requires n <= |heard|
    ensures |openings| <= n && forall p :: 0 <= p < |openings| ==> openings[p] < n
  {
    if n == 0 then []
    else Openings(heard, n - 1, ttl) + if Opens(heard, n - 1, ttl) then [n - 1] else []
  }

  /** From the opening of a chain up to each of its receptions, at most maxEntries chains of any keys open. */
  ghost predicate NoneCrowdedOut(heard: seq<Sighting>, maxEntries: nat, ttl: real) {
    forall h, n :: Follows(heard, h, n, ttl) && Opens(heard, h, ttl) ==>
      |Openings(heard, n, ttl)| - |Openings(heard, h, ttl)| <= maxEntries
  }

  lemma {:induction false} OpeningsAt(heard: seq<Sighting>, h: nat, n: nat, ttl: real)
    requires h < n <= |heard| && Opens(heard, h, ttl)
    ensures |Openings(heard, h, ttl)| < |Openings(heard, n, ttl)|
    ensures Openings(heard, n, ttl)[|Openings(heard, h, ttl)|] == h
  {
    if h == n - 1 {
    } else {
      OpeningsAt(heard, h, n - 1, ttl);
    }
  }

  lemma {:induction false} OpeningsOpen(heard: seq<Sighting>, n: nat, ttl: real, p: nat)
    requires n <= |heard| && p < |Openings(heard, n, ttl)|
    ensures var h := Openings(heard, n, ttl)[p];
            Opens(heard, h, ttl) && |Openings(heard, h, ttl)| == p
  {
    if p == |Openings(heard, n - 1, ttl)| {
    } else {
      OpeningsOpen(heard, n - 1, ttl, p);
    }
  }

  ghost function At(heard: seq<Sighting>, indices: seq<nat>): seq<Sighting>
    requires forall p :: 0 <= p < |indices| ==> indices[p] < |heard|
  {
    seq(|indices|, p requires 0 <= p < |indices| => heard[indices[p]])
  }

  lemma AtAppend(heard: seq<Sighting>, indices: seq<nat>, n: nat)
    requires n < |heard| && forall p :: 0 <= p < |indices| ==> indices[p] < |heard|
    ensures At(heard, indices + [n]) == At(heard, indices) + [heard[n]]
  {
  }

  ghost predicate AnswerRight(heard: seq<Sighting>, n: nat, maxEntries: nat, ttl: real)
    requires n < |heard|
  {
    Answer(heard, n, maxEntries, ttl) <==> !Opens(heard, n, ttl)
  }

  ghost predicate AnswersRight(heard: seq<Sighting>, n: nat, maxEntries: nat, ttl: real)
    requires n <= |heard|
  {
    forall k :: 0 <= k < n ==> AnswerRight(heard, k, maxEntries, ttl)
  }

  /** As long as the answers are right, exactly the openings are recorded. */
  lemma {:induction false} RecordsOpenings(heard: seq<Sighting>, n: nat, maxEntries: nat, ttl: real)
    requires n <= |heard| && AnswersRight(heard, n, maxEntries, ttl)
    ensures Recorded(heard[..n], maxEntries, ttl) == At(heard, Openings(heard, n, ttl))
  {
    if n == 0 {
    } else {
      RecordsOpenings(heard, n - 1, maxEntries, ttl);
      assert heard[..n] == heard[..n - 1] + [heard[n - 1]];
      RecordNext(heard[..n - 1], heard[n - 1], maxEntries, ttl);
      AtAppend(heard, Openings(heard, n - 1, ttl), n - 1);
      assert AnswerRight(heard, n - 1, maxEntries, ttl);
    }
  }

  /** Reception n belongs to the chain that h opens, and the log still reaches back to h. */
  ghost predicate StillHolds(heard: seq<Sighting>, h: nat, n: nat, maxEntries: nat, ttl: real) {
    && Opens(heard, h, ttl) && Follows(heard, h, n, ttl)
    && |Openings(heard, n, ttl)| - |Openings(heard, h, ttl)| <= maxEntries
  }

  /** ... and the next answer is whether the opening of the chain is still among the last maxEntries. */
  lemma AnswerByOpening(heard: seq<Sighting>, n: nat, maxEntries: nat, ttl: real)
    requires n < |heard| && AnswersRight(heard, n, maxEntries, ttl)
    ensures Answer(heard, n, maxEntries, ttl) <==>
            exists h :: StillHolds(heard, h, n, maxEntries, ttl)
  {
    RecordsOpenings(heard, n, maxEntries, ttl);
    var openings := Openings(heard, n, ttl);
    var log := At(heard, openings);
    if Answer(heard, n, maxEntries, ttl) {
      var p :| 0 <= p < |log| && |log| - maxEntries <= p && log[p].key == heard[n].key
               && log[p].time > heard[n].time - ttl;
      OpeningsOpen(heard, n, ttl, p);
      assert StillHolds(heard, openings[p], n, maxEntries, ttl);
    }
    if h: nat :| StillHolds(heard, h, n, maxEntries, ttl) {
      OpeningsAt(heard, h, n, ttl);
      assert log[|Openings(heard, h, ttl)|] == heard[h];
    }
  }

  lemma {:induction false} RecordedWasHeard(heard: seq<Sighting>, maxEntries: nat, ttl: real, p: nat) returns (i: nat)
    requires p < |Recorded(heard, maxEntries, ttl)|
    ensures i < |heard| && heard[i] == Recorded(heard, maxEntries, ttl)[p]
  {
    if p == |Recorded(heard[..|heard| - 1], maxEntries, ttl)| {
      i := |heard| - 1;
    } else {
      i := RecordedWasHeard(heard[..|heard| - 1], maxEntries, ttl, p);
    }
  }

  /** The opening of a chain is never taken for a duplicate. */
  lemma OpeningIsNew(heard: seq<Sighting>, n: nat, maxEntries: nat, ttl: real)
    requires n < |heard| && Opens(heard, n, ttl)
    ensures !Answer(heard, n, maxEntries, ttl)
  {
    var log := Recorded(heard[..n], maxEntries, ttl);
    if Answer(heard, n, maxEntries, ttl) {
      var p :| 0 <= p < |log| && log[p].key == heard[n].key && log[p].time > heard[n].time - ttl;
      var i := RecordedWasHeard(heard[..n], maxEntries, ttl, p);
      assert Follows(heard, i, n, ttl);
    }
  }

  /** A chain that stays short has an opening within the TTL of each of its receptions. */
  lemma {:induction false} OpeningWithinTtl(heard: seq<Sighting>, i: nat, n: nat, ttl: real) returns (h: nat)
    requires ChainsStayShort(heard, ttl) && Follows(heard, i, n, ttl)
    ensures Opens(heard, h, ttl) && Follows(heard, h, n, ttl)
    decreases i
  {
    if Opens(heard, i, ttl) {
      h := i;
    } else {
      var before :| Follows(heard, before, i, ttl);
      assert IsChain(heard, [before, i, n], ttl);
      h := OpeningWithinTtl(heard, before, n, ttl);
    }
  }

  lemma ConditionMakesNextRight(heard: seq<Sighting>, n: nat, maxEntries: nat, ttl: real)
    requires n < |heard| && ChainsStayShort(heard, ttl) && NoneCrowdedOut(heard, maxEntries, ttl)
    requires AnswersRight(heard, n, maxEntries, ttl)
    ensures AnswerRight(heard, n, maxEntries, ttl)
  {
    AnswerByOpening(heard, n, maxEntries, ttl);
    if !Opens(heard, n, ttl) {
      var i :| Follows(heard, i, n, ttl);
      var h := OpeningWithinTtl(heard, i, n, ttl);
      assert StillHolds(heard, h, n, maxEntries, ttl);
    }
  }

  /** Answers that are right as long as all earlier ones are, are all right. */
  lemma {:induction false} RightByInduction(heard: seq<Sighting>, n: nat, maxEntries: nat, ttl: real)
    requires n <= |heard|
    requires forall k :: 0 <= k < n && AnswersRight(heard, k, maxEntries, ttl) ==>
               AnswerRight(heard, k, maxEntries, ttl)
    ensures AnswersRight(heard, n, maxEntries, ttl)
  {
    if n == 0 {
    } else {
      RightByInduction(heard, n - 1, maxEntries, ttl);
    }
  }

  /** Two openings are never within the TTL of one reception. */
  lemma OneOpening(heard: seq<Sighting>, h: nat, h': nat, n: nat, ttl: real)
    requires TimeSorted(heard) && Opens(heard, h, ttl) && Opens(heard, h', ttl)
    requires Follows(heard, h, n, ttl) && Follows(heard, h', n, ttl)
    ensures h == h'
  {
    assert !Follows(heard, h, h', ttl) && !Follows(heard, h', h, ttl);
  }

  lemma RightAnswerHasOpening(heard: seq<Sighting>, i: nat, n: nat, maxEntries: nat, ttl: real) returns (h: nat)
    requires AnswersRight(heard, |heard|, maxEntries, ttl) && Follows(heard, i, n, ttl)
    ensures StillHolds(heard, h, n, maxEntries, ttl)
  {
    assert AnswerRight(heard, n, maxEntries, ttl);
    AnswerByOpening(heard, n, maxEntries, ttl);
    h :| StillHolds(heard, h, n, maxEntries, ttl);
  }

  lemma RightShortensLinks(heard: seq<Sighting>, i: nat, j: nat, n: nat, maxEntries: nat, ttl: real)
    requires TimeSorted(heard) && AnswersRight(heard, |heard|, maxEntries, ttl)
    requires Follows(heard, i, j, ttl) && Follows(heard, j, n, ttl)
    ensures Follows(heard, i, n, ttl)
  {
    var h := RightAnswerHasOpening(heard, j, n, maxEntries, ttl);
    OpeningCutsOff(heard, i, j, h, n, ttl);
  }

  lemma OpeningCutsOff(heard: seq<Sighting>, i: nat, j: nat, h: nat, n: nat, ttl: real)
    requires TimeSorted(heard) && Opens(heard, h, ttl) && Follows(heard, h, n, ttl)
    requires Follows(heard, i, j, ttl) && Follows(heard, j, n, ttl)
    ensures Follows(heard, i, n, ttl)
  {
    assert !Follows(heard, i, h, ttl) && !Follows(heard, j, h, ttl);
  }

  lemma {:induction false} RightShortensChains(heard: seq<Sighting>, chain: seq<nat>, maxEntries: nat, ttl: real)
    requires TimeSorted(heard) && AnswersRight(heard, |heard|, maxEntries, ttl) && IsChain(heard, chain, ttl)
    ensures Follows(heard, chain[0], chain[|chain| - 1], ttl)
  {
    if |chain| == 2 {
    } else {
      RightShortensChains(heard, chain[..|chain| - 1], maxEntries, ttl);
      RightShortensLinks(heard, chain[0], chain[|chain| - 2], chain[|chain| - 1], maxEntries, ttl);
    }
  }

  lemma RightCrowdsNoneOut(heard: seq<Sighting>, h: nat, n: nat, maxEntries: nat, ttl: real)
    requires TimeSorted(heard) && AnswersRight(heard, |heard|, maxEntries, ttl)
    requires Follows(heard, h, n, ttl) && Opens(heard, h, ttl)
    ensures |Openings(heard, n, ttl)| - |Openings(heard, h, ttl)| <= maxEntries
  {
    var h' := RightAnswerHasOpening(heard, h, n, maxEntries, ttl);
    OneOpening(heard, h, h', n, ttl);
  }

  lemma KeptIffRight(heard: seq<Sighting>, maxEntries: nat, ttl: real)
    ensures KeepsPromise(heard, maxEntries, ttl) <==> AnswersRight(heard, |heard|, maxEntries, ttl)
  {
    forall n | 0 <= n < |heard| && KeepsPromise(heard, maxEntries, ttl)
      ensures AnswerRight(heard, n, maxEntries, ttl)
    {
      if Opens(heard, n, ttl) {
        OpeningIsNew(heard, n, maxEntries, ttl);
      }
    }
    forall i, n | Follows(heard, i, n, ttl) && AnswersRight(heard, |heard|, maxEntries, ttl)
      ensures Answer(heard, n, maxEntries, ttl)
    {
      assert AnswerRight(heard, n, maxEntries, ttl);
    }
  }

  /** The promise is kept exactly for the receptions whose chains stay short and are not crowded out; up to
      maxEntries receptions never are. */
  lemma PromiseKeptIff(heard: seq<Sighting>, maxEntries: nat, ttl: real)
    requires TimeSorted(heard)
    ensures KeepsPromise(heard, maxEntries, ttl) <==>
            ChainsStayShort(heard, ttl) && NoneCrowdedOut(heard, maxEntries, ttl)
    ensures |heard| <= maxEntries ==> NoneCrowdedOut(heard, maxEntries, ttl)
  {
    KeptIffRight(heard, maxEntries, ttl);
    if ChainsStayShort(heard, ttl) && NoneCrowdedOut(heard, maxEntries, ttl) {
      forall n | 0 <= n < |heard| && AnswersRight(heard, n, maxEntries, ttl)
        ensures AnswerRight(heard, n, maxEntries, ttl)
      {
        ConditionMakesNextRight(heard, n, maxEntries, ttl);
      }
      RightByInduction(heard, |heard|, maxEntries, ttl);
    }
    if AnswersRight(heard, |heard|, maxEntries, ttl) {
      forall chain | IsChain(heard, chain, ttl) ensures Follows(heard, chain[0], chain[|chain| - 1], ttl) {
        RightShortensChains(heard, chain, maxEntries, ttl);
      }
      forall h, n | Follows(heard, h, n, ttl) && Opens(heard, h, ttl)
        ensures |Openings(heard, n, ttl)| - |Openings(heard, h, ttl)| <= maxEntries
      {
        RightCrowdsNoneOut(heard, h, n, maxEntries, ttl);
      }
    }
  }

  /** A duplicate does not refresh its entry: heard at 0, 299 and 301 s, a key is new the last time. */
  lemma DuplicateDoesNotRefresh(key: string)
    ensures var heard := [Sighting(key, 0.0), Sighting(key, 299.0), Sighting(key, 301.0)];
            && Recorded(heard, 10000, 300.0) == [heard[0], heard[2]]
            && !KeepsPromise(heard, 10000, 300.0)
  {
    var heard := [Sighting(key, 0.0), Sighting(key, 299.0), Sighting(key, 301.0)];
    assert heard[..1] == [heard[0]] && heard[..1][..0] == [];
    assert heard[..2] == [heard[0], heard[1]] && heard[..2][..1] == heard[..1];
    var log := [heard[0]];
    assert Recorded(heard[..1], 10000, 300.0) == log;
    assert log[0].key == key && Recorded(heard[..2], 10000, 300.0) == log;
    assert Follows(heard, 1, 2, 300.0) && !Answer(heard, 2, 10000, 300.0);
  }

  /** `seen` is what the log leaves after forgetting a prefix of expired or surplus entries. */
  ghost predicate Mirrors(
    seen: seq<Sighting>, log: seq<Sighting>, forgotten: nat, maxEntries: nat, ttl: real, now: real)
  {
    && forgotten <= |log| && seen == log[forgotten..]
    && (forall i, j :: 0 <= i < j < |seen| ==> seen[i].key != seen[j].key)
    && forall i :: 0 <= i < forgotten ==> log[i].time <= now - ttl || i < |log| - maxEntries
  }

  lemma ForgetOldest(
    seen: seq<Sighting>, log: seq<Sighting>, forgotten: nat, maxEntries: nat, ttl: real, now: real)
    requires Mirrors(seen, log, forgotten, maxEntries, ttl, now)
    requires |seen| > 0 && (seen[0].time <= now - ttl || |seen| > maxEntries)
    ensures Mirrors(seen[1..], log, forgotten + 1, maxEntries, ttl, now)
  {
    assert seen[0] == log[forgotten];
  }

  lemma RecordNewest(
    seen: seq<Sighting>, log: seq<Sighting>, forgotten: nat, maxEntries: nat, ttl: real, now: real, key: string)
    requires Mirrors(seen, log, forgotten, maxEntries, ttl, now)
    requires forall i :: 0 <= i < |seen| ==> seen[i].key != key
    ensures Mirrors(seen + [Sighting(key, now)], log + [Sighting(key, now)], forgotten, maxEntries, ttl, now)
  {
    assert (log + [Sighting(key, now)])[forgotten..] == seen + [Sighting(key, now)];
  }

  lemma StaysSorted(log: seq<Sighting>, before: real, s: Sighting)
    requires TimeSorted(log) && before <= s.time && forall i :: 0 <= i < |log| ==> log[i].time <= before
    ensures TimeSorted(log + [s]) && forall i :: 0 <= i < |log + [s]| ==> (log + [s])[i].time <= s.time
  {
  }

  /** Once the expired entries are gone, looking a key up in the cache answers for the whole log. */
  lemma CacheAnswersForLog(
    seen: seq<Sighting>, log: seq<Sighting>, forgotten: nat, maxEntries: nat, ttl: real, now: real, key: string)
    requires Mirrors(seen, log, forgotten, maxEntries, ttl, now) && |seen| <= maxEntries
    requires forall i :: 0 <= i < |seen| ==> seen[i].time > now - ttl
    ensures (exists e :: e in seen && e.key == key) <==> Remembered(log, maxEntries, ttl, key, now)
  {
    assert forall i :: 0 <= i < |seen| ==> seen[i] in seen && seen[i] == log[forgotten + i];
    if e :| e in seen && e.key == key {
      var i :| 0 <= i < |seen| && seen[i] == e;
      assert log[forgotten + i].key == key;
    }
    if Remembered(log, maxEntries, ttl, key, now) {
      var i :| 0 <= i < |log| && |log| - maxEntries <= i && log[i].key == key && log[i].time > now - ttl;
      assert seen[i - forgotten] == log[i];
    }
  }

  /** The log is what the receptions so far have left. */
  ghost predicate Records(heard: seq<Sighting>, log: seq<Sighting>, maxEntries: nat, ttl: real, now: real) {
    && TimeSorted(heard) && (forall i :: 0 <= i < |heard| ==> heard[i].time <= now)
    && log == Recorded(heard, maxEntries, ttl)
  }

  lemma HearNext(
    heard: seq<Sighting>, log: seq<Sighting>, maxEntries: nat, ttl: real, before: real, r: Sighting, duplicate: bool)
    requires Records(heard, log, maxEntries, ttl, before) && before <= r.time
    requires duplicate == Remembered(log, maxEntries, ttl, r.key, r.time)
    ensures Records(heard + [r], if duplicate then log else log + [r], maxEntries, ttl, r.time)
    ensures duplicate == Answer(heard + [r], |heard|, maxEntries, ttl)
  {
    assert (heard + [r])[..|heard|] == heard;
    RecordNext(heard, r, maxEntries, ttl);
  }

  class DeduplicationFilter {
    const maxEntries: nat
    const ttl: real
    var seen: seq<Sighting>            // the ordered dict, oldest insertion first
    ghost var heard: seq<Sighting>     // every packet ever asked about
    ghost var sightings: seq<Sighting> // everything ever inserted
    ghost var forgotten: nat
    ghost var clock: real

    /** The cache is a time-sorted, duplicate-free suffix of the log that lost only expired or surplus entries. */
    ghost predicate CacheValid()
      reads `seen, `sightings, `forgotten, `clock
    {
      && TimeSorted(sightings)
      && (forall i :: 0 <= i < |sightings| ==> sightings[i].time <= clock)
      && Mirrors(seen, sightings, forgotten, maxEntries, ttl, clock)
      && |seen| <= maxEntries
    }

    ghost predicate LogValid()
      reads `seen, `sightings, `forgotten, `clock
    {
      CacheValid() && Spaced(sightings, maxEntries, ttl)
    }

    ghost predicate Valid()
      reads this
    {
      LogValid() && Records(heard, sightings, maxEntries, ttl, clock)
    }

    constructor (maxEntries: nat, ttl: real, ghost now: real)
      ensures Valid() && heard == [] && sightings == [] && clock == now
      ensures this.maxEntries == maxEntries && this.ttl == ttl
    {
      this.maxEntries, this.ttl := maxEntries, ttl;
      seen := [];
      heard, sightings, forgotten, clock := [], [], 0, now;
    }

    method IsDuplicate(sourceId: string, packetId: string, now: real) returns (duplicate: bool)
      requires Valid() && clock <= now
      modifies this
      ensures Valid() && clock == now && heard == old(heard) + [Sighting(Key(sourceId, packetId), now)]
      ensures duplicate == Remembered(old(sightings), maxEntries, ttl, Key(sourceId, packetId), now)
      ensures duplicate == Answer(heard, |old(heard)|, maxEntries, ttl)
      ensures sightings == if duplicate then old(sightings)
                           else old(sightings) + [Sighting(Key(sourceId, packetId), now)]
    {
      var key := Key(sourceId, packetId);
      duplicate := CheckKey(key, now);
      heard := heard + [Sighting(key, now)];
      HearNext(old(heard), old(sightings), maxEntries, ttl, old(clock), Sighting(key, now), duplicate);
    }

    method CheckKey(key: string, now: real) returns (duplicate: bool)
      requires LogValid() && clock <= now
      modifies this`seen, this`forgotten, this`sightings, this`clock
      ensures LogValid() && clock == now
      ensures duplicate == Remembered(old(sightings), maxEntries, ttl, key, now)
      ensures sightings == if duplicate then old(sightings) else old(sightings) + [Sighting(key, now)]
    {
      EvictExpired(now);
      CacheAnswersForLog(seen, sightings, forgotten, maxEntries, ttl, now, key);
      duplicate := exists e :: e in seen && e.key == key;
      if !duplicate {
        assert forall i :: 0 <= i < |seen| ==> seen[i] in seen;
        Insert(key, now);
      }
    }

    method EvictExpired(now: real)
      requires CacheValid() && clock <= now
      modifies this`seen, this`forgotten, this`clock
      ensures CacheValid() && clock == now
      ensures forall i :: 0 <= i < |seen| ==> seen[i].time > now - ttl
    {
      clock := now;
      var cutoff := now - ttl;
      while |seen| > 0 && seen[0].time <= cutoff
        invariant clock == now && |seen| <= maxEntries
        invariant Mirrors(seen, sightings, forgotten, maxEntries, ttl, now)
      {
        ForgetOldest(seen, sightings, forgotten, maxEntries, ttl, now);
        seen := seen[1..];
        forgotten := forgotten + 1;
      }
      forall i | 0 <= i < |seen| ensures seen[i].time > cutoff {
        assert seen[i] == sightings[forgotten + i] && seen[0] == sightings[forgotten];
      }
    }

    method Insert(key: string, now: real)
      requires LogValid() && clock == now
      requires !Remembered(sightings, maxEntries, ttl, key, now)
      requires forall i :: 0 <= i < |seen| ==> seen[i].key != key
      modifies this`seen, this`forgotten, this`sightings
      ensures LogValid() && sightings == old(sightings) + [Sighting(key, now)]
    {
      RecordIffStaysSpaced(sightings, maxEntries, ttl, key, now);
      StaysSorted(sightings, now, Sighting(key, now));
      RecordNewest(seen, sightings, forgotten, maxEntries, ttl, now, key);
      seen := seen + [Sighting(key, now)];
      sightings := sightings + [Sighting(key, now)];
      while |seen| > maxEntries
        invariant sightings == old(sightings) + [Sighting(key, now)]
        invariant Mirrors(seen, sightings, forgotten, maxEntries, ttl, now)
      {
        ForgetOldest(seen, sightings, forgotten, maxEntries, ttl, now);
        seen := seen[1..];
        forgotten := forgotten + 1;
      }
    }
  }
}
