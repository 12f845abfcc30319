/** The key table, and the two sides of channel numbering: the hash TX puts on channel i, and the index RX
    reads back from a hash. */
module ChannelNumbering {
  import opened Bytes
  import opened Crypto
  import opened Options
  import Search
  import Utf8Encoding

  datatype ChannelKey = ChannelKey(name: string, key: seq<byte>)

  function Names(table: seq<ChannelKey>): seq<string> {
    seq(|table|, i requires 0 <= i < |table| => table[i].name)
  }

  ghost predicate Distinct(table: seq<ChannelKey>) {
    forall i, j :: 0 <= i < j < |table| ==> table[i].name != table[j].name
  }

  function IndexOf(table: seq<ChannelKey>, name: string): (index: nat)
    ensures index <= |table|
    ensures index < |table| ==> table[index].name == name
    ensures forall i :: 0 <= i < index ==> table[i].name != name
  {
    Search.FirstIndex(table, (entry: ChannelKey) => entry.name == name)
  }

  /** Assignment into an insertion-ordered dict: a known name keeps its place. */
  function Put(table: seq<ChannelKey>, name: string, key: seq<byte>): seq<ChannelKey> {
    var index := IndexOf(table, name);
    if index < |table| then table[index := ChannelKey(name, key)] else table + [ChannelKey(name, key)]
  }

  /** Loading a configured section, whose keys are still unexpanded. */
  function PutAll(table: seq<ChannelKey>, section: seq<ChannelKey>): seq<ChannelKey>
    decreases |section|
  {
    if section == [] then table
    else PutAll(Put(table, section[0].name, ExpandKey(section[0].key)), section[1..])
  }

  lemma PutKeepsOrder(table: seq<ChannelKey>, name: string, key: seq<byte>)
    requires Distinct(table)
    ensures Distinct(Put(table, name, key)) && Names(table) <= Names(Put(table, name, key))
    ensures IndexOf(table, name) == |table| ==> Put(table, name, key) == table + [ChannelKey(name, key)]
  {
  }

  lemma {:induction false} PutAllKeepsPrefix(table: seq<ChannelKey>, section: seq<ChannelKey>)
    requires Distinct(table)
    ensures Distinct(PutAll(table, section)) && Names(table) <= Names(PutAll(table, section))
    decreases |section|
  {
    if section == [] {
    } else {
      PutKeepsOrder(table, section[0].name, ExpandKey(section[0].key));
      PutAllKeepsPrefix(Put(table, section[0].name, ExpandKey(section[0].key)), section[1..]);
    }
  }

  lemma DistinctPrefix(a: seq<ChannelKey>, b: seq<ChannelKey>)
    requires Distinct(a + b)
    ensures Distinct(a)
  {
    assert forall i :: 0 <= i < |a| ==> (a + b)[i] == a[i];
  }

  lemma SameNamesDistinct(a: seq<ChannelKey>, b: seq<ChannelKey>)
    requires Distinct(a) && |a| == |b| && forall i :: 0 <= i < |a| ==> a[i].name == b[i].name
    ensures Distinct(b)
  {
  }

  /** The first entry of a section with new names is appended, and the rest still has new names. */
  lemma PutAppendsNew(table: seq<ChannelKey>, section: seq<ChannelKey>)
    requires Distinct(table + section) && section != []
    ensures var next := Put(table, section[0].name, ExpandKey(section[0].key));
            && Distinct(next + section[1..])
            && Names(next) + Names(section[1..]) == Names(table) + Names(section)
  {
    var head := ChannelKey(section[0].name, ExpandKey(section[0].key));
    assert (table + section)[|table|].name == head.name;
    assert forall i :: 0 <= i < |table| ==> (table + section)[i].name == table[i].name;
    DistinctPrefix(table, section);
    PutKeepsOrder(table, head.name, head.key);
    SameNamesDistinct(table + section, table + [head] + section[1..]);
    assert Names(table + [head]) + Names(section[1..]) == Names(table) + Names(section);
  }

  /** A section with new names is appended in its own order. */
  lemma {:induction false} PutAllAppends(table: seq<ChannelKey>, section: seq<ChannelKey>)
    requires Distinct(table + section)
    ensures Names(PutAll(table, section)) == Names(table) + Names(section)
    decreases |section|
  {
    if section == [] {
    } else {
      PutAppendsNew(table, section);
      PutAllAppends(Put(table, section[0].name, ExpandKey(section[0].key)), section[1..]);
    }
  }

  function HashOf(name: string, key: seq<byte>): byte {
    ChannelHash(Utf8Encoding.Encode(name), key)
  }

  /** The name and the key both count: the hash is the XOR of the two. */
  lemma HashIsXorOfBoth(name: string, key: seq<byte>)
    ensures HashOf(name, key) == Xor(XorAll(Utf8Encoding.Encode(name)), XorAll(key))
  {
    XorAllConcat(Utf8Encoding.Encode(name), key);
  }

  /** All keys, the default key first. */
  function AllKeys(defaultKey: Option<seq<byte>>, table: seq<ChannelKey>): seq<seq<byte>> {
    (if defaultKey.Some? then [defaultKey.value] else [])
    + seq(|table|, i requires 0 <= i < |table| => table[i].key)
  }

  class CryptoService {
    const defaultKey: Option<seq<byte>>
    var keys: seq<ChannelKey>

    ghost predicate Valid()
      reads this
    {
      && Distinct(keys)
      && (defaultKey.Some? ==> IsAesKey(defaultKey.value))
      && forall i :: 0 <= i < |keys| ==> IsAesKey(keys[i].key)
    }

    constructor (defaultRaw: Option<seq<byte>>)
      ensures Valid() && keys == [] && (defaultKey.Some? <==> defaultRaw.Some?)
    {
      defaultKey := if defaultRaw.Some? then Some(ExpandKey(defaultRaw.value)) else None;
      keys := [];
    }

    method AddChannelKey(name: string, raw: seq<byte>)
      requires Valid()
      modifies this`keys
      ensures Valid() && keys == Put(old(keys), name, ExpandKey(raw))
    {
      PutKeepsOrder(keys, name, ExpandKey(raw));
      PutKeepsAes(keys, name, ExpandKey(raw));
      keys := Put(keys, name, ExpandKey(raw));
    }

    /** The coordinator's startup loop over one configured section. */
    method AddSection(section: seq<ChannelKey>)
      requires Valid()
      modifies this`keys
      ensures Valid() && keys == PutAll(old(keys), section)
    {
      for i := 0 to |section|
        invariant Valid() && PutAll(keys, section[i..]) == PutAll(old(keys), section)
      {
        assert section[i..][1..] == section[i + 1..];
        AddChannelKey(section[i].name, section[i].key);
      }
    }

    function GetAllKeys(): (all: seq<seq<byte>>)
      requires Valid()
      reads this
      ensures forall i :: 0 <= i < |all| ==> IsAesKey(all[i])
      ensures |all| == |keys| + if defaultKey.Some? then 1 else 0
      ensures defaultKey.Some? ==> all[0] == defaultKey.value
      ensures forall i :: 0 <= i < |keys| ==> all[|all| - |keys| + i] == keys[i].key
    {
      AllKeys(defaultKey, keys)
    }
  }

  lemma PutKeepsAes(table: seq<ChannelKey>, name: string, key: seq<byte>)
    requires IsAesKey(key) && forall i :: 0 <= i < |table| ==> IsAesKey(table[i].key)
    ensures forall i :: 0 <= i < |Put(table, name, key)| ==> IsAesKey(Put(table, name, key)[i].key)
  {
  }

  /** Loading expands every key, so the whole table is usable. */
  lemma {:induction false} LoadingKeepsAes(table: seq<ChannelKey>, section: seq<ChannelKey>)
    requires forall i :: 0 <= i < |table| ==> IsAesKey(table[i].key)
    ensures forall i :: 0 <= i < |PutAll(table, section)| ==> IsAesKey(PutAll(table, section)[i].key)
    decreases |section|
  {
    if section == [] {
    } else {
      PutKeepsAes(table, section[0].name, ExpandKey(section[0].key));
      LoadingKeepsAes(Put(table, section[0].name, ExpandKey(section[0].key)), section[1..]);
    }
  }

  const FALLBACK_HASH: byte := 0x08

  /** TX: the hash and key for a channel index. A negative index counts from the end of the table, as list
      indexing does; an index past either end means the primary channel or, below, the fallback. */
  function ResolveChannel(
    defaultKey: Option<seq<byte>>, table: seq<ChannelKey>, primary: string, channel: int): (byte, Option<seq<byte>>)
  {
    var all := AllKeys(defaultKey, table);
    if all == [] then (FALLBACK_HASH, None)
    else if channel == 0 || channel - 1 >= |table| then (HashOf(primary, all[0]), Some(all[0]))
    else
      var index := if channel > 0 then channel - 1 else |table| + channel - 1;
      if index < 0 then (FALLBACK_HASH, None)
      else (HashOf(table[index].name, table[index].key), Some(table[index].key))
  }

  /** Channel 0 and numbers beyond the table are the primary channel under the first of all keys. */
  lemma PrimaryChannel(defaultKey: Option<seq<byte>>, table: seq<ChannelKey>, primary: string, channel: int)
    requires channel == 0 || channel > |table|
    ensures ResolveChannel(defaultKey, table, primary, channel) ==
            if defaultKey.Some? then (HashOf(primary, defaultKey.value), Some(defaultKey.value))
            else if table != [] then (HashOf(primary, table[0].key), Some(table[0].key))
            else (0x08, None)
  {
  }

  /** Channel -1 is the last but one of the table, -2 the one before, and so on; beyond its start the fallback is
      used. */
  lemma NegativeChannel(
    defaultKey: Option<seq<byte>>, table: seq<ChannelKey>, primary: string, channel: int)
    requires channel < 0 && AllKeys(defaultKey, table) != []
    ensures ResolveChannel(defaultKey, table, primary, channel) ==
            if |table| + channel >= 1 then
              var entry := table[|table| - 1 + channel];
              (HashOf(entry.name, entry.key), Some(entry.key))
            else (0x08, None)
  {
  }

  /** What RX hashes for each of its channel numbers: the i-th configured name with the i-th key overall. */
  function HashEach(
    all: seq<seq<byte>>, primary: string, names: seq<string>, hash: (string, seq<byte>) -> byte): seq<byte>
  {
    if all == [] then []
    else
      var count := if |names| < |all| then |names| else |all| - 1;
      seq(count + 1, i requires 0 <= i <= count => if i == 0 then hash(primary, all[0]) else hash(names[i - 1], all[i]))
  }

  function ReceivedHashes(all: seq<seq<byte>>, primary: string, names: seq<string>): seq<byte> {
    HashEach(all, primary, names, HashOf)
  }

  /** The channel number a received hash is filed under; unknown hashes go to the primary channel. */
  function FiledUnder(hashMap: map<byte, nat>, hash: byte): nat {
    if hash in hashMap then hashMap[hash] else 0
  }

  ghost predicate IsLastIndex(hashes: seq<byte>, h: byte, index: nat) {
    index < |hashes| && hashes[index] == h && forall j :: index < j < |hashes| ==> hashes[j] != h
  }

  /** Every hash is sent to the last channel number that has it. */
  ghost predicate MapsLast(hashMap: map<byte, nat>, hashes: seq<byte>) {
    && (forall i :: 0 <= i < |hashes| ==> hashes[i] in hashMap)
    && forall h :: h in hashMap ==> IsLastIndex(hashes, h, hashMap[h])
  }

  lemma MapsLastOfAppend(hashMap: map<byte, nat>, hashes: seq<byte>, last: byte)
    requires MapsLast(hashMap, hashes)
    ensures MapsLast(hashMap[last := |hashes|], hashes + [last])
  {
  }

  function UpTo(hashes: seq<byte>, i: nat): seq<byte> {
    if i < |hashes| then hashes[..i] else hashes
  }

  lemma UpToNext(hashes: seq<byte>, i: nat)
    ensures UpTo(hashes, i + 1) == if i < |hashes| then UpTo(hashes, i) + [hashes[i]] else UpTo(hashes, i)
  {
  }

  lemma HashEachAt(
    all: seq<seq<byte>>, primary: string, names: seq<string>, hash: (string, seq<byte>) -> byte, i: nat)
    requires 1 <= i <= |names|
    ensures var hashes := HashEach(all, primary, names, hash);
            && (i < |hashes| <==> i < |all|)
            && (i < |all| ==> hashes[i] == hash(names[i - 1], all[i]))
  {
  }

  lemma ReceivedHashAt(all: seq<seq<byte>>, primary: string, names: seq<string>, i: nat)
    requires 1 <= i <= |names|
    ensures var hashes := ReceivedHashes(all, primary, names);
            && (i < |hashes| <==> i < |all|)
            && (i < |all| ==> hashes[i] == HashOf(names[i - 1], all[i]))
  {
    HashEachAt(all, primary, names, HashOf, i);
  }

  /** The hash map built at startup: later channels overwrite earlier ones of the same hash. */
  method BuildHashMap(all: seq<seq<byte>>, primary: string, names: seq<string>) returns (hashMap: map<byte, nat>)
    ensures MapsLast(hashMap, ReceivedHashes(all, primary, names))
  {
    hashMap := map[];
    if all == [] {
      return;
    }
    ghost var hashes := ReceivedHashes(all, primary, names);
    MapsLastOfAppend(hashMap, [], HashOf(primary, all[0]));
    hashMap := hashMap[HashOf(primary, all[0]) := 0];
    assert UpTo(hashes, 1) == [] + [HashOf(primary, all[0])];
    for i := 1 to |names| + 1
      invariant MapsLast(hashMap, UpTo(hashes, i))
    {
      ReceivedHashAt(all, primary, names, i);
      UpToNext(hashes, i);
      if i < |all| {
        MapsLastOfAppend(hashMap, UpTo(hashes, i), hashes[i]);
        hashMap := hashMap[HashOf(names[i - 1], all[i]) := i];
      }
    }
  }

  /** The key table after startup: the Meshtastic section, then the MeshCore section. */
  function Loaded(meshtastic: seq<ChannelKey>, meshcore: seq<ChannelKey>): seq<ChannelKey> {
    PutAll(PutAll([], meshtastic), meshcore)
  }

  /** With a default key, RX hashes for channel i exactly what TX sends on channel i, whatever MeshCore
      channels, even of the same name, were loaded afterwards. */
  lemma HashesAgree(
    defaultKey: Option<seq<byte>>, meshtastic: seq<ChannelKey>, meshcore: seq<ChannelKey>, primary: string, i: nat)
    requires defaultKey.Some? && Distinct(meshtastic) && i <= |meshtastic|
    ensures var table := Loaded(meshtastic, meshcore);
            var hashes := ReceivedHashes(AllKeys(defaultKey, table), primary, Names(meshtastic));
            i < |hashes| && hashes[i] == ResolveChannel(defaultKey, table, primary, i).0
  {
    LoadedStartsWithMeshtastic(meshtastic, meshcore);
    var table := Loaded(meshtastic, meshcore);
    if i > 0 {
      HashesWithDefaultKey(defaultKey, table, Names(meshtastic), primary, i);
    }
  }

  lemma AllKeysAt(defaultKey: Option<seq<byte>>, table: seq<ChannelKey>, i: nat)
    requires 1 <= i <= |table|
    ensures var all := AllKeys(defaultKey, table);
            if defaultKey.Some? then |all| == |table| + 1 && all[0] == defaultKey.value && all[i] == table[i - 1].key
            else |all| == |table| && (i < |table| ==> all[i] == table[i].key)
  {
  }

  lemma ResolvedAt(defaultKey: Option<seq<byte>>, table: seq<ChannelKey>, primary: string, i: nat)
    requires 1 <= i <= |table|
    ensures ResolveChannel(defaultKey, table, primary, i)
            == (HashOf(table[i - 1].name, table[i - 1].key), Some(table[i - 1].key))
  {
    AllKeysAt(defaultKey, table, i);
  }

  lemma NameAt(table: seq<ChannelKey>, names: seq<string>, i: nat)
    requires names <= Names(table) && i < |names|
    ensures i < |table| && names[i] == table[i].name
  {
    assert names[i] == Names(table)[i];
  }

  lemma HashesWithDefaultKey(
    defaultKey: Option<seq<byte>>, table: seq<ChannelKey>, names: seq<string>, primary: string, i: nat)
    requires defaultKey.Some? && names <= Names(table) && 1 <= i <= |names|
    ensures var hashes := ReceivedHashes(AllKeys(defaultKey, table), primary, names);
            i < |hashes| && hashes[i] == ResolveChannel(defaultKey, table, primary, i).0
  {
    NameAt(table, names, i - 1);
    ResolvedAt(defaultKey, table, primary, i);
    AllKeysAt(defaultKey, table, i);
    ReceivedHashAt(AllKeys(defaultKey, table), primary, names, i);
  }

  lemma LoadedStartsWithMeshtastic(meshtastic: seq<ChannelKey>, meshcore: seq<ChannelKey>)
    requires Distinct(meshtastic)
    ensures |Loaded(meshtastic, meshcore)| >= |meshtastic|
    ensures Names(meshtastic) <= Names(Loaded(meshtastic, meshcore))
  {
    PutAllAppends([], meshtastic);
    assert [] + meshtastic == meshtastic && Names([]) + Names(meshtastic) == Names(meshtastic);
    PutAllKeepsPrefix([], meshtastic);
    PutAllKeepsPrefix(PutAll([], meshtastic), meshcore);
  }

  /** So the index RX reads off TX's hash is the channel's own, unless a later channel has the same hash. */
  lemma IndexAgreesIff(
    defaultKey: Option<seq<byte>>, meshtastic: seq<ChannelKey>, meshcore: seq<ChannelKey>, primary: string,
    hashMap: map<byte, nat>, i: nat)
    requires defaultKey.Some? && Distinct(meshtastic) && i <= |meshtastic|
    requires MapsLast(
               hashMap, ReceivedHashes(AllKeys(defaultKey, Loaded(meshtastic, meshcore)), primary, Names(meshtastic)))
    ensures var table := Loaded(meshtastic, meshcore);
            var hash := ResolveChannel(defaultKey, table, primary, i).0;
            && hash in hashMap
            && (FiledUnder(hashMap, hash) == i <==>
                forall j :: i < j <= |meshtastic| ==> ResolveChannel(defaultKey, table, primary, j).0 != hash)
  {
    forall j: nat | j <= |meshtastic|
      ensures var table := Loaded(meshtastic, meshcore);
              var hashes := ReceivedHashes(AllKeys(defaultKey, table), primary, Names(meshtastic));
              j < |hashes| && hashes[j] == ResolveChannel(defaultKey, table, primary, j).0
    {
      HashesAgree(defaultKey, meshtastic, meshcore, primary, j);
    }
  }

  lemma XorAssociative(a: byte, b: byte, c: byte)
    ensures Xor(Xor(a, b), c) == Xor(a, Xor(b, c))
  {
    BitsRoundTrip((a as bv8) ^ (b as bv8));
    BitsRoundTrip((b as bv8) ^ (c as bv8));
  }

  lemma XorZero(a: byte)
    ensures Xor(a, 0) == a
  {
    ByteRoundTrip(a);
  }

  lemma {:induction false} XorAllConcat(a: seq<byte>, b: seq<byte>)
    ensures XorAll(a + b) == Xor(XorAll(a), XorAll(b))
  {
    if b == [] {
      assert a + b == a;
      XorZero(XorAll(a));
    } else {
      var front, last := b[..|b| - 1], b[|b| - 1];
      assert (a + b)[..|a + b| - 1] == a + front;
      XorAllConcat(a, front);
      XorAssociative(XorAll(a), XorAll(front), last);
    }
  }

  lemma XorCancels(a: byte, b: byte, c: byte)
    ensures Xor(a, b) == Xor(a, c) <==> b == c
  {
    if Xor(a, b) == Xor(a, c) {
      assert Xor(b, a) == Xor(a, b) && Xor(c, a) == Xor(a, c);
      XorInvolutive(b, a);
      XorInvolutive(c, a);
    }
  }

  lemma HashesOfOneNameAgreeIff(name: string, key: seq<byte>, key': seq<byte>)
    ensures HashOf(name, key) == HashOf(name, key') <==> XorAll(key) == XorAll(key')
  {
    var bytes := Utf8Encoding.Encode(name);
    XorAllConcat(bytes, key);
    XorAllConcat(bytes, key');
    XorCancels(XorAll(bytes), XorAll(key), XorAll(key'));
  }

  /** Without a default key RX is off by one key: it hashes channel i with channel i+1's key, and the last key
      loaded stands for no channel. TX's hash of channel i is then filed under i only if there is a next key, the
      two keys happen to XOR to the same byte, and no later RX hash is equal. For channel 0 both sides use the
      first key, and without any key it is the fallback. */
  lemma IndexWithoutDefaultKeyAgreesIff(
    meshtastic: seq<ChannelKey>, meshcore: seq<ChannelKey>, primary: string, hashMap: map<byte, nat>, i: nat)
    requires Distinct(meshtastic) && i <= |meshtastic|
    requires MapsLast(hashMap, ReceivedHashes(AllKeys(None, Loaded(meshtastic, meshcore)), primary, Names(meshtastic)))
    ensures |Loaded(meshtastic, meshcore)| >= i
    ensures var table := Loaded(meshtastic, meshcore);
            var hashes := ReceivedHashes(AllKeys(None, table), primary, Names(meshtastic));
            var hash := ResolveChannel(None, table, primary, i).0;
            (FiledUnder(hashMap, hash) == i <==>
             && (i > 0 ==> i < |table| && XorAll(table[i].key) == XorAll(table[i - 1].key))
             && forall j :: i < j < |hashes| ==> hashes[j] != hash)
  {
    var table := Loaded(meshtastic, meshcore);
    LoadedStartsWithMeshtastic(meshtastic, meshcore);
    if i == 0 {
      PrimaryWithoutDefaultKey(table, Names(meshtastic), primary);
      return;
    }
    HashesWithoutDefaultKey(table, Names(meshtastic), primary, i);
    if i < |table| {
      HashesOfOneNameAgreeIff(table[i - 1].name, table[i].key, table[i - 1].key);
    }
  }

  lemma PrimaryWithoutDefaultKey(table: seq<ChannelKey>, names: seq<string>, primary: string)
    ensures var hashes := ReceivedHashes(AllKeys(None, table), primary, names);
            if table == [] then hashes == []
            else |hashes| > 0 && hashes[0] == ResolveChannel(None, table, primary, 0).0
  {
    var all := AllKeys(None, table);
    assert |all| == |table|;
  }

  lemma HashesWithoutDefaultKey(table: seq<ChannelKey>, names: seq<string>, primary: string, i: nat)
    requires names <= Names(table) && 1 <= i <= |names|
    ensures ResolveChannel(None, table, primary, i).0 == HashOf(table[i - 1].name, table[i - 1].key)
    ensures var hashes := ReceivedHashes(AllKeys(None, table), primary, names);
            && (i < |hashes| <==> i < |table|)
            && (i < |table| ==> hashes[i] == HashOf(table[i - 1].name, table[i].key))
  {
    NameAt(table, names, i - 1);
    ResolvedAt(None, table, primary, i);
    AllKeysAt(None, table, i);
    ReceivedHashAt(AllKeys(None, table), primary, names, i);
  }

  /** Keys that differ in their last byte only XOR to different bytes. */
  lemma LastBytesDecide(a: seq<byte>, b: seq<byte>)
    requires |a| == |b| > 0 && a[..|a| - 1] == b[..|b| - 1] && a[|a| - 1] != b[|b| - 1]
    ensures XorAll(a) != XorAll(b)
  {
    XorCancels(XorAll(a[..|a| - 1]), a[|a| - 1], b[|b| - 1]);
  }

  lemma TwoKeysLoaded(a: ChannelKey, b: ChannelKey)
    requires a.name != b.name
    ensures Loaded([a, b], []) == [ChannelKey(a.name, ExpandKey(a.key)), ChannelKey(b.name, ExpandKey(b.key))]
  {
    var a', b' := ChannelKey(a.name, ExpandKey(a.key)), ChannelKey(b.name, ExpandKey(b.key));
    assert Put([], a.name, a'.key) == [a'];
    assert Put([a'], b.name, b'.key) == [a', b'];
    assert [a, b][1..] == [b] && PutAll([a'], [b]) == PutAll([a', b'], []);
  }

  /** So with two channels and no default key, neither is filed under its number once their keys XOR to different
      bytes: the first is hashed with the wrong key, and for the second there is no next key. */
  lemma TwoChannelsDisagree(a: ChannelKey, b: ChannelKey, primary: string, hashMap: map<byte, nat>, i: nat)
    requires a.name != b.name && XorAll(ExpandKey(a.key)) != XorAll(ExpandKey(b.key)) && 1 <= i <= 2
    requires MapsLast(hashMap, ReceivedHashes(AllKeys(None, Loaded([a, b], [])), primary, Names([a, b])))
    ensures FiledUnder(hashMap, ResolveChannel(None, Loaded([a, b], []), primary, i).0) != i
  {
    TwoKeysLoaded(a, b);
    IndexWithoutDefaultKeyAgreesIff([a, b], [], primary, hashMap, i);
  }

  /** For instance, under the well-known keys 1 and 2, which differ in their last byte only. */
  lemma LongFastAndAdminDisagree(primary: string, hashMap: map<byte, nat>, i: nat)
    requires 1 <= i <= 2
    requires var (a, b) := (ChannelKey("LongFast", [1]), ChannelKey("Admin", [2]));
             MapsLast(hashMap, ReceivedHashes(AllKeys(None, Loaded([a, b], [])), primary, Names([a, b])))
    ensures var (a, b) := (ChannelKey("LongFast", [1]), ChannelKey("Admin", [2]));
            var hash := ResolveChannel(None, Loaded([a, b], []), primary, i).0;
            FiledUnder(hashMap, hash) != i
  {
    assert "LongFast"[0] != "Admin"[0];
    LastBytesDecide(ExpandKey([1]), ExpandKey([2]));
    TwoChannelsDisagree(ChannelKey("LongFast", [1]), ChannelKey("Admin", [2]), primary, hashMap, i);
  }
}
