/** From a channel number on the sending side to a text and a channel number on the receiving side. */
module EndToEnd {
  import opened Bytes
  import opened ChannelNumbering
  import opened Crypto
  import opened Frames
  import opened Options
  import Protobuf
  import Utf8Encoding

  ghost predicate AesKeys(defaultKey: Option<seq<byte>>, table: seq<ChannelKey>) {
    && (defaultKey.Some? ==> IsAesKey(defaultKey.value))
    && forall i :: 0 <= i < |table| ==> IsAesKey(table[i].key)
  }

  /** With a default key, channel i is encrypted with the i-th of all keys. */
  lemma ResolvedKeyIsListed(defaultKey: Option<seq<byte>>, table: seq<ChannelKey>, primary: string, channel: nat)
    requires defaultKey.Some? && AesKeys(defaultKey, table) && channel <= |table|
    ensures var (hash, key) := ResolveChannel(defaultKey, table, primary, channel);
            var all := AllKeys(defaultKey, table);
            key == Some(all[channel]) && IsAesKey(all[channel])
  {
  }

  /** A text sent on channel i reaches every node with the same keys as that text, with the sender's header;
      the receiver files it under channel i exactly when no later channel has the same hash. */
  lemma SentTextIsReadAndFiled(
    cipher: Cipher, reader: Reader, defaultKey: Option<seq<byte>>, meshtastic: seq<ChannelKey>,
    meshcore: seq<ChannelKey>, primary: string, hashMap: map<byte, nat>, channel: nat, text: string, dest: int,
    source: int, packetId: int, wantAck: bool)
    requires defaultKey.Some? && Distinct(meshtastic) && channel <= |meshtastic|
    requires IsAesKey(defaultKey.value)
    requires MapsLast(
               hashMap, ReceivedHashes(AllKeys(defaultKey, Loaded(meshtastic, meshcore)), primary, Names(meshtastic)))
    requires Is32Bit(dest) && Is32Bit(source) && Is32Bit(packetId)
    requires |Utf8Encoding.Encode(text)| < Protobuf.WORD && reader.decodeText(Utf8Encoding.Encode(text)) == text
    requires var table := Loaded(meshtastic, meshcore);
             var (hash, key) := ResolveChannel(defaultKey, table, primary, channel);
             channel <= |AllKeys(defaultKey, table)| &&
             NoneReads(cipher, reader, AllKeys(defaultKey, table), channel,
                       Header(dest, source, packetId, 3, 3, wantAck, false, hash),
                       BuildTextMessage(cipher, defaultKey, key, text, dest, source, packetId, hash, 3, 3, wantAck))
    ensures var table := Loaded(meshtastic, meshcore);
            var (hash, key) := ResolveChannel(defaultKey, table, primary, channel);
            var built := BuildTextMessage(cipher, defaultKey, key, text, dest, source, packetId, hash, 3, 3, wantAck);
            && built.Frame?
            && Decoded(cipher, reader, AllKeys(defaultKey, table), built.bytes)
               == Some(Packet(Header(dest, source, packetId, 3, 3, wantAck, false, hash), Some(Text(text)), true))
            && hash in hashMap
            && (FiledUnder(hashMap, hash) == channel <==>
                forall j :: channel < j <= |meshtastic| ==> ResolveChannel(defaultKey, table, primary, j).0 != hash)
  {
    var table := Loaded(meshtastic, meshcore);
    LoadedStartsWithMeshtastic(meshtastic, meshcore);
    LoadingKeepsAes([], meshtastic);
    LoadingKeepsAes(PutAll([], meshtastic), meshcore);
    ResolvedKeyIsListed(defaultKey, table, primary, channel);
    var (hash, key) := ResolveChannel(defaultKey, table, primary, channel);
    var h := Header(dest, source, packetId, 3, 3, wantAck, false, hash);
    TextRoundTrip(cipher, reader, defaultKey, key, AllKeys(defaultKey, table), channel, text, h);
    IndexAgreesIff(defaultKey, meshtastic, meshcore, primary, hashMap, channel);
  }
}
