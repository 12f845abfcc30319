/** On-air frames: how the builder makes them, how the decoder reads them by trying every key, and why the
    second undoes the first. */
module Utf8Encoding {
  import opened Bytes

  function EncodeChar(c: char): (s: seq<byte>)
    ensures 1 <= |s| <= 4
    ensures |s| == 1 <==> c as int < 0x80
  {
    var x := c as int;
    if x < 0x80 then [x]
    else if x < 0x800 then [0xC0 + x / 64, 0x80 + x % 64]
    else if x < 0x1_0000 then [0xE0 + x / 4096, 0x80 + x / 64 % 64, 0x80 + x % 64]
    else [0xF0 + x / 262144, 0x80 + x / 4096 % 64, 0x80 + x / 64 % 64, 0x80 + x % 64]
  }

  /** The scalar value of a UTF-8 sequence: the lead byte's bits, then six bits of every further byte. */
  function FromUtf8(s: seq<byte>): int
    requires 1 <= |s| <= 4
  {
    if |s| == 1 then s[0] as int
    else if |s| == 2 then (s[0] as int - 0xC0) * 64 + (s[1] as int - 0x80)
    else if |s| == 3 then ((s[0] as int - 0xE0) * 64 + (s[1] as int - 0x80)) * 64 + (s[2] as int - 0x80)
    else (((s[0] as int - 0xF0) * 64 + (s[1] as int - 0x80)) * 64 + (s[2] as int - 0x80)) * 64 + (s[3] as int - 0x80)
  }

  lemma SixBits(x: nat)
    ensures x == x / 64 * 64 + x % 64
    ensures x / 64 / 64 == x / 4096 && x / 4096 / 64 == x / 262144
  {
  }

  lemma Base64Digits(x: nat)
    ensures x == x / 64 * 64 + x % 64
    ensures x == (x / 4096 * 64 + x / 64 % 64) * 64 + x % 64
    ensures x == ((x / 262144 * 64 + x / 4096 % 64) * 64 + x / 64 % 64) * 64 + x % 64
  {
    SixBits(x);
    var q, r := x / 64, x / 4096;
    assert q == q / 64 * 64 + q % 64 && r == r / 64 * 64 + r % 64;
  }

  /** Section 3 of RFC 3629: the shortest form, a lead byte that tells the length, and tail bytes. */
  lemma EncodeCharIsUtf8(c: char)
    ensures var s, x := EncodeChar(c), c as int;
            && FromUtf8(s) == x
            && |s| == (if x < 0x80 then 1 else if x < 0x800 then 2 else if x < 0x1_0000 then 3 else 4)
            && (|s| == 2 ==> 0xC0 <= s[0] < 0xE0) && (|s| == 3 ==> 0xE0 <= s[0] < 0xF0)
            && (|s| == 4 ==> 0xF0 <= s[0] < 0xF8) && forall k :: 1 <= k < |s| ==> 0x80 <= s[k] < 0xC0
  {
    Base64Digits(c as int);
  }

  function Encode(text: string): (s: seq<byte>)
    ensures |text| <= |s| <= 4 * |text|
  {
    if text == "" then [] else EncodeChar(text[0]) + Encode(text[1..])
  }

  lemma {:induction false} EncodeConcat(a: string, b: string)
    ensures Encode(a + b) == Encode(a) + Encode(b)
  {
    if a == "" {
      assert a + b == b;
    } else {
      assert (a + b)[1..] == a[1..] + b;
      EncodeConcat(a[1..], b);
      Regroup(EncodeChar(a[0]), Encode(a[1..]), Encode(b));
    }
  }

  lemma Regroup(a: seq<byte>, b: seq<byte>, c: seq<byte>)
    ensures a + b + c == a + (b + c)
  {
  }

  lemma EncodeOne(c: char)
    ensures Encode([c]) == EncodeChar(c)
  {
    assert [c][1..] == "";
  }

  lemma {:induction false} AstralLength(text: string)
    requires forall i :: 0 <= i < |text| ==> text[i] as int >= 0x1_0000
    ensures |Encode(text)| == 4 * |text|
  {
    if text == "" {
    } else {
      AstralLength(text[1..]);
    }
  }

  lemma {:induction false} AsciiLength(text: string)
    requires forall i :: 0 <= i < |text| ==> text[i] as int < 0x80
    ensures |Encode(text)| == |text|
  {
    if text == "" {
    } else {
      AsciiLength(text[1..]);
    }
  }
}

module Frames {
  import opened Bytes
  import opened Crypto
  import opened Options
  import opened Protobuf
  import Utf8Encoding

  const BROADCAST_ADDR := 0xFFFFFFFF
  const PORTNUM_TEXT_MESSAGE := 1
  const PORTNUM_NODEINFO := 4
  const HEADER_SIZE := 16
  const HAL_PAYLOAD_SIZE := 256

  // Header

  function Low8(x: int): bv8 { (x % 256) as bv8 }

  function PackBits(hopLimit: bv8, hopStart: bv8, wantAck: bool, viaMqtt: bool): bv8 {
    var flags := hopLimit & 0x07;
    var flags := if wantAck then flags | 0x08 else flags;
    var flags := if viaMqtt then flags | 0x10 else flags;
    flags | ((hopStart & 0x07) << 5)
  }

  function Flags(hopLimit: int, hopStart: int, wantAck: bool, viaMqtt: bool): byte {
    PackBits(Low8(hopLimit), Low8(hopStart), wantAck, viaMqtt) as byte
  }

  function HopLimitOf(flags: byte): nat { ((flags as bv8) & 0x07) as nat }

  function WantAckOf(flags: byte): bool { (flags as bv8) & 0x08 != 0 }

  function ViaMqttOf(flags: byte): bool { (flags as bv8) & 0x10 != 0 }

  function HopStartOf(flags: byte): nat { (((flags as bv8) >> 5) & 0x07) as nat }

  lemma BitsModEight(b: bv8)
    ensures (b & 0x07) as int == b as int % 8
  {
  }

  lemma ModEight(x: int)
    ensures x % 256 % 8 == x % 8
  {
  }

  lemma LowThreeBits(x: int)
    ensures (Low8(x) & 0x07) as int == x % 8
  {
    BitsModEight(Low8(x));
    ByteRoundTrip(x % 256);
    ModEight(x);
  }

  lemma PackBitsParse(hopLimit: bv8, hopStart: bv8, wantAck: bool, viaMqtt: bool)
    ensures var bits := PackBits(hopLimit, hopStart, wantAck, viaMqtt);
            && bits & 0x07 == hopLimit & 0x07 && (bits >> 5) & 0x07 == hopStart & 0x07
            && (bits & 0x08 != 0) == wantAck && (bits & 0x10 != 0) == viaMqtt
  {
  }

  /** Parsing a built flags byte gives back both hop counts modulo 8 and both switches. */
  lemma FlagsParse(hopLimit: int, hopStart: int, wantAck: bool, viaMqtt: bool)
    ensures var flags := Flags(hopLimit, hopStart, wantAck, viaMqtt);
            && HopLimitOf(flags) == hopLimit % 8 && HopStartOf(flags) == hopStart % 8
            && WantAckOf(flags) == wantAck && ViaMqttOf(flags) == viaMqtt
  {
    BitsRoundTrip(PackBits(Low8(hopLimit), Low8(hopStart), wantAck, viaMqtt));
    PackBitsParse(Low8(hopLimit), Low8(hopStart), wantAck, viaMqtt);
    LowThreeBits(hopLimit);
    LowThreeBits(hopStart);
  }

  lemma SmallBits(b: bv8)
    requires b < 8
    ensures Low8(b as int) == b
  {
    BitsRoundTrip(b);
    assert b as int < 256;
  }

  lemma PackBitsRebuild(flags: bv8)
    ensures PackBits(flags & 0x07, (flags >> 5) & 0x07, flags & 0x08 != 0, flags & 0x10 != 0) == flags
  {
  }

  lemma HighBits(b: bv8)
    ensures ((b >> 5) & 0x07) as int == b as int / 32
  {
    assert (b >> 5) & 0x07 == b / 32;
  }

  lemma BitThree(b: bv8)
    ensures b & 0x08 != 0 <==> b as int / 8 % 2 == 1
  {
  }

  lemma BitFour(b: bv8)
    ensures b & 0x10 != 0 <==> b as int / 16 % 2 == 1
  {
  }

  /** The bits of the flags byte in numbers. */
  lemma FlagsAre(flags: byte)
    ensures HopLimitOf(flags) == flags % 8 && HopStartOf(flags) == flags / 32
    ensures WantAckOf(flags) <==> flags / 8 % 2 == 1
    ensures ViaMqttOf(flags) <==> flags / 16 % 2 == 1
  {
    ByteRoundTrip(flags);
    BitsModEight(flags as bv8);
    HighBits(flags as bv8);
    BitThree(flags as bv8);
    BitFour(flags as bv8);
  }

  lemma FlagsSum(hopLimit: int, hopStart: int, wantAck: bool, viaMqtt: bool)
    ensures Flags(hopLimit, hopStart, wantAck, viaMqtt) as int
            == hopLimit % 8 + (if wantAck then 8 else 0) + (if viaMqtt then 16 else 0) + 32 * (hopStart % 8)
  {
    var f := Flags(hopLimit, hopStart, wantAck, viaMqtt);
    FlagsParse(hopLimit, hopStart, wantAck, viaMqtt);
    FlagsAre(f);
    FlagDigits(f);
  }

  lemma FlagDigits(f: nat)
    ensures f == f % 8 + 8 * (f / 8 % 2) + 16 * (f / 16 % 2) + 32 * (f / 32)
  {
    assert f / 16 == f / 8 / 2 && f / 32 == f / 16 / 2;
  }

  /** Every one of the 256 flags bytes is reproduced by building from what parsing finds in it. */
  lemma FlagsRebuild(flags: byte)
    ensures Flags(HopLimitOf(flags), HopStartOf(flags), WantAckOf(flags), ViaMqttOf(flags)) == flags
  {
    var f := flags as bv8;
    ByteRoundTrip(flags);
    PackBitsRebuild(f);
    SmallBits(f & 0x07);
    SmallBits((f >> 5) & 0x07);
  }

  datatype Header = Header(
    dest: int, source: int, packetId: int, hopLimit: int, hopStart: int, wantAck: bool, viaMqtt: bool,
    channelHash: int)
  {
    /** What struct.pack and bytes accept without raising. */
    predicate Packable() { Is32Bit(dest) && Is32Bit(source) && Is32Bit(packetId) && 0 <= channelHash < 256 }
  }

  function BuildHeader(h: Header): seq<byte>
    requires h.Packable()
  {
    Le32(h.dest) + Le32(h.source) + Le32(h.packetId)
    + [Flags(h.hopLimit, h.hopStart, h.wantAck, h.viaMqtt), h.channelHash, 0, 0]
  }

  function ParseHeader(s: seq<byte>): (h: Header)
    requires |s| >= HEADER_SIZE
  {
    Header(FromLe32(s[..4]), FromLe32(s[4..8]), FromLe32(s[8..12]),
           HopLimitOf(s[12]), HopStartOf(s[12]), WantAckOf(s[12]), ViaMqttOf(s[12]), s[13])
  }

  /** The header as the receiver sees it: the wire carries three bits of each hop count. */
  function OnAir(h: Header): Header {
    h.(hopLimit := h.hopLimit % 8, hopStart := h.hopStart % 8)
  }

  /** Parsing a built header, with anything behind it, gives every field back, hop counts modulo 8. */
  lemma HeaderParses(h: Header, rest: seq<byte>)
    requires h.Packable()
    ensures |BuildHeader(h)| == HEADER_SIZE
    ensures ParseHeader(BuildHeader(h) + rest) == OnAir(h)
  {
    var s := BuildHeader(h) + rest;
    assert s[..4] == Le32(h.dest) && s[4..8] == Le32(h.source) && s[8..12] == Le32(h.packetId);
    Le32RoundTrip(h.dest);
    Le32RoundTrip(h.source);
    Le32RoundTrip(h.packetId);
    FlagsParse(h.hopLimit, h.hopStart, h.wantAck, h.viaMqtt);
  }

  /** Where every field lies: ids least significant byte first, the flags with the hop limit in the low three
      bits, then want_ack, via_mqtt and the hop start, the channel hash, and two bytes for relaying left zero. */
  lemma HeaderLayout(h: Header)
    requires h.Packable()
    ensures var s := BuildHeader(h);
            && |s| == 16 && s[14] == s[15] == 0 && s[13] as int == h.channelHash
            && h.dest == s[0] as int + 256 * s[1] as int + 65536 * s[2] as int + 16777216 * s[3] as int
            && h.source == s[4] as int + 256 * s[5] as int + 65536 * s[6] as int + 16777216 * s[7] as int
            && h.packetId == s[8] as int + 256 * s[9] as int + 65536 * s[10] as int + 16777216 * s[11] as int
            && s[12] as int == h.hopLimit % 8 + (if h.wantAck then 8 else 0) + (if h.viaMqtt then 16 else 0)
                               + 32 * (h.hopStart % 8)
  {
    var s := BuildHeader(h);
    assert s[..4] == Le32(h.dest) && s[4..8] == Le32(h.source) && s[8..12] == Le32(h.packetId);
    Le32RoundTrip(h.dest);
    Le32RoundTrip(h.source);
    Le32RoundTrip(h.packetId);
    FlagsSum(h.hopLimit, h.hopStart, h.wantAck, h.viaMqtt);
  }

  // Builder

  datatype BuildResult = Frame(bytes: seq<byte>) | NoFrame | Raised

  function UsedKey(key: Option<seq<byte>>, defaultKey: Option<seq<byte>>): Option<seq<byte>> {
    if key.Some? then key else defaultKey
  }

  /** Serialise, encrypt, then prepend the header: no key or an unusable one yields no frame, and ids that do
      not fit their fields raise, the nonce being packed before the cipher is set up. */
  function BuildFrame(
    cipher: Cipher, defaultKey: Option<seq<byte>>, key: Option<seq<byte>>, h: Header, portnum: int,
    payload: seq<byte>): BuildResult
  {
    var used := UsedKey(key, defaultKey);
    if used.None? then NoFrame
    else if !Is32Bit(h.packetId) || !Is32Bit(h.source) then Raised
    else if !IsAesKey(used.value) then NoFrame
    else if !h.Packable() then Raised
    else Frame(BuildHeader(h) + Ctr(cipher, used.value, Nonce(h.packetId, h.source), SerializeData(portnum, payload)))
  }

  function BuildTextMessage(
    cipher: Cipher, defaultKey: Option<seq<byte>>, key: Option<seq<byte>>, text: string, dest: int, source: int,
    packetId: int, channelHash: int, hopLimit: int, hopStart: int, wantAck: bool): BuildResult
  {
    var h := Header(dest, source, packetId, hopLimit, hopStart, wantAck, false, channelHash);
    BuildFrame(cipher, defaultKey, key, h, PORTNUM_TEXT_MESSAGE, Utf8Encoding.Encode(text))
  }

  function BuildNodeInfo(
    cipher: Cipher, defaultKey: Option<seq<byte>>, key: Option<seq<byte>>, user: User, source: int,
    packetId: int, channelHash: int, hopLimit: int, hopStart: int): BuildResult
  {
    var h := Header(BROADCAST_ADDR, source, packetId, hopLimit, hopStart, false, false, channelHash);
    BuildFrame(cipher, defaultKey, key, h, PORTNUM_NODEINFO, SerializeUser(user))
  }

  // Decoder

  datatype Content =
    | Text(text: string)
    | Message(portnum: int, body: seq<byte>)
    | Encrypted(payloadSize: nat, channelHash: int)

  datatype Packet = Packet(header: Header, content: Option<Content>, decrypted: bool)

  /** The parts of payload decoding that stay abstract: UTF-8 decoding, and whether the handler of a port
      number other than text accepts a body. */
  datatype Reader = Reader(decodeText: seq<byte> -> string, accepts: (int, seq<byte>) -> bool)

  function DecodePayload(reader: Reader, decrypted: seq<byte>): Option<Content> {
    if |decrypted| < 2 then None
    else
      match ParseData(decrypted)
      case None => None
      case Some(Data(portnum, body)) =>
        if portnum == PORTNUM_TEXT_MESSAGE then Some(Text(reader.decodeText(body)))
        else if reader.accepts(portnum, body) then Some(Message(portnum, body))
        else None
  }

  /** What does not parse is not read, a text always is, and anything else if its handler accepts the body. */
  lemma PayloadReadIff(reader: Reader, decrypted: seq<byte>)
    requires |decrypted| >= 2
    ensures var data, content := ParseData(decrypted), DecodePayload(reader, decrypted);
            match data
            case None => content == None
            case Some(Data(portnum, body)) =>
              && (content.Some? <==> portnum == 1 || reader.accepts(portnum, body))
              && (content.Some? ==>
                    content.value == if portnum == 1 then Text(reader.decodeText(body)) else Message(portnum, body))
  {
  }

  /** Two bytes can be a whole message, a text of no characters; less is none. */
  lemma ShortestPayload(reader: Reader, decrypted: seq<byte>)
    ensures |decrypted| < 2 ==> DecodePayload(reader, decrypted) == None
    ensures DecodePayload(reader, [0x08, 0x01]) == Some(Text(reader.decodeText([])))
  {
    DataFieldsOfPort(1);
  }

  function Decrypt(cipher: Cipher, key: seq<byte>, data: seq<byte>, packetId: int, source: int): Option<seq<byte>>
    requires Is32Bit(packetId) && Is32Bit(source)
  {
    if IsAesKey(key) then Some(Ctr(cipher, key, Nonce(packetId, source), data)) else None
  }

  /** What one key makes of a ciphertext. */
  function ReadWith(cipher: Cipher, reader: Reader, key: seq<byte>, h: Header, data: seq<byte>): Option<Content>
    requires Is32Bit(h.packetId) && Is32Bit(h.source)
  {
    match Decrypt(cipher, key, data, h.packetId, h.source)
    case None => None
    case Some(decrypted) => DecodePayload(reader, decrypted)
  }

  /** A key that no cipher takes reads nothing; any other reads what counter mode under the header's ids yields. */
  lemma ReadWithIs(cipher: Cipher, reader: Reader, key: seq<byte>, h: Header, data: seq<byte>)
    requires Is32Bit(h.packetId) && Is32Bit(h.source)
    ensures ReadWith(cipher, reader, key, h, data) ==
            if |key| in {16, 24, 32} then DecodePayload(reader, Ctr(cipher, key, Nonce(h.packetId, h.source), data))
            else None
  {
  }

  /** What the first readable key makes of a ciphertext. */
  function FirstReading(
    cipher: Cipher, reader: Reader, keys: seq<seq<byte>>, h: Header, data: seq<byte>): Option<Content>
    requires Is32Bit(h.packetId) && Is32Bit(h.source)
  {
    if keys == [] then None
    else
      var content := ReadWith(cipher, reader, keys[0], h, data);
      if content.Some? then content else FirstReading(cipher, reader, keys[1..], h, data)
  }

  /** None of the first i keys reads the ciphertext. */
  ghost predicate Unread(cipher: Cipher, reader: Reader, keys: seq<seq<byte>>, i: nat, h: Header, data: seq<byte>)
    requires Is32Bit(h.packetId) && Is32Bit(h.source) && i <= |keys|
  {
    forall j :: 0 <= j < i ==> ReadWith(cipher, reader, keys[j], h, data) == None
  }

  /** The i-th key decides when it reads the ciphertext and no earlier key does. */
  lemma {:induction false} FirstReadingIs(
    cipher: Cipher, reader: Reader, keys: seq<seq<byte>>, h: Header, data: seq<byte>, i: nat)
    requires Is32Bit(h.packetId) && Is32Bit(h.source) && i <= |keys|
    requires Unread(cipher, reader, keys, i, h, data)
    ensures FirstReading(cipher, reader, keys, h, data) == FirstReading(cipher, reader, keys[i..], h, data)
    ensures i < |keys| && ReadWith(cipher, reader, keys[i], h, data).Some? ==>
            FirstReading(cipher, reader, keys, h, data) == ReadWith(cipher, reader, keys[i], h, data)
    ensures i == |keys| ==> FirstReading(cipher, reader, keys, h, data) == None
  {
    if i == 0 {
    } else {
      FirstReadingIs(cipher, reader, keys[1..], h, data, i - 1);
      assert keys[1..][i - 1..] == keys[i..];
    }
  }

  /** The packet a frame stands for; without a readable key its payload is only reported as encrypted. */
  function Decoded(cipher: Cipher, reader: Reader, keys: seq<seq<byte>>, raw: seq<byte>): Option<Packet> {
    if |raw| < HEADER_SIZE then None
    else
      var h, data := ParseHeader(raw), raw[HEADER_SIZE..];
      ParsedIdsFit(raw);
      var content := FirstReading(cipher, reader, keys, h, data);
      if content.Some? then Some(Packet(h, content, true))
      else Some(Packet(h, if data == [] then None else Some(Encrypted(|data|, h.channelHash)), false))
  }

  /** A frame that no key reads is still reported, with the size of its payload and its channel hash; only one
      that is nothing but a header has no content. */
  lemma UnreadableIsReported(cipher: Cipher, reader: Reader, keys: seq<seq<byte>>, raw: seq<byte>)
    requires |raw| >= 16
    requires ParseHeader(raw).Packable() && Unread(cipher, reader, keys, |keys|, ParseHeader(raw), raw[16..])
    ensures Decoded(cipher, reader, keys, raw)
            == Some(Packet(ParseHeader(raw),
                           if |raw| == 16 then None else Some(Encrypted(|raw| - 16, raw[13] as int)), false))
  {
    FirstReadingIs(cipher, reader, keys, ParseHeader(raw), raw[16..], |keys|);
  }

  /** Only a frame too short for its header is dropped, and only one that some key reads counts as decrypted. */
  lemma DroppedIff(cipher: Cipher, reader: Reader, keys: seq<seq<byte>>, raw: seq<byte>)
    ensures Decoded(cipher, reader, keys, raw) == None <==> |raw| < 16
    ensures |raw| >= 16 ==>
            && ParseHeader(raw).Packable()
            && Decoded(cipher, reader, keys, raw).value.header == ParseHeader(raw)
            && (Decoded(cipher, reader, keys, raw).value.decrypted <==>
                !Unread(cipher, reader, keys, |keys|, ParseHeader(raw), raw[16..]))
  {
    if |raw| >= 16 {
      ParsedIdsFit(raw);
      ReadableIff(cipher, reader, keys, ParseHeader(raw), raw[16..]);
    }
  }

  lemma {:induction false} ReadableIff(
    cipher: Cipher, reader: Reader, keys: seq<seq<byte>>, h: Header, data: seq<byte>)
    requires Is32Bit(h.packetId) && Is32Bit(h.source)
    ensures FirstReading(cipher, reader, keys, h, data).Some? <==> !Unread(cipher, reader, keys, |keys|, h, data)
  {
    if Unread(cipher, reader, keys, |keys|, h, data) {
      FirstReadingIs(cipher, reader, keys, h, data, |keys|);
    } else if ReadWith(cipher, reader, keys[0], h, data) == None {
      ReadableIff(cipher, reader, keys[1..], h, data);
      if Unread(cipher, reader, keys[1..], |keys[1..]|, h, data) {
        assert forall j :: 0 < j < |keys| ==> keys[j] == keys[1..][j - 1];
      }
    }
  }

  lemma ParsedIdsFit(s: seq<byte>)
    requires |s| >= HEADER_SIZE
    ensures ParseHeader(s).Packable()
  {
  }

  lemma UnreadNext(cipher: Cipher, reader: Reader, keys: seq<seq<byte>>, i: nat, h: Header, data: seq<byte>)
    requires Is32Bit(h.packetId) && Is32Bit(h.source) && i < |keys| && Unread(cipher, reader, keys, i, h, data)
    ensures ReadWith(cipher, reader, keys[i], h, data) == None ==> Unread(cipher, reader, keys, i + 1, h, data)
  {
  }

  /** The loop over the keys: the first one whose decryption parses ends it. */
  method TryKeys(cipher: Cipher, reader: Reader, keys: seq<seq<byte>>, h: Header, data: seq<byte>)
    returns (content: Option<Content>, decrypted: bool)
    requires Is32Bit(h.packetId) && Is32Bit(h.source)
    ensures content == FirstReading(cipher, reader, keys, h, data) && decrypted == content.Some?
  {
    content, decrypted := None, false;
    for i := 0 to |keys|
      invariant !decrypted && content == None && Unread(cipher, reader, keys, i, h, data)
    {
      UnreadNext(cipher, reader, keys, i, h, data);
      var plain := Decrypt(cipher, keys[i], data, h.packetId, h.source);
      if plain.None? {
        continue;
      }
      content := DecodePayload(reader, plain.value);
      if content.Some? {
        FirstReadingIs(cipher, reader, keys, h, data, i);
        return content, true;
      }
    }
    FirstReadingIs(cipher, reader, keys, h, data, |keys|);
  }

  method Decode(cipher: Cipher, reader: Reader, keys: seq<seq<byte>>, raw: seq<byte>) returns (packet: Option<Packet>)
    ensures packet == Decoded(cipher, reader, keys, raw)
  {
    if |raw| < HEADER_SIZE {
      return None;
    }
    var h, data := ParseHeader(raw), raw[HEADER_SIZE..];
    ParsedIdsFit(raw);
    var content, decrypted := TryKeys(cipher, reader, keys, h, data);
    if !decrypted {
      if data != [] {
        content := Some(Encrypted(|data|, h.channelHash));
      }
    }
    packet := Some(Packet(h, content, decrypted));
  }

  // Round trips

  /** A built frame, cut behind its header and read with the key it was built with, gives the payload back. */
  lemma FrameReads(
    cipher: Cipher, defaultKey: Option<seq<byte>>, key: Option<seq<byte>>, h: Header,
    portnum: nat, payload: seq<byte>)
    requires BuildFrame(cipher, defaultKey, key, h, portnum, payload).Frame?
    requires portnum < 0x8000_0000 && |payload| < WORD
    ensures var frame := BuildFrame(cipher, defaultKey, key, h, portnum, payload).bytes;
            && |frame| >= HEADER_SIZE
            && ParseHeader(frame) == OnAir(h)
            && Decrypt(cipher, UsedKey(key, defaultKey).value, frame[HEADER_SIZE..], h.packetId, h.source)
               == Some(SerializeData(portnum, payload))
            && ParseData(SerializeData(portnum, payload)) == Some(Data(portnum, payload))
  {
    var used := UsedKey(key, defaultKey).value;
    var inner := SerializeData(portnum, payload);
    var ciphertext := Ctr(cipher, used, Nonce(h.packetId, h.source), inner);
    HeaderParses(h, ciphertext);
    assert (BuildHeader(h) + ciphertext)[HEADER_SIZE..] == ciphertext;
    CtrUndoesItself(cipher, used, Nonce(h.packetId, h.source), inner);
    DataRoundTrip(portnum, payload);
  }

  /** None of the first i keys makes anything of a built frame. */
  ghost predicate NoneReads(cipher: Cipher, reader: Reader, keys: seq<seq<byte>>, i: nat, h: Header, built: BuildResult)
    requires i <= |keys|
  {
    built.Frame? && |built.bytes| >= HEADER_SIZE && Is32Bit(h.packetId) && Is32Bit(h.source) ==>
      Unread(cipher, reader, keys, i, h, built.bytes[HEADER_SIZE..])
  }

  /** The frame round trip for any payload: all header fields come back, and the content is what the sender's
      key reads, provided that key is the decoder's i-th and no earlier key's decryption parses. */
  lemma FrameRoundTrip(
    cipher: Cipher, reader: Reader, defaultKey: Option<seq<byte>>, key: Option<seq<byte>>, h: Header,
    portnum: nat, payload: seq<byte>, keys: seq<seq<byte>>, i: nat)
    requires BuildFrame(cipher, defaultKey, key, h, portnum, payload).Frame?
    requires portnum < 0x8000_0000 && |payload| < WORD
    requires i < |keys| && keys[i] == UsedKey(key, defaultKey).value
    requires NoneReads(cipher, reader, keys, i, h, BuildFrame(cipher, defaultKey, key, h, portnum, payload))
    requires DecodePayload(reader, SerializeData(portnum, payload)).Some?
    ensures Decoded(cipher, reader, keys, BuildFrame(cipher, defaultKey, key, h, portnum, payload).bytes)
            == Some(Packet(OnAir(h), DecodePayload(reader, SerializeData(portnum, payload)), true))
  {
    var frame := BuildFrame(cipher, defaultKey, key, h, portnum, payload).bytes;
    FrameReads(cipher, defaultKey, key, h, portnum, payload);
    var data := frame[HEADER_SIZE..];
    assert forall k :: ReadWith(cipher, reader, k, OnAir(h), data) == ReadWith(cipher, reader, k, h, data);
    FirstReadingIs(cipher, reader, keys, OnAir(h), data, i);
  }

  /** Building succeeds exactly with a usable key and packable ids. */
  lemma BuildsIff(
    cipher: Cipher, defaultKey: Option<seq<byte>>, key: Option<seq<byte>>, h: Header, portnum: int, payload: seq<byte>)
    ensures BuildFrame(cipher, defaultKey, key, h, portnum, payload).Frame? <==>
            && h.Packable() && UsedKey(key, defaultKey).Some?
            && |UsedKey(key, defaultKey).value| in {16, 24, 32}
  {
  }

  /** A caller without a key gets the default key. */
  lemma DefaultKeyIsUsed(
    cipher: Cipher, defaultKey: Option<seq<byte>>, h: Header, portnum: int, payload: seq<byte>)
    ensures BuildFrame(cipher, defaultKey, None, h, portnum, payload)
            == BuildFrame(cipher, None, defaultKey, h, portnum, payload)
  {
  }

  /** What cannot be packed raises, but without a key nothing is packed, and the fields that only the header holds
      are packed after an unusable key was refused. */
  lemma RaisesIff(
    cipher: Cipher, defaultKey: Option<seq<byte>>, key: Option<seq<byte>>, h: Header, portnum: int, payload: seq<byte>)
    ensures BuildFrame(cipher, defaultKey, key, h, portnum, payload) == Raised <==>
            && UsedKey(key, defaultKey).Some?
            && (!Is32Bit(h.packetId) || !Is32Bit(h.source)
                || (|UsedKey(key, defaultKey).value| in {16, 24, 32}
                    && (!Is32Bit(h.dest) || !(0 <= h.channelHash < 256))))
  {
  }

  lemma BehindHeader(
    cipher: Cipher, defaultKey: Option<seq<byte>>, key: seq<byte>, h: Header, portnum: int, payload: seq<byte>)
    requires IsAesKey(key) && h.Packable()
    ensures var built := BuildFrame(cipher, defaultKey, Some(key), h, portnum, payload);
            && built.Frame? && |built.bytes| >= 16 && built.bytes[..16] == BuildHeader(h)
            && built.bytes[16..] == Ctr(cipher, key, Nonce(h.packetId, h.source), SerializeData(portnum, payload))
  {
    HeaderParses(h, []);
  }

  /** Behind the header of a text lies the encrypted Data message with port number 1. */
  lemma TextOnTheWire(
    cipher: Cipher, defaultKey: Option<seq<byte>>, key: seq<byte>, text: string, dest: int, source: int,
    packetId: int, channelHash: int, hopLimit: int, hopStart: int, wantAck: bool)
    requires IsAesKey(key) && Is32Bit(dest) && Is32Bit(source) && Is32Bit(packetId) && 0 <= channelHash < 256
    ensures var bytes := Utf8Encoding.Encode(text);
            var built := BuildTextMessage(cipher, defaultKey, Some(key), text, dest, source, packetId, channelHash,
                                          hopLimit, hopStart, wantAck);
            && built.Frame? && |built.bytes| >= 16
            && built.bytes[16..]
               == Ctr(cipher, key, Nonce(packetId, source), [0x08, 0x01] + ([0x12] + Varint(|bytes|) + bytes))
  {
    var h := Header(dest, source, packetId, hopLimit, hopStart, wantAck, false, channelHash);
    BehindHeader(cipher, defaultKey, key, h, PORTNUM_TEXT_MESSAGE, Utf8Encoding.Encode(text));
    SmallPort(1, Utf8Encoding.Encode(text));
  }

  /** A NodeInfo goes to the broadcast address, with port number 4. */
  lemma NodeInfoOnTheWire(
    cipher: Cipher, defaultKey: Option<seq<byte>>, key: seq<byte>, user: User, source: int, packetId: int,
    channelHash: int, hopLimit: int, hopStart: int)
    requires IsAesKey(key) && Is32Bit(source) && Is32Bit(packetId) && 0 <= channelHash < 256
    ensures var bytes := SerializeUser(user);
            var built := BuildNodeInfo(cipher, defaultKey, Some(key), user, source, packetId, channelHash,
                                       hopLimit, hopStart);
            && built.Frame? && |built.bytes| >= 16 && ParseHeader(built.bytes).dest == 0xFFFF_FFFF
            && built.bytes[16..]
               == Ctr(cipher, key, Nonce(packetId, source), [0x08, 0x04] + ([0x12] + Varint(|bytes|) + bytes))
  {
    var h := Header(BROADCAST_ADDR, source, packetId, hopLimit, hopStart, false, false, channelHash);
    BehindHeader(cipher, defaultKey, key, h, PORTNUM_NODEINFO, SerializeUser(user));
    var built := BuildNodeInfo(cipher, defaultKey, Some(key), user, source, packetId, channelHash, hopLimit, hopStart);
    assert built.bytes == BuildHeader(h) + built.bytes[16..];
    HeaderParses(h, built.bytes[16..]);
    SmallPort(4, SerializeUser(user));
  }

  /** Every text survives build and decode with all its header fields. */
  lemma TextRoundTrip(
    cipher: Cipher, reader: Reader, defaultKey: Option<seq<byte>>, key: Option<seq<byte>>, keys: seq<seq<byte>>,
    i: nat, text: string, h: Header)
    requires h.Packable() && !h.viaMqtt
    requires UsedKey(key, defaultKey).Some? && IsAesKey(UsedKey(key, defaultKey).value)
    requires |Utf8Encoding.Encode(text)| < WORD && reader.decodeText(Utf8Encoding.Encode(text)) == text
    requires i < |keys| && keys[i] == UsedKey(key, defaultKey).value
    requires NoneReads(cipher, reader, keys, i, h,
                       BuildTextMessage(cipher, defaultKey, key, text, h.dest, h.source, h.packetId, h.channelHash,
                                        h.hopLimit, h.hopStart, h.wantAck))
    ensures var built := BuildTextMessage(cipher, defaultKey, key, text, h.dest, h.source, h.packetId, h.channelHash,
                                          h.hopLimit, h.hopStart, h.wantAck);
            built.Frame? && Decoded(cipher, reader, keys, built.bytes) == Some(Packet(OnAir(h), Some(Text(text)), true))
  {
    var payload := Utf8Encoding.Encode(text);
    DataRoundTrip(PORTNUM_TEXT_MESSAGE, payload);
    FrameRoundTrip(cipher, reader, defaultKey, key, h, PORTNUM_TEXT_MESSAGE, payload, keys, i);
  }

  /** A NodeInfo announcement decodes to a broadcast message whose body parses to the announced user. */
  lemma NodeInfoRoundTrip(
    cipher: Cipher, reader: Reader, defaultKey: Option<seq<byte>>, key: Option<seq<byte>>, keys: seq<seq<byte>>,
    i: nat, user: User, h: Header)
    requires h.Packable() && h.dest == BROADCAST_ADDR && !h.viaMqtt && !h.wantAck
    requires UsedKey(key, defaultKey).Some? && IsAesKey(UsedKey(key, defaultKey).value)
    requires |user.id| < WORD && |user.longName| < WORD && |user.shortName| < WORD && 0 <= user.hwModel < 0x8000_0000
    requires |SerializeUser(user)| < WORD && reader.accepts(PORTNUM_NODEINFO, SerializeUser(user))
    requires i < |keys| && keys[i] == UsedKey(key, defaultKey).value
    requires NoneReads(cipher, reader, keys, i, h,
                       BuildNodeInfo(cipher, defaultKey, key, user, h.source, h.packetId, h.channelHash,
                                     h.hopLimit, h.hopStart))
    ensures var built := BuildNodeInfo(cipher, defaultKey, key, user, h.source, h.packetId, h.channelHash,
                                       h.hopLimit, h.hopStart);
            && built.Frame?
            && Decoded(cipher, reader, keys, built.bytes)
               == Some(Packet(OnAir(h), Some(Message(PORTNUM_NODEINFO, SerializeUser(user))), true))
            && ParseUser(SerializeUser(user)) == Some(user)
  {
    DataRoundTrip(PORTNUM_NODEINFO, SerializeUser(user));
    FrameRoundTrip(cipher, reader, defaultKey, key, h, PORTNUM_NODEINFO, SerializeUser(user), keys, i);
    UserRoundTrip(user);
  }

  // Length

  /** What the HAL packet holds of a frame. */
  function HalPayload(frame: seq<byte>): seq<byte> {
    if |frame| <= HAL_PAYLOAD_SIZE then frame else frame[..HAL_PAYLOAD_SIZE]
  }

  lemma ShortVarint(n: nat)
    requires n < 16384
    ensures |Varint(n)| == if n < 128 then 1 else 2
  {
  }

  lemma FrameLength(
    cipher: Cipher, defaultKey: Option<seq<byte>>, key: Option<seq<byte>>, h: Header, portnum: nat, payload: seq<byte>)
    requires BuildFrame(cipher, defaultKey, key, h, portnum, payload).Frame? && portnum < 128
    ensures |BuildFrame(cipher, defaultKey, key, h, portnum, payload).bytes|
            == 16 + 2 + 1 + |Varint(|payload|)| + |payload|
  {
    HeaderParses(h, []);
    ShortVarint(portnum);
  }

  /** The copy into the HAL packet keeps a text's frame whole exactly up to 235 UTF-8 bytes; beyond that it loses
      the tail. */
  lemma HalCopyIsWholeIff(
    cipher: Cipher, defaultKey: Option<seq<byte>>, key: Option<seq<byte>>, h: Header, text: string)
    requires BuildFrame(cipher, defaultKey, key, h, PORTNUM_TEXT_MESSAGE, Utf8Encoding.Encode(text)).Frame?
    ensures var frame := BuildFrame(cipher, defaultKey, key, h, PORTNUM_TEXT_MESSAGE, Utf8Encoding.Encode(text)).bytes;
            HalPayload(frame) == frame <==> |Utf8Encoding.Encode(text)| <= 235
  {
    FrameLength(cipher, defaultKey, key, h, PORTNUM_TEXT_MESSAGE, Utf8Encoding.Encode(text));
    var n := |Utf8Encoding.Encode(text)|;
    if n < 16384 {
      ShortVarint(n);
    }
  }

  /** In characters: every text of n characters fits exactly when four bytes for each do. */
  lemma EveryTextFitsIff(n: nat)
    ensures (forall text :: |text| == n ==> |Utf8Encoding.Encode(text)| <= 235) <==> 4 * n <= 235
  {
    var text := seq(n, _ => 0x1F600 as char);
    Utf8Encoding.AstralLength(text);
    assert |text| == n;
  }

  const ROUTE_TEXT_LIMIT := 228

  /** The send route promises "max 228 bytes" but counts characters: that is enough for ASCII text only. */
  lemma RouteLimitCountsCharacters(text: string)
    requires |text| <= ROUTE_TEXT_LIMIT
    ensures (forall i :: 0 <= i < |text| ==> text[i] as int < 0x80) ==> |Utf8Encoding.Encode(text)| <= 228
    ensures |text| == 59 && (forall i :: 0 <= i < |text| ==> text[i] as int >= 0x1_0000) ==>
            |Utf8Encoding.Encode(text)| == 236
  {
    if forall i :: 0 <= i < |text| ==> text[i] as int < 0x80 {
      Utf8Encoding.AsciiLength(text);
    }
    if forall i :: 0 <= i < |text| ==> text[i] as int >= 0x1_0000 {
      Utf8Encoding.AstralLength(text);
    }
  }
}
