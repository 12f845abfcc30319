/** Channel keys, the packet nonce, AES-CTR over an arbitrary block function, and the channel hash. */
module Crypto {
  import opened Bytes

  type Block = s: seq<byte> | |s| == 16 witness seq(16, _ => 0)

  /** The block cipher stays abstract: any function from a key and a block to a block. */
  type Cipher = (seq<byte>, Block) -> Block

  const DEFAULT_PSK: Block :=
    [0xD4, 0xF1, 0xBB, 0x3A, 0x20, 0x29, 0x07, 0x59, 0xF0, 0xBC, 0xFF, 0xAB, 0xCF, 0x4E, 0x69, 0x01]

  const ZEROS: Block := [0, 0, 0, 0, 0, 0, 0, 0, 0, 0, 0, 0, 0, 0, 0, 0]

  predicate IsAesKey(key: seq<byte>) { |key| == 16 || |key| == 24 || |key| == 32 }

  function ExpandKey(raw: seq<byte>): (key: seq<byte>)
    ensures IsAesKey(key) && |key| != 24
    ensures |raw| in {16, 32} ==> key == raw
    ensures raw == [] || raw == [0] ==> |key| == 16 && forall k :: 0 <= k < 16 ==> key[k] == 0
    ensures |raw| == 1 && raw != [0] ==> key == DEFAULT_PSK[15 := raw[0]]
    ensures 1 < |raw| < 16 ==> raw <= key && forall k :: |raw| <= k < 16 ==> key[k] == 0
    ensures |raw| > 16 ==> key <= raw && (|key| == 32 <==> |raw| == 32)
  {
    if |raw| == 0 then ZEROS
    else if |raw| == 16 || |raw| == 32 then raw
    else if |raw| == 1 then
      if raw[0] == 0 then ZEROS else DEFAULT_PSK[15 := (DEFAULT_PSK[15] as int + raw[0] as int - 1) % 256]
    else (raw + ZEROS)[..16]
  }

  /** Well-known key indices give pairwise different keys, and index 1 is the default key itself. */
  lemma WellKnownKeysDiffer(i: byte, j: byte)
    ensures i != j ==> ExpandKey([i]) != ExpandKey([j])
    ensures ExpandKey([1]) == DEFAULT_PSK
            == [0xD4, 0xF1, 0xBB, 0x3A, 0x20, 0x29, 0x07, 0x59, 0xF0, 0xBC, 0xFF, 0xAB, 0xCF, 0x4E, 0x69, 0x01]
  {
    if i != 0 {
      assert ExpandKey([i])[15] == i && ExpandKey([i])[0] == 0xD4;
    }
    if j != 0 {
      assert ExpandKey([j])[15] == j && ExpandKey([j])[0] == 0xD4;
    }
    assert ExpandKey([0])[0] == 0;
    assert DEFAULT_PSK[15 := 1] == DEFAULT_PSK;
  }

  /** The 16-byte nonce: packet id, four zeros, source id, four zeros; ids out of 32-bit range cannot be packed. */
  function Nonce(packetId: int, sourceId: int): Block
    requires Is32Bit(packetId) && Is32Bit(sourceId)
  {
    Le32(packetId) + [0, 0, 0, 0] + Le32(sourceId) + [0, 0, 0, 0]
  }

  function FromBe(s: seq<byte>): nat {
    if s == [] then 0 else 256 * FromBe(s[..|s| - 1]) + s[|s| - 1] as int
  }

  function ToBe(x: nat, length: nat): (s: seq<byte>)
    ensures |s| == length
  {
    if length == 0 then [] else ToBe(x / 256, length - 1) + [x % 256]
  }

  const COUNTER_SPACE: nat := 0x1_0000_0000_0000_0000_0000_0000_0000_0000

  /** The i-th counter block: the nonce read as a big-endian number, plus i, modulo 2^128. */
  function CounterBlock(nonce: Block, i: nat): Block {
    ToBe((FromBe(nonce) + i) % COUNTER_SPACE, 16)
  }

  function Keystream(cipher: Cipher, key: seq<byte>, nonce: Block, n: nat): byte {
    cipher(key, CounterBlock(nonce, n / 16))[n % 16]
  }

  function Ctr(cipher: Cipher, key: seq<byte>, nonce: Block, data: seq<byte>): seq<byte> {
    seq(|data|, n requires 0 <= n < |data| => Xor(data[n], Keystream(cipher, key, nonce, n)))
  }

  /** Decryption is encryption run again, whatever the block function. */
  lemma CtrUndoesItself(cipher: Cipher, key: seq<byte>, nonce: Block, data: seq<byte>)
    ensures Ctr(cipher, key, nonce, Ctr(cipher, key, nonce, data)) == data
  {
    var once := Ctr(cipher, key, nonce, data);
    var twice := Ctr(cipher, key, nonce, once);
    forall n | 0 <= n < |data| ensures twice[n] == data[n] {
      XorInvolutive(data[n], Keystream(cipher, key, nonce, n));
    }
  }

  /** Byte by byte: the packet id and the source id, least significant byte first, each followed by four zeros. */
  lemma NonceLayout(packetId: int, sourceId: int)
    requires Is32Bit(packetId) && Is32Bit(sourceId)
    ensures var s := Nonce(packetId, sourceId);
            && packetId == s[0] as int + 256 * s[1] as int + 65536 * s[2] as int + 16777216 * s[3] as int
            && sourceId == s[8] as int + 256 * s[9] as int + 65536 * s[10] as int + 16777216 * s[11] as int
            && s[4..8] == s[12..16] == [0, 0, 0, 0]
  {
    var p, q := Le32(packetId), Le32(sourceId);
    var s := Nonce(packetId, sourceId);
    assert s[..4] == p && s[8..12] == q;
    Le32RoundTrip(packetId);
    Le32RoundTrip(sourceId);
  }

  // Counter blocks are never shared

  function Pow256(n: nat): nat {
    if n == 0 then 1 else 256 * Pow256(n - 1)
  }

  lemma {:induction false} BeRoundTrip(x: nat, length: nat)
    requires x < Pow256(length)
    ensures FromBe(ToBe(x, length)) == x
  {
    if length == 0 {
    } else {
      BeRoundTrip(x / 256, length - 1);
      var s := ToBe(x, length);
      assert s[..|s| - 1] == ToBe(x / 256, length - 1);
    }
  }

  lemma FromBeStep(s: seq<byte>, a: byte)
    ensures FromBe(s + [a]) == 256 * FromBe(s) + a as int
  {
    assert (s + [a])[..|s|] == s;
  }

  lemma FromBeFour(s: seq<byte>, a: byte, b: byte, c: byte, d: byte)
    ensures FromBe(s + [a, b, c, d])
            == 0x1_0000_0000 * FromBe(s) + 16777216 * a as int + 65536 * b as int + 256 * c as int + d as int
  {
    FromBeStep(s, a);
    FromBeStep(s + [a], b);
    FromBeStep(s + [a] + [b], c);
    FromBeStep(s + [a] + [b] + [c], d);
    assert s + [a, b, c, d] == s + [a] + [b] + [c] + [d];
  }

  /** A 32-bit id with its bytes read in the opposite order. */
  function Reversed(x: int): nat
    requires Is32Bit(x)
  {
    var s := Le32(x);
    16777216 * s[0] as int + 65536 * s[1] as int + 256 * s[2] as int + s[3] as int
  }

  lemma ReversedInjective(x: int, y: int)
    requires Is32Bit(x) && Is32Bit(y) && Reversed(x) == Reversed(y)
    ensures x == y
  {
    assert Le32(x)[0] == Le32(y)[0] && Le32(x)[1] == Le32(y)[1];
    assert Le32(x)[2] == Le32(y)[2] && Le32(x)[3] == Le32(y)[3];
    Le32RoundTrip(x);
    Le32RoundTrip(y);
  }

  lemma NonceValue(packetId: int, sourceId: int)
    requires Is32Bit(packetId) && Is32Bit(sourceId)
    ensures FromBe(Nonce(packetId, sourceId))
            == 0x1_0000_0000 * (0x1_0000_0000 * (0x1_0000_0000 * Reversed(packetId)) + Reversed(sourceId))
    ensures Reversed(packetId) < 0x1_0000_0000 && Reversed(sourceId) < 0x1_0000_0000
  {
    var p, q := Le32(packetId), Le32(sourceId);
    FromBeFour([], p[0], p[1], p[2], p[3]);
    assert [] + [p[0], p[1], p[2], p[3]] == p;
    FromBeFour(p, 0, 0, 0, 0);
    FromBeFour(p + [0, 0, 0, 0], q[0], q[1], q[2], q[3]);
    assert q == [q[0], q[1], q[2], q[3]];
    FromBeFour(p + [0, 0, 0, 0] + q, 0, 0, 0, 0);
  }

  lemma CounterValue(packetId: int, sourceId: int, i: nat)
    requires Is32Bit(packetId) && Is32Bit(sourceId) && i < 0x1_0000_0000
    ensures FromBe(CounterBlock(Nonce(packetId, sourceId), i))
            == 0x1_0000_0000 * (0x1_0000_0000 * (0x1_0000_0000 * Reversed(packetId)) + Reversed(sourceId)) + i
  {
    NonceValue(packetId, sourceId);
    CounterFits(Reversed(packetId), Reversed(sourceId), i);
    SmallCounter(FromBe(Nonce(packetId, sourceId)), i);
  }

  lemma CounterFits(p: nat, q: nat, i: nat)
    requires p < 0x1_0000_0000 && q < 0x1_0000_0000 && i < 0x1_0000_0000
    ensures 0x1_0000_0000 * (0x1_0000_0000 * (0x1_0000_0000 * p) + q) + i < COUNTER_SPACE
  {
  }

  lemma SmallCounter(start: nat, i: nat)
    requires start + i < COUNTER_SPACE
    ensures FromBe(ToBe((start + i) % COUNTER_SPACE, 16)) == start + i
  {
    SixteenBytes();
    ModSmall(start + i, COUNTER_SPACE);
    BeRoundTrip(start + i, 16);
  }

  lemma ModSmall(x: nat, n: nat)
    requires x < n
    ensures x % n == x
  {
  }

  lemma SixteenBytes()
    ensures Pow256(16) == COUNTER_SPACE
  {
    assert Pow256(4) == 0x1_0000_0000;
    assert Pow256(8) == 0x1_0000_0000_0000_0000;
    assert Pow256(12) == 0x1_0000_0000_0000_0000_0000_0000;
  }

  /** Section 6.5 of NIST SP 800-38A: byte n is XORed with a byte of the enciphered counter block number n / 16,
      the nonce counted up as one big-endian 128-bit number. */
  lemma CtrIsCounterMode(cipher: Cipher, key: seq<byte>, nonce: Block, data: seq<byte>, n: nat)
    requires n < |data|
    ensures |Ctr(cipher, key, nonce, data)| == |data|
    ensures exists b: Block ::
              && FromBe(b) == (FromBe(nonce) + n / 16) % COUNTER_SPACE
              && Ctr(cipher, key, nonce, data)[n] == Xor(data[n], cipher(key, b)[n % 16])
  {
    var b: Block := CounterBlock(nonce, n / 16);
    SixteenBytes();
    BeRoundTrip((FromBe(nonce) + n / 16) % COUNTER_SPACE, 16);
    assert FromBe(b) == (FromBe(nonce) + n / 16) % COUNTER_SPACE;
  }

  /** Two packets of less than 2^32 blocks use a common counter block only if they agree in packet id,
      source id and block number; packets that differ in either id never do. */
  lemma CounterBlocksNeverShared(
    packetId: int, sourceId: int, i: nat, packetId': int, sourceId': int, j: nat)
    requires Is32Bit(packetId) && Is32Bit(sourceId) && i < 0x1_0000_0000
    requires Is32Bit(packetId') && Is32Bit(sourceId') && j < 0x1_0000_0000
    requires CounterBlock(Nonce(packetId, sourceId), i) == CounterBlock(Nonce(packetId', sourceId'), j)
    ensures packetId == packetId' && sourceId == sourceId' && i == j
  {
    CounterValue(packetId, sourceId, i);
    CounterValue(packetId', sourceId', j);
    NonceValue(packetId, sourceId);
    NonceValue(packetId', sourceId');
    DigitsAgree(Reversed(packetId), Reversed(sourceId), i, Reversed(packetId'), Reversed(sourceId'), j);
    ReversedInjective(packetId, packetId');
    ReversedInjective(sourceId, sourceId');
  }

  /** Two packets, each of less than 2^32 blocks, have a counter block in common. */
  ghost predicate ShareBlock(packetId: int, sourceId: int, packetId': int, sourceId': int)
    requires Is32Bit(packetId) && Is32Bit(sourceId) && Is32Bit(packetId') && Is32Bit(sourceId')
  {
    exists i: nat, j: nat ::
      && i < 0x1_0000_0000 && j < 0x1_0000_0000
      && CounterBlock(Nonce(packetId, sourceId), i) == CounterBlock(Nonce(packetId', sourceId'), j)
  }

  lemma ShareBlockIff(packetId: int, sourceId: int, packetId': int, sourceId': int)
    requires Is32Bit(packetId) && Is32Bit(sourceId) && Is32Bit(packetId') && Is32Bit(sourceId')
    ensures ShareBlock(packetId, sourceId, packetId', sourceId') <==> packetId == packetId' && sourceId == sourceId'
  {
    if packetId == packetId' && sourceId == sourceId' {
      assert CounterBlock(Nonce(packetId, sourceId), 0) == CounterBlock(Nonce(packetId', sourceId'), 0);
    }
    if ShareBlock(packetId, sourceId, packetId', sourceId') {
      var i: nat, j: nat :| i < 0x1_0000_0000 && j < 0x1_0000_0000
        && CounterBlock(Nonce(packetId, sourceId), i) == CounterBlock(Nonce(packetId', sourceId'), j);
      CounterBlocksNeverShared(packetId, sourceId, i, packetId', sourceId', j);
    }
  }

  lemma DigitsAgree(p: nat, q: nat, i: nat, p': nat, q': nat, i': nat)
    requires q < 0x1_0000_0000 && i < 0x1_0000_0000 && q' < 0x1_0000_0000 && i' < 0x1_0000_0000
    requires 0x1_0000_0000 * (0x1_0000_0000 * (0x1_0000_0000 * p) + q) + i
             == 0x1_0000_0000 * (0x1_0000_0000 * (0x1_0000_0000 * p') + q') + i'
    ensures p == p' && q == q' && i == i'
  {
    assert 0x1_0000_0000 * (0x1_0000_0000 * p) + q == 0x1_0000_0000 * (0x1_0000_0000 * p') + q';
  }

  // The channel hash

  function XorAll(s: seq<byte>): byte {
    if s == [] then 0 else Xor(XorAll(s[..|s| - 1]), s[|s| - 1])
  }

  /** The hash is one fold over the name followed by the key, done in two loops. */
  function ChannelHash(name: seq<byte>, key: seq<byte>): byte { XorAll(name + key) }

  lemma XorAllStep(prefix: seq<byte>, s: seq<byte>, i: nat)
    requires i < |s|
    ensures XorAll(prefix + s[..i + 1]) == Xor(XorAll(prefix + s[..i]), s[i])
  {
    var longer := prefix + s[..i + 1];
    assert longer[..|longer| - 1] == prefix + s[..i];
  }

  method ComputeChannelHash(name: seq<byte>, key: seq<byte>) returns (h: byte)
    ensures h == ChannelHash(name, key)
  {
    h := 0;
    for i := 0 to |name|
      invariant h == XorAll([] + name[..i])
    {
      XorAllStep([], name, i);
      h := Xor(h, name[i]);
    }
    assert [] + name[..|name|] == name == name + key[..0];
    for i := 0 to |key|
      invariant h == XorAll(name + key[..i])
    {
      XorAllStep(name, key, i);
      h := Xor(h, key[i]);
    }
    assert key[..|key|] == key;
  }
}
