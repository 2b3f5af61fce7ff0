/**
  The wire format, byte by byte, and the keys at their work: what a frame says and whether it is
  accepted, read off its bytes alone.
 */
module WireFormat {
  import opened Wrappers
  import opened Bytes
  import opened Seqs
  import opened Frequency
  import opened Cipher
  import opened Tlv
  import opened Packets
  import opened Relaying
  import opened Gateway

  // ---------- The cipher ----------

  /** The sixteen bytes of a counter block. */
  lemma CounterBlockLayout(isCommand: bool, relayId: Bytes4, seconds: u32, i: nat)
    ensures CounterBlock(isCommand, relayId, seconds, i) ==
            [1, 0, 0, 0, 0, if isCommand then 1 else 0, relayId[0], relayId[1], relayId[2], relayId[3],
             seconds / 0x100_0000, seconds / 0x1_0000 % 0x100, seconds / 0x100 % 0x100, seconds % 0x100,
             0, (i + 1) % 0x100]
  {
    U32Layout(seconds);
    assert relayId == [relayId[0], relayId[1], relayId[2], relayId[3]];
  }

  /**
    Each bit of each byte of the output is the exclusive or of the payload's and of that of the
    encrypted counter block; counter blocks are numbered from 1, one for each sixteen bytes.
   */
  lemma CipherBit(
    c: Crypto, key: Key, isCommand: bool, relayId: Bytes4, t: SystemTime, payload: bytes, k: nat, j: nat)
    requires t >= 0 && k < |payload| && j < 8
    ensures CryptAt(c, key, isCommand, relayId, t, payload).Ok?
    ensures var seconds := t / 1_000_000_000 % 0x1_0000_0000;
            var counter: bytes :=
              [1, 0, 0, 0, 0, if isCommand then 1 else 0, relayId[0], relayId[1], relayId[2], relayId[3],
               seconds / 0x100_0000, seconds / 0x1_0000 % 0x100, seconds / 0x100 % 0x100, seconds % 0x100,
               0, (k / 16 + 1) % 0x100];
            |counter| == 16 &&
            (Bit(CryptAt(c, key, isCommand, relayId, t, payload).value[k], j) <==>
             Bit(payload[k], j) != Bit(c.aes(key, counter)[k % 16], j))
  {
    hide Bit, Xor, CounterBlock;
    var seconds := t / 1_000_000_000 % 0x1_0000_0000;
    CounterBlockLayout(isCommand, relayId, seconds, k / 16);
    XorExactly(payload[k], Keystream(c, key, isCommand, relayId, seconds, k), j);
  }

  // ---------- Headers ----------

  /** The two bits of each kind of payload. */
  function KindCode(t: PayloadType): (code: byte) {
    match t
    case UplinkType => 0
    case DownlinkType => 1
    case EventType => 2
    case CommandType => 3
  }

  /** Three bits set, two for the kind, three for the hop count less one. */
  lemma HeaderLayout(h: Mhdr)
    requires 1 <= h.hopCount <= 8
    ensures MhdrToByte(h) == Ok(0xe0 + 8 * KindCode(h.payloadType) as int + h.hopCount - 1)
  {
  }

  /** The bytes are long enough for the header, the fixed fields of their kind, and the integrity code. */
  predicate IsFrame(b: bytes) {
    |b| >= 13 && b[0] / 0x20 == 7 &&
    var code := b[0] / 8 % 4;
    (code == 0 ==> |b| >= 14) && (code == 1 ==> |b| >= 15)
  }

  /** What the integrity code covers: all before it, but for two bits of an uplink. */
  function Covered(b: bytes): (covered: bytes)
    requires IsFrame(b)
  {
    (if b[0] / 8 % 4 == 0 then b[4 := b[4] % 0x40] else b)[..|b| - 4]
  }

  /**
    A gateway accepts a frame exactly when it has the form of one, and its last four bytes are the first
    four of the code of what comes before them, under the signing key.
   */
  lemma OpensExactly(m: MeshKeys, b: bytes)
    ensures Open(m, b).Ok? <==>
            IsFrame(b) && b[|b| - 4..] == m.crypto.cmac(m.signing, Covered(b))[..4]
  {
    ParseAcceptsExactly(b);
    FrameIsAcceptable(b);
    if Parse(b).Ok? {
      MicCoversCanonicalBytes(m.crypto, m.signing, b);
      ParsedDecrypts(m.crypto, m.encryption, b);
      CoveredIsCanonical(b);
    }
  }

  lemma FrameIsAcceptable(b: bytes)
    ensures Acceptable(b) <==> IsFrame(b)
  {
  }

  lemma CoveredIsCanonical(b: bytes)
    requires Acceptable(b) && IsFrame(b)
    ensures Covered(b) == Canonical(b)[..|b| - 4]
  {
  }

  /** The kind and the hop count of what is read, and its integrity code. */
  lemma OpenedHeader(m: MeshKeys, b: bytes)
    requires Open(m, b).Ok?
    ensures IsFrame(b)
    ensures var p := Open(m, b).value;
            && p.mhdr.hopCount == b[0] as int % 8 + 1 && p.mic == Some(b[|b| - 4..])
            && p.mhdr.payloadType == TypeOf(p.payload) && KindCode(TypeOf(p.payload)) == b[0] / 8 % 4
  {
    OpensExactly(m, b);
    OpenedForm(m, b);
  }

  // ---------- Payloads ----------

  /** A signal byte is a number modulo 64, from -32 to 31. */
  lemma SnrIsTwosComplement(b: byte)
    ensures -32 <= SnrFromByte(b) <= 31 && (SnrFromByte(b) as int - b) % 64 == 0
  {
    assert b == b / 64 * 64 + b % 64;
  }

  lemma UplinkLayout(s: bytes)
    requires |s| >= 9
    ensures var r := PayloadFromSlice(UplinkType, s);
            && r.Ok? && r.value.Uplink?
            && var up := r.value.up;
               && up.uplinkId == s[0] as int * 16 + s[1] / 16 && up.dr == s[1] % 16 && up.rssi == -(s[2] as int)
               && -32 <= up.snr <= 31 && (up.snr as int - s[3]) % 64 == 0 && up.channel == s[4]
               && r.value.relayId == s[5..9] && r.value.phyPayload == s[9..]
  {
    SnrIsTwosComplement(s[3]);
    IdLayout(s[..5]);
  }

  lemma IdLayout(b: bytes)
    requires |b| >= 2
    ensures U16(b[..2]) / 16 == b[0] as int * 16 + b[1] / 16
  {
    NibbleSplit(b[0], b[1] / 16, b[1] % 16);
  }

  lemma DownlinkLayout(s: bytes)
    requires |s| >= 10
    ensures var r := PayloadFromSlice(DownlinkType, s);
            && r.Ok? && r.value.Downlink?
            && var down := r.value.down;
               var code := s[2] as int * 0x1_0000 + s[3] as int * 0x100 + s[4];
               && down.uplinkId == s[0] as int * 16 + s[1] / 16 && down.dr == s[1] % 16
               && down.frequency == (if code >= 12_000_000 then code * 200 else code * 100)
               && down.txPower == s[5] / 16 && down.delay == s[5] as int % 16 + 1
               && r.value.relayId == s[6..10] && r.value.phyPayload == s[10..]
  {
    hide DecodeFreq;
    IdLayout(s[..6]);
    FrequencyLayout(s[..6][2..5]);
  }

  lemma FrequencyLayout(b: bytes)
    requires |b| == 3
    ensures var code := b[0] as int * 0x1_0000 + b[1] as int * 0x100 + b[2];
            DecodeFreq(b) == if code >= 12_000_000 then code * 200 else code * 100
  {
    var w := [0] + b;
    assert w[..2] == [0, b[0]] && w[2..] == [b[1], b[2]];
  }

  lemma ItemsLayout(t: PayloadType, s: bytes)
    requires |s| >= 8 && (t == EventType || t == CommandType)
    ensures var r := PayloadFromSlice(t, s);
            && r.Ok? && TypeOf(r.value) == t
            && r.value.timestamp ==
               (s[0] as int * 0x100_0000 + s[1] as int * 0x1_0000 + s[2] as int * 0x100 + s[3]) * 1_000_000_000
            && r.value.relayId == s[4..8]
            && r.value.items == if |s| == 8 then [] else [Encrypted(s[8..])]
  {
  }

  /** What is read of an uplink, byte by byte. */
  lemma OpenedUplink(m: MeshKeys, b: bytes)
    requires Open(m, b).Ok? && Open(m, b).value.payload.Uplink?
    ensures |b| >= 14
    ensures var pl := Open(m, b).value.payload;
            && pl.up.uplinkId == b[1] as int * 16 + b[2] / 16 && pl.up.dr == b[2] % 16 && pl.up.rssi == -(b[3] as int)
            && -32 <= pl.up.snr <= 31 && (pl.up.snr as int - b[4]) % 64 == 0 && pl.up.channel == b[5]
            && pl.relayId == b[6..10] && pl.phyPayload == b[10..|b| - 4]
  {
    OpenedHeader(m, b);
    OpenedParses(m, b);
    UplinkLayout(b[1..|b| - 4]);
    hide PayloadFromSlice, Open, Parse, SnrFromByte;
    SliceOfSlice(b, 1, |b| - 4, 5, 9);
    SliceOfSlice(b, 1, |b| - 4, 9, |b| - 5);
  }

  /** What is read of a downlink, byte by byte. */
  lemma OpenedDownlink(m: MeshKeys, b: bytes)
    requires Open(m, b).Ok? && Open(m, b).value.payload.Downlink?
    ensures |b| >= 15
    ensures var pl := Open(m, b).value.payload;
            var code := b[3] as int * 0x1_0000 + b[4] as int * 0x100 + b[5];
            && pl.down.uplinkId == b[1] as int * 16 + b[2] / 16 && pl.down.dr == b[2] % 16
            && pl.down.frequency == (if code >= 12_000_000 then code * 200 else code * 100)
            && pl.down.txPower == b[6] / 16 && pl.down.delay == b[6] as int % 16 + 1
            && pl.relayId == b[7..11] && pl.phyPayload == b[11..|b| - 4]
  {
    OpenedHeader(m, b);
    OpenedParses(m, b);
    DownlinkLayout(b[1..|b| - 4]);
    hide PayloadFromSlice, Open, Parse;
    SliceOfSlice(b, 1, |b| - 4, 6, 10);
    SliceOfSlice(b, 1, |b| - 4, 10, |b| - 5);
  }

  /**
    What is read of events and commands, byte by byte: the time and the relay in the clear, and the items
    decoded from the rest, deciphered under the encryption key for their direction, relay and time.
   */
  lemma OpenedItems(m: MeshKeys, b: bytes)
    requires Open(m, b).Ok? && HasItems(Open(m, b).value.payload)
    ensures |b| >= 13
    ensures var pl := Open(m, b).value.payload;
            var isCommand := b[0] / 8 % 4 == 3;
            var plain := CryptAt(m.crypto, m.encryption, isCommand, pl.relayId, pl.timestamp, b[9..|b| - 4]);
            && (pl.Command? <==> isCommand)
            && pl.timestamp ==
               (b[1] as int * 0x100_0000 + b[2] as int * 0x1_0000 + b[3] as int * 0x100 + b[4]) * 1_000_000_000
            && pl.relayId == b[5..9] && plain.Ok? && pl.items == DecodeItems(isCommand, plain.value)
  {
    OpenedHeader(m, b);
    OpenedParses(m, b);
    var s, p := b[1..|b| - 4], Parse(b).value;
    ItemsLayout(p.mhdr.payloadType, s);
    ItemsDecrypted(m.crypto, m.encryption, p, s[8..]);
    hide PayloadFromSlice, Open, Decrypt, CryptAt, DecodeItems, Parse;
    SliceOfFrame(b);
  }

  lemma SliceOfFrame(b: bytes)
    requires |b| >= 13
    ensures var s := b[1..|b| - 4];
            && s[0] == b[1] && s[1] == b[2] && s[2] == b[3] && s[3] == b[4]
            && s[4..8] == b[5..9] && s[8..] == b[9..|b| - 4]
  {
    SliceOfSlice(b, 1, |b| - 4, 4, 8);
    SliceOfSlice(b, 1, |b| - 4, 8, |b| - 5);
  }

  lemma OpenedParses(m: MeshKeys, b: bytes)
    requires Open(m, b).Ok?
    ensures Parse(b).Ok? && Decrypt(m.crypto, m.encryption, Parse(b).value) == Open(m, b)
    ensures |b| >= 5 && PayloadFromSlice(Parse(b).value.mhdr.payloadType, b[1..|b| - 4]) == Ok(Parse(b).value.payload)
    ensures TypeOf(Open(m, b).value.payload) == Parse(b).value.mhdr.payloadType
  {
  }

  lemma ItemsDecrypted(c: Crypto, key: Key, p: Packet, data: bytes)
    requires HasItems(p.payload) && p.payload.timestamp >= 0
    requires p.payload.items == if data == [] then [] else [Encrypted(data)]
    ensures var plain := CryptAt(c, key, p.payload.Command?, p.payload.relayId, p.payload.timestamp, data);
            && plain.Ok?
            && Decrypt(c, key, p) ==
               Ok(p.(payload := p.payload.(items := DecodeItems(p.payload.Command?, plain.value))))
  {
    if data == [] {
      assert DecodeItems(p.payload.Command?, []) == [];
    }
  }

  // ---------- Items ----------

  /** The i-th six bytes are this hop. */
  predicate IsHopAt(v: bytes, i: nat, h: Hop)
    requires 6 * i + 6 <= |v|
  {
    && h.relayId == v[6 * i..6 * i + 4] && h.rssi == -(v[6 * i + 4] as int)
    && -32 <= h.snr <= 31 && (h.snr as int - v[6 * i + 5]) % 64 == 0
  }

  lemma HopLayout(v: bytes, i: nat)
    requires 6 * i + 6 <= |v|
    ensures IsHopAt(v, i, DecodeHop(v[6 * i..6 * i + 6]))
  {
    SnrIsTwosComplement(v[6 * i + 5]);
    SliceOfSlice(v, 6 * i, 6 * i + 6, 0, 4);
  }

  /** Tag, length and value, and what the three stand for; the rest is decoded after it. */
  lemma FirstItemLayout(isCommand: bool, tag: byte, v: bytes, rest: bytes) returns (path: seq<Hop>)
    requires |v| <= 255
    ensures var decoded := DecodeItems(isCommand, [tag, |v|] + v + rest);
            if isCommand || tag != 0 then decoded == [Proprietary(tag, v)] + DecodeItems(isCommand, rest)
            else if |v| % 6 != 0 then decoded == DecodeItems(isCommand, rest)
            else
              && decoded == [Heartbeat(path)] + DecodeItems(isCommand, rest) && 6 * |path| == |v|
              && forall i {:trigger path[i]} :: 0 <= i < |path| ==> IsHopAt(v, i, path[i])
  {
    var b := [tag, |v|] + v + rest;
    assert b[2..2 + |v|] == v && b[2 + |v|..] == rest;
    EmptyUnit(DecodeItems(isCommand, rest));
    path := [];
    if |v| % 6 == 0 {
      path := DecodePath(v);
      forall i {:trigger path[i]} | 0 <= i < |path| ensures IsHopAt(v, i, path[i]) {
        HopLayout(v, i);
      }
    }
  }

  // ---------- Keys ----------

  /**
    Frames are signed with the configured signing key, or with one derived from the root key if that is
    all zeros; items are enciphered with the other one derived from the root key.
   */
  lemma KeysAtWork(conf: Config)
    ensures var m := KeysOf(conf);
            && m.crypto == conf.crypto
            && m.encryption == conf.crypto.aes(conf.rootKey, [1, 0, 0, 0, 0, 0, 0, 0, 0, 0, 0, 0, 0, 0, 0, 0])
            && m.signing == (if exists i :: 0 <= i < 16 && conf.signingKey[i] != 0 then conf.signingKey
                             else conf.crypto.aes(conf.rootKey, [0, 0, 0, 0, 0, 0, 0, 0, 0, 0, 0, 0, 0, 0, 0, 0]))
  {
    var zeros: Key := seq(16, _ => 0);
    assert zeros == [0, 0, 0, 0, 0, 0, 0, 0, 0, 0, 0, 0, 0, 0, 0, 0];
    assert [1] + seq(15, _ => 0) == [1, 0, 0, 0, 0, 0, 0, 0, 0, 0, 0, 0, 0, 0, 0, 0];
    if forall i :: 0 <= i < 16 ==> conf.signingKey[i] == 0 {
      assert conf.signingKey == zeros;
    }
  }
}
