/** Mesh packets as values: their wire format, integrity code and payload encryption. */
module Packets {
  import opened Wrappers
  import opened Bytes
  import opened Seqs
  import opened Frequency
  import opened Cipher
  import opened Tlv

  datatype PayloadType = UplinkType | DownlinkType | EventType | CommandType

  datatype Mhdr = Mhdr(payloadType: PayloadType, hopCount: byte)

  datatype UplinkMetadata = UplinkMetadata(uplinkId: u16, dr: byte, rssi: i16, snr: i8, channel: byte)

  datatype DownlinkMetadata = DownlinkMetadata(uplinkId: u16, dr: byte, frequency: u32, txPower: byte, delay: byte)

  datatype Payload =
    | Uplink(up: UplinkMetadata, relayId: Bytes4, phyPayload: bytes)
    | Downlink(down: DownlinkMetadata, relayId: Bytes4, phyPayload: bytes)
    | Event(timestamp: SystemTime, relayId: Bytes4, items: seq<Item>)
    | Command(timestamp: SystemTime, relayId: Bytes4, items: seq<Item>)

  datatype Packet = Packet(mhdr: Mhdr, payload: Payload, mic: Option<Bytes4>)

  function TypeOf(pl: Payload): (t: PayloadType) {
    match pl
    case Uplink(_, _, _) => UplinkType
    case Downlink(_, _, _) => DownlinkType
    case Event(_, _, _) => EventType
    case Command(_, _, _) => CommandType
  }

  // ---------- Header ----------

  /** b >> 5, (b >> 3) & 3 and b & 7, as arithmetic on the byte. */
  function MhdrFromByte(b: byte): (r: Result<Mhdr>)
    ensures r.Ok? ==> 1 <= r.value.hopCount <= 8
  {
    if b / 0x20 != 7 then Err(InvalidMType) else
    Ok(Mhdr(TypeFromBits(b / 8 % 4), b % 8 + 1))
  }

  function MhdrToByte(h: Mhdr): (r: Result<byte>)
    ensures r.Ok? <==> 1 <= h.hopCount <= 8
  {
    if h.hopCount == 0 || h.hopCount > 8 then Err(HopCountRange) else
    Ok(7 * 0x20 + TypeToBits(h.payloadType) * 8 + (h.hopCount - 1))
  }

  function TypeFromBits(b: byte): (t: PayloadType)
    requires b < 4
  {
    if b == 0 then UplinkType else if b == 1 then DownlinkType else if b == 2 then EventType else CommandType
  }

  function TypeToBits(t: PayloadType): (b: int)
    ensures 0 <= b < 4 && TypeFromBits(b) == t
  {
    match t
    case UplinkType => 0
    case DownlinkType => 1
    case EventType => 2
    case CommandType => 3
  }

  lemma MhdrRoundTrip(b: byte, h: Mhdr)
    ensures MhdrFromByte(b).Ok? ==> MhdrToByte(MhdrFromByte(b).value) == Ok(b)
    ensures MhdrToByte(h).Ok? ==> MhdrFromByte(MhdrToByte(h).value) == Ok(h)
  {
    assert b == b / 0x20 * 0x20 + b / 8 % 4 * 8 + b % 8;
  }

  // ---------- Metadata ----------

  /** The 12-bit uplink id and the 4-bit data rate share two bytes. */
  function IdDrBytes(uplinkId: u16, dr: byte): (b: bytes)
    requires uplinkId <= 4095 && dr <= 15
    ensures |b| == 2
  {
    var id := U16Bytes(uplinkId * 16);
    [id[0], id[1] + dr]
  }

  lemma IdDrRoundTrip(b: bytes, uplinkId: u16, dr: byte)
    requires |b| == 2 && uplinkId <= 4095 && dr <= 15
    ensures U16(IdDrBytes(uplinkId, dr)) / 16 == uplinkId && IdDrBytes(uplinkId, dr)[1] % 16 == dr
    ensures U16(b) / 16 <= 4095 && IdDrBytes(U16(b) / 16, b[1] % 16) == b
  {
    NibbleSplit(uplinkId / 16, uplinkId % 16, dr);
    NibbleSplit(b[0], b[1] / 16, b[1] % 16);
    assert b[1] == b[1] / 16 * 16 + b[1] % 16;
  }

  /** A 12-bit number as a high byte and a nibble, followed by another nibble. */
  lemma NibbleSplit(high: nat, low: nat, dr: nat)
    requires high < 0x100 && low < 16 && dr < 16
    ensures (high * 0x100 + (low * 16 + dr)) / 16 == high * 16 + low
    ensures (high * 16 + low) * 16 / 0x100 == high && (high * 16 + low) * 16 % 0x100 == low * 16
    ensures (low * 16 + dr) % 16 == dr
  {
  }

  function UplinkMetadataFromBytes(b: bytes): (m: UplinkMetadata)
    requires |b| == 5
  {
    UplinkMetadata(U16(b[..2]) / 16, b[1] % 16, -(b[2] as int), SnrFromByte(b[3]), b[4])
  }

  function UplinkMetadataToBytes(m: UplinkMetadata): (r: Result<bytes>)
    ensures r.Ok? <==> UplinkMetadataInRange(m)
    ensures r.Ok? ==> |r.value| == 5
  {
    if m.uplinkId > 4095 then Err(UplinkIdRange)
    else if m.dr > 15 then Err(DrRange)
    else
      var _ :- CheckSignal(m.rssi, m.snr);
      Ok(IdDrBytes(m.uplinkId, m.dr) + [-m.rssi, SnrToByte(m.snr), m.channel])
  }

  predicate UplinkMetadataInRange(m: UplinkMetadata) {
    m.uplinkId <= 4095 && m.dr <= 15 && SignalInRange(m.rssi, m.snr)
  }

  lemma UplinkMetadataRoundTrip(b: bytes, m: UplinkMetadata)
    requires |b| == 5
    ensures UplinkMetadataToBytes(UplinkMetadataFromBytes(b)) == Ok(b[3 := b[3] % 0x40])
    ensures UplinkMetadataToBytes(m).Ok? ==> UplinkMetadataFromBytes(UplinkMetadataToBytes(m).value) == m
  {
    IdDrRoundTrip(b[..2], 0, 0);
    assert b[..2] + [b[2], b[3] % 0x40, b[4]] == b[3 := b[3] % 0x40];
    if UplinkMetadataToBytes(m).Ok? {
      IdDrRoundTrip(b[..2], m.uplinkId, m.dr);
      assert UplinkMetadataToBytes(m).value[..2] == IdDrBytes(m.uplinkId, m.dr);
    }
  }

  function DownlinkMetadataFromBytes(b: bytes): (m: DownlinkMetadata)
    requires |b| == 6
  {
    DownlinkMetadata(U16(b[..2]) / 16, b[1] % 16, DecodeFreq(b[2..5]), b[5] / 16, b[5] % 16 + 1)
  }

  function DownlinkMetadataToBytes(m: DownlinkMetadata): (r: Result<bytes>)
    ensures r.Ok? ==> |r.value| == 6
  {
    if m.uplinkId > 4095 then Err(UplinkIdRange)
    else if m.dr > 15 then Err(DrRange)
    else if m.delay < 1 then Err(DelayRange)
    else if m.txPower > 15 then Err(TxPowerRange)
    else if m.delay > 16 then Err(DelayRange)
    else
      var freq :- EncodeFreq(m.frequency);
      Ok(IdDrBytes(m.uplinkId, m.dr) + freq + [m.txPower * 16 + (m.delay - 1)])
  }

  predicate DownlinkMetadataInRange(m: DownlinkMetadata) {
    m.uplinkId <= 4095 && m.dr <= 15 && m.txPower <= 15 && 1 <= m.delay <= 16
  }

  /** The metadata that reaches the other end: only the frequency can change on the way. */
  lemma DownlinkMetadataRoundTrip(b: bytes, m: DownlinkMetadata)
    requires |b| == 6
    ensures DownlinkMetadataToBytes(DownlinkMetadataFromBytes(b)) == Ok(b)
    ensures DownlinkMetadataInRange(DownlinkMetadataFromBytes(b)) && ExactFreq(DownlinkMetadataFromBytes(b).frequency)
    ensures DownlinkMetadataToBytes(m).Ok? <==> DownlinkMetadataInRange(m) && Encodable(m.frequency)
    ensures DownlinkMetadataToBytes(m).Ok? ==>
              DownlinkMetadataFromBytes(DownlinkMetadataToBytes(m).value) ==
              m.(frequency := HeardFreq(m.frequency))
  {
    DownlinkBytesKept(b);
    DownlinkMetadataKept(m);
    hide DownlinkMetadataToBytes, DownlinkMetadataFromBytes;
  }

  lemma DownlinkBytesKept(b: bytes)
    requires |b| == 6
    ensures DownlinkMetadataToBytes(DownlinkMetadataFromBytes(b)) == Ok(b)
    ensures DownlinkMetadataInRange(DownlinkMetadataFromBytes(b)) && ExactFreq(DownlinkMetadataFromBytes(b).frequency)
  {
    IdDrRoundTrip(b[..2], 0, 0);
    FreqCodeCanonical(b[2..5]);
    hide EncodeFreq, DecodeFreq, IdDrBytes;
    assert b[..2] + b[2..5] + [b[5]] == b;
  }

  lemma DownlinkMetadataKept(m: DownlinkMetadata)
    ensures DownlinkMetadataToBytes(m).Ok? <==> DownlinkMetadataInRange(m) && Encodable(m.frequency)
    ensures DownlinkMetadataToBytes(m).Ok? ==>
              DownlinkMetadataFromBytes(DownlinkMetadataToBytes(m).value) ==
              m.(frequency := HeardFreq(m.frequency))
  {
    FreqAcceptedAndDecoded(m.frequency);
    hide EncodeFreq, DecodeFreq, IdDrBytes;
    if DownlinkMetadataToBytes(m).Ok? {
      IdDrRoundTrip([0, 0], m.uplinkId, m.dr);
      assert DownlinkMetadataToBytes(m).value[..2] == IdDrBytes(m.uplinkId, m.dr);
      assert DownlinkMetadataToBytes(m).value[2..5] == EncodeFreq(m.frequency).value;
    }
  }

  // ---------- Payloads and packets ----------

  function PayloadFromSlice(t: PayloadType, b: bytes): (r: Result<Payload>)
    ensures r.Ok? ==> TypeOf(r.value) == t
  {
    match t
    case UplinkType =>
      if |b| < 9 then Err(NotEnoughBytes) else
      Ok(Uplink(UplinkMetadataFromBytes(b[..5]), b[5..9], b[9..]))
    case DownlinkType =>
      if |b| < 10 then Err(NotEnoughBytes) else
      Ok(Downlink(DownlinkMetadataFromBytes(b[..6]), b[6..10], b[10..]))
    case EventType =>
      if |b| < 8 then Err(ShortRead) else
      Ok(Event(U32(b[..4]) * SECOND, b[4..8], Undecoded(b[8..])))
    case CommandType =>
      if |b| < 8 then Err(ShortRead) else
      Ok(Command(U32(b[..4]) * SECOND, b[4..8], Undecoded(b[8..])))
  }

  function Undecoded(b: bytes): (items: seq<Item>)
    ensures EncodeItems(items) == Ok(b)
  {
    if b == [] then [] else
    assert [Encrypted(b)][..0] == [];
    assert EncodeItems([]) == Ok([]);
    EmptyUnit(b);
    [Encrypted(b)]
  }

  function PayloadToVec(pl: Payload): (r: Result<bytes>)
  {
    match pl
    case Uplink(up, relayId, phy) =>
      var md :- UplinkMetadataToBytes(up);
      Ok(md + relayId + phy)
    case Downlink(down, relayId, phy) =>
      var md :- DownlinkMetadataToBytes(down);
      Ok(md + relayId + phy)
    case Event(t, relayId, items) => ItemsToVec(t, relayId, items)
    case Command(t, relayId, items) => ItemsToVec(t, relayId, items)
  }

  function ItemsToVec(t: SystemTime, relayId: Bytes4, items: seq<Item>): (r: Result<bytes>)
  {
    var seconds :- WireSeconds(t);
    var body :- EncodeItems(items);
    Ok(U32Bytes(seconds) + relayId + body)
  }

  function Parse(b: bytes): (r: Result<Packet>)
  {
    if |b| == 0 then Err(EmptyInput)
    else if |b| < 5 then Err(NotEnoughBytes)
    else
      var mhdr :- MhdrFromByte(b[0]);
      var payload :- PayloadFromSlice(mhdr.payloadType, b[1..|b| - 4]);
      Ok(Packet(mhdr, payload, Some(b[|b| - 4..])))
  }

  /** Header and payload: the bytes that the integrity code covers. */
  function MicBytes(p: Packet): (r: Result<bytes>)
  {
    var h :- MhdrToByte(p.mhdr);
    var body :- PayloadToVec(p.payload);
    Ok([h] + body)
  }

  function Serialise(p: Packet): (r: Result<bytes>)
  {
    var b :- MicBytes(p);
    if p.mic.None? then Err(MicMissing) else
    Ok(b + p.mic.value)
  }

  /** The wire lengths and header bits that the parser accepts. */
  predicate Acceptable(b: bytes) {
    |b| >= 5 && b[0] / 0x20 == 7 &&
    |b| - 5 >= (match TypeFromBits(b[0] / 8 % 4)
                case UplinkType => 9
                case DownlinkType => 10
                case EventType => 8
                case CommandType => 8)
  }

  /** The same bytes with the two unused bits of an uplink's SNR byte cleared. */
  function Canonical(b: bytes): (r: bytes)
    requires Acceptable(b)
    ensures |r| == |b|
  {
    if TypeFromBits(b[0] / 8 % 4) == UplinkType then b[4 := b[4] % 0x40] else b
  }

  /** The packets that some byte string stands for. */
  predicate WireForm(p: Packet) {
    && p.mic.Some?
    && 1 <= p.mhdr.hopCount <= 8
    && p.mhdr.payloadType == TypeOf(p.payload)
    && WirePayload(p.payload)
  }

  predicate WirePayload(pl: Payload) {
    match pl
    case Uplink(up, _, _) => UplinkMetadataInRange(up)
    case Downlink(down, _, _) => DownlinkMetadataInRange(down) && ExactFreq(down.frequency)
    case Event(t, _, items) => WireTime(t) && WireItems(items)
    case Command(t, _, items) => WireTime(t) && WireItems(items)
  }

  predicate WireTime(t: SystemTime) {
    0 <= t < 0x1_0000_0000 * SECOND && t % SECOND == 0
  }

  predicate WireItems(items: seq<Item>) {
    items == [] || (|items| == 1 && items[0].Encrypted? && items[0].data != [])
  }

  lemma ParseAcceptsExactly(b: bytes)
    ensures Parse(b).Ok? <==> Acceptable(b)
  {
  }

  lemma PayloadReencodes(t: PayloadType, b: bytes)
    requires PayloadFromSlice(t, b).Ok?
    ensures WirePayload(PayloadFromSlice(t, b).value)
    ensures PayloadToVec(PayloadFromSlice(t, b).value) == Ok(if t == UplinkType then b[3 := b[3] % 0x40] else b)
  {
    match t {
      case UplinkType =>
        var md := b[..5];
        UplinkMetadataRoundTrip(md, UplinkMetadataFromBytes(md));
        assert md[3 := md[3] % 0x40] + b[5..9] + b[9..] == b[3 := b[3] % 0x40];
      case DownlinkType =>
        var md := b[..6];
        DownlinkMetadataRoundTrip(md, DownlinkMetadataFromBytes(md));
        assert md + b[6..10] + b[10..] == b;
      case EventType =>
        ItemsReencode(b);
      case CommandType =>
        ItemsReencode(b);
    }
  }

  lemma ItemsReencode(b: bytes)
    requires |b| >= 8
    ensures WireTime(U32(b[..4]) * SECOND)
    ensures ItemsToVec(U32(b[..4]) * SECOND, b[4..8], Undecoded(b[8..])) == Ok(b)
  {
    U32BytesInverse(0, b[..4]);
    assert b[..4] + b[4..8] + b[8..] == b;
  }

  /** Every accepted byte string re-encodes to itself, up to the unused bits of an uplink's SNR. */
  lemma ParsedReencodes(b: bytes)
    requires Parse(b).Ok?
    ensures WireForm(Parse(b).value)
    ensures Serialise(Parse(b).value) == Ok(Canonical(b))
  {
    var p := Parse(b).value;
    PayloadReencodes(p.mhdr.payloadType, b[1..|b| - 4]);
    MhdrRoundTrip(b[0], p.mhdr);
    FrameSplits(b);
  }

  lemma FrameSplits(b: bytes)
    requires |b| >= 5
    ensures [b[0]] + b[1..|b| - 4] + b[|b| - 4..] == b
    ensures |b| >= 9 ==>
              [b[0]] + b[1..|b| - 4][3 := b[1..|b| - 4][3] % 0x40] + b[|b| - 4..] == b[4 := b[4] % 0x40]
  {
  }

  /** And to exactly itself if and only if it is no uplink or leaves these two bits clear. */
  lemma ReencodesUnchangedExactly(b: bytes)
    requires Parse(b).Ok?
    ensures Serialise(Parse(b).value) == Ok(b) <==> Parse(b).value.payload.Uplink? ==> b[4] < 0x40
  {
    ParsedReencodes(b);
    assert Canonical(b) == b <==> Canonical(b)[4] == b[4] by {
      if Canonical(b)[4] == b[4] {
        assert Canonical(b) == b;
      }
    }
  }

  /** What was sent in a second is received as that second; seconds wrap at 32 bits. */
  function ReceivedTime(t: SystemTime): (r: SystemTime)
    requires t >= 0
    ensures WireTime(r) && WireSeconds(r) == WireSeconds(t)
    ensures WireTime(t) ==> r == t
  {
    var seconds := t / SECOND % 0x1_0000_0000;
    assert seconds * SECOND / SECOND == seconds;
    seconds * SECOND
  }

  /** What the parser makes of a payload that was serialised: coarser in time and frequency, items undecoded. */
  function Received(pl: Payload): (r: Payload)
    requires PayloadToVec(pl).Ok?
  {
    match pl
    case Uplink(_, _, _) => pl
    case Downlink(down, _, _) =>
      DownlinkMetadataRoundTrip([0, 0, 0, 0, 0, 0], down);
      pl.(down := down.(frequency := HeardFreq(down.frequency)))
    case Event(t, relayId, items) => Event(ReceivedTime(t), relayId, Undecoded(EncodeItems(items).value))
    case Command(t, relayId, items) => Command(ReceivedTime(t), relayId, Undecoded(EncodeItems(items).value))
  }

  lemma PayloadDecodes(pl: Payload)
    requires PayloadToVec(pl).Ok?
    ensures PayloadFromSlice(TypeOf(pl), PayloadToVec(pl).value) == Ok(Received(pl))
  {
    match pl {
      case Uplink(up, relayId, phy) =>
        UplinkMetadataRoundTrip([0, 0, 0, 0, 0], up);
        var md := UplinkMetadataToBytes(up).value;
        var b := md + relayId + phy;
        assert b[..5] == md && b[5..9] == relayId && b[9..] == phy;
      case Downlink(down, relayId, phy) =>
        DownlinkMetadataRoundTrip([0, 0, 0, 0, 0, 0], down);
        var md := DownlinkMetadataToBytes(down).value;
        var b := md + relayId + phy;
        assert b[..6] == md && b[6..10] == relayId && b[10..] == phy;
      case Event(t, relayId, items) =>
        ItemsDecode(t, relayId, items);
      case Command(t, relayId, items) =>
        ItemsDecode(t, relayId, items);
    }
  }

  lemma ItemsDecode(t: SystemTime, relayId: Bytes4, items: seq<Item>)
    requires ItemsToVec(t, relayId, items).Ok?
    ensures var b := ItemsToVec(t, relayId, items).value;
            |b| >= 8 && U32(b[..4]) * SECOND == ReceivedTime(t) && b[4..8] == relayId &&
            b[8..] == EncodeItems(items).value
  {
    var seconds := WireSeconds(t).value;
    U32BytesInverse(seconds, relayId);
    HeadSplits(U32Bytes(seconds), relayId, EncodeItems(items).value);
  }

  lemma HeadSplits(time: Bytes4, relayId: Bytes4, data: bytes)
    ensures var b := time + relayId + data;
            b[..4] == time && b[4..8] == relayId && b[8..] == data
  {
  }

  lemma WireFormIsReceived(pl: Payload)
    requires WirePayload(pl)
    ensures PayloadToVec(pl).Ok? && Received(pl) == pl
  {
    hide EncodeFreq, DecodeFreq, EncodeItem;
    match pl {
      case Uplink(_, _, _) =>
      case Downlink(down, _, _) =>
        DownlinkMetadataRoundTrip([0, 0, 0, 0, 0, 0], down);
        FreqRoundTripExactly(down.frequency);
        FreqAcceptedAndDecoded(down.frequency);
      case Event(_, _, items) =>
        assert items == Undecoded(if items == [] then [] else items[0].data);
      case Command(_, _, items) =>
        assert items == Undecoded(if items == [] then [] else items[0].data);
    }
  }

  /** What every receiver parses from a serialised packet, whatever the packet. */
  lemma SerialisedParses(p: Packet)
    requires Serialise(p).Ok? && p.mhdr.payloadType == TypeOf(p.payload)
    ensures Parse(Serialise(p).value) == Ok(p.(payload := Received(p.payload)))
  {
    PayloadDecodes(p.payload);
    MhdrRoundTrip(0, p.mhdr);
    var h, body := MhdrToByte(p.mhdr).value, PayloadToVec(p.payload).value;
    var b := [h] + body + p.mic.value;
    assert b[1..|b| - 4] == body && b[|b| - 4..] == p.mic.value;
  }

  /** A packet survives the wire exactly when it has wire form. */
  lemma PacketRoundTripExactly(p: Packet)
    ensures Serialise(p).Ok? && Parse(Serialise(p).value) == Ok(p) <==> WireForm(p)
  {
    if Serialise(p).Ok? && Parse(Serialise(p).value) == Ok(p) {
      ParsedReencodes(Serialise(p).value);
    }
    if WireForm(p) {
      WireFormIsReceived(p.payload);
      SerialisedParses(p);
    }
  }

  /** The unused bits carry nothing: a frame and its canonical bytes are the same packet. */
  lemma CanonicalParsesTheSame(b: bytes)
    requires Parse(b).Ok?
    ensures Parse(Canonical(b)) == Parse(b)
  {
    hide Parse, Serialise, Canonical;
    ParseAcceptsExactly(b);
    ParsedReencodes(b);
    PacketRoundTripExactly(Parse(b).value);
  }

  // ---------- Integrity code ----------

  function CalculateMic(c: Crypto, key: Key, p: Packet): (r: Result<Bytes4>)
  {
    var b :- MicBytes(p);
    Ok(c.cmac(key, b)[..4])
  }

  function SetMic(c: Crypto, key: Key, p: Packet): (r: Result<Packet>)
  {
    var mic :- CalculateMic(c, key, p);
    Ok(p.(mic := Some(mic)))
  }

  function ValidateMic(c: Crypto, key: Key, p: Packet): (r: Result<bool>)
  {
    if p.mic.None? then Err(MicMissing) else
    var mic :- CalculateMic(c, key, p);
    Ok(p.mic.value == mic)
  }

  // ---------- Payload encryption ----------

  predicate HasItems(pl: Payload) {
    pl.Event? || pl.Command?
  }

  function Encrypt(c: Crypto, key: Key, p: Packet): (r: Result<Packet>)
  {
    var pl := p.payload;
    if !HasItems(pl) || pl.items == [] then Ok(p) else
    var b :- EncodeItems(pl.items);
    var data :- CryptAt(c, key, pl.Command?, pl.relayId, pl.timestamp, b);
    Ok(p.(payload := pl.(items := [Encrypted(data)])))
  }

  function Decrypt(c: Crypto, key: Key, p: Packet): (r: Result<Packet>)
  {
    var pl := p.payload;
    if !HasItems(pl) || pl.items == [] then Ok(p)
    else if |pl.items| != 1 then Err(OneItemExpected)
    else if !pl.items[0].Encrypted? then Err(EncryptedExpected)
    else
      var data :- CryptAt(c, key, pl.Command?, pl.relayId, pl.timestamp, pl.items[0].data);
      Ok(p.(payload := pl.(items := DecodeItems(pl.Command?, data))))
  }

  /** A parsed packet always decrypts, whatever its bytes. */
  lemma ParsedDecrypts(c: Crypto, key: Key, b: bytes)
    requires Parse(b).Ok?
    ensures Decrypt(c, key, Parse(b).value).Ok?
  {
    ParsedReencodes(b);
  }
}
