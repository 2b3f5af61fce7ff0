/** From an end device to the network server and back, through any relays on the way. */
module EndToEnd {
  import opened Wrappers
  import opened Bytes
  import opened Frequency
  import opened Cipher
  import opened Tlv
  import opened Packets
  import opened PayloadCache
  import opened Relaying
  import opened Helpers
  import opened Gateway
  import opened NodeRuns

  // ---------- The attempts of one downlink ----------

  /** What is reported for item k if the attempts ended before item `end`. */
  function AckFor(env: Env, end: nat, k: nat): (a: Ack)
  {
    if k >= end then Ignored else if env.meshOk(k) then AckOk else InternalError
  }

  /**
    The acknowledgements tell what happened: attempts are made in order, all but the last failed,
    they end early only with a success, and what was not attempted is ignored. If the request
    ends with an error, nothing was transmitted successfully.
   */
  lemma {:induction false} AttemptsAcknowledged(conf: Config, st: NodeState, items: seq<DownlinkItem>, env: Env, i: nat)
    requires i <= |items|
    ensures var Outcome(result, out) := Attempts(conf, st, items, env, i).1;
            && |out| <= |items| - i
            && (forall k :: i <= k < i + |out| - 1 ==> !env.meshOk(k))
            && (result.Err? ==> forall k :: i <= k < i + |out| ==> !env.meshOk(k))
            && (result.Ok? ==>
                  && |result.value| == |items| - i
                  && (|out| < |items| - i ==> out != [] && env.meshOk(i + |out| - 1))
                  && forall j :: 0 <= j < |result.value| ==> result.value[j] == AckFor(env, i + |out|, i + j))
    decreases |items| - i
  {
    hide PrepareDownlink;
    if i < |items| {
      var (st', sent) := PrepareDownlink(conf, st, items[i]);
      if sent.Ok? && !env.meshOk(i) {
        AttemptsAcknowledged(conf, st', items, env, i + 1);
        var Outcome(whole, out) := Attempts(conf, st, items, env, i).1;
        if whole.Ok? {
          forall j | 0 <= j < |whole.value| ensures whole.value[j] == AckFor(env, i + |out|, i + j) {
            assert j > 0 ==> i + j == (i + 1) + (j - 1);
          }
        }
      }
    }
  }

  // ---------- Uplinks ----------

  /** A relay and a border gateway that share their keys and their tables. */
  ghost predicate Partners(relay: Config, border: Config) {
    && !relay.borderGateway && border.borderGateway && KeysOf(relay) == KeysOf(border)
    && relay.channels == border.channels && relay.dataRates == border.dataRates && relay.txPowers == border.txPowers
  }

  /** A one-byte index can name the rate of this modulation. */
  predicate InReach(conf: Config, m: Modulation) {
    ModulationToDataRate(m).Ok? && ModulationToDataRate(m).value in Named(conf.dataRates)
  }

  /** One-byte indexes can name the frequency and the rate of this uplink. */
  predicate UplinkInReach(conf: Config, up: UplinkFrame) {
    && up.txInfo.Some? && up.txInfo.value.frequency in Named(conf.channels)
    && up.txInfo.value.modulation.Some? && InReach(conf, up.txInfo.value.modulation.value)
  }

  /** A one-byte index can name the rate of this downlink. */
  predicate DownlinkInReach(conf: Config, item: DownlinkItem) {
    && item.txInfo.Some? && item.txInfo.value.modulation.Some?
    && InReach(conf, item.txInfo.value.modulation.value)
  }

  /** A relay sends an uplink exactly when its tables know it, its values fit and there is a frequency to send on. */
  lemma UplinkSentExactly(relay: Config, st: NodeState, up: UplinkFrame, env: Env)
    ensures RelayUplink(relay, st, up, env).1.out != [] <==>
            && relay.frequencies != []
            && UplinkPacket(relay, NextUplinkId(st.uplinkId), up).Ok?
            && var p := UplinkPacket(relay, NextUplinkId(st.uplinkId), up).value;
               p.payload.up.dr <= 15 && SignalInRange(p.payload.up.rssi, p.payload.up.snr)
  {
    hide Seal;
    var p := UplinkPacket(relay, NextUplinkId(st.uplinkId), up);
    if p.Ok? {
      PlainSealsExactly(KeysOf(relay), p.value);
    }
  }

  lemma PlainSealsExactly(m: MeshKeys, p: Packet)
    requires !HasItems(p.payload)
    ensures Seal(m, p).Ok? <==> 1 <= p.mhdr.hopCount <= 8 && PayloadToVec(p.payload).Ok?
  {
    if PayloadToVec(p.payload).Ok? {
      SealsExactly(m, p);
    }
  }

  /** What the relay sends for an uplink of a device says what the device sent. */
  lemma UplinkContent(relay: Config, st: NodeState, up: UplinkFrame, env: Env, f: bytes, freq: u32)
    requires !relay.borderGateway && RelayUplink(relay, st, up, env).1.out == [MeshFrame(f, freq)]
    ensures up.rxInfo.Some? && up.txInfo.Some? && up.txInfo.value.modulation.Some?
    ensures var id := NextUplinkId(st.uplinkId);
            var p := UplinkPacket(relay, id, up);
            && p.Ok? && p.value.payload.Uplink? && p.value.mhdr.hopCount == 1 && id <= 4095
            && Open(KeysOf(relay), f).Ok? && Content(Open(KeysOf(relay), f).value) == p.value
  {
    hide Seal, Open;
    var m := KeysOf(relay);
    var p := UplinkPacket(relay, NextUplinkId(st.uplinkId), up).value;
    assert Seal(m, p) == Ok(f);
    SealedOpens(m, p);
  }

  /** The receiver at the end of a path reads the original with the hops counted. */
  lemma PathContent(m: MeshKeys, relays: seq<Relay>, f: bytes, g: bytes)
    requires Open(m, f).Ok? && !Open(m, f).value.payload.Event? && RelayAll(m, relays, f) == Ok(g)
    ensures Open(m, g).Ok?
    ensures var p, q := Open(m, f).value, Open(m, g).value;
            q.payload == p.payload && q.mhdr.payloadType == p.mhdr.payloadType &&
            q.mhdr.hopCount == p.mhdr.hopCount + |relays|
  {
    hide RelayAll, Open;
    PathPreservesMeaning(m, relays, f);
    OpenedForm(m, f);
    var q := Open(m, g).value;
    assert q.payload == Content(q).payload && q.mhdr == Content(q).mhdr;
  }

  /** The frame that the network server gets for a device's uplink, with the way back. */
  function ServerFrame(relayId: Bytes4, id: u16, up: UplinkFrame, hops: byte): (frame: UplinkFrame)
    requires up.rxInfo.Some? && up.txInfo.Some? && up.txInfo.value.modulation.Some?
  {
    var rx, tx := up.rxInfo.value, up.txInfo.value;
    UplinkFrame(
      up.phyPayload,
      Some(RxInfo(AsI16(rx.rssi), rx.snr, BorderContext(relayId, id), Some((hops, relayId)))),
      Some(UplinkTxInfo(tx.frequency, Some(Resent(tx.modulation.value, false)))))
  }

  /** The parameters that a modulation comes back with unchanged, its polarisation apart. */
  predicate ExactModulation(m: Modulation) {
    match m
    case Lora(_, spreadingFactor, _, _) => spreadingFactor < 0x100
    case Fsk(frequencyDeviation, datarate) => frequencyDeviation == datarate / 2
    case _ => true
  }

  function WithPolarisation(m: Modulation, ipol: bool): (r: Modulation)
  {
    match m
    case Lora(bandwidth, sf, codeRate, _) => Lora(bandwidth, sf, codeRate, ipol)
    case other => other
  }

  lemma ResentExactly(m: Modulation, ipol: bool)
    ensures Resent(m, ipol) == WithPolarisation(m, ipol) <==> ExactModulation(m)
  {
  }

  /**
    The server reads an uplink that was sent as the device's relay heard it exactly when its signal
    strength needed no cut to 16 bits and its modulation is one that the tables can express.
   */
  lemma ServerFrameSaysExactly(relay: Config, st: NodeState, up: UplinkFrame, env: Env, hops: byte)
    requires RelayUplink(relay, st, up, env).1.out != []
    ensures up.rxInfo.Some? && up.txInfo.Some? && up.txInfo.value.modulation.Some?
    ensures var rx, tx := up.rxInfo.value, up.txInfo.value;
            var heard := ServerFrame(relay.relayId, NextUplinkId(st.uplinkId), up, hops);
            && heard.phyPayload == up.phyPayload
            && heard.rxInfo.value.snr == rx.snr && heard.txInfo.value.frequency == tx.frequency
            && (heard.rxInfo.value.rssi == rx.rssi <==> -255 <= rx.rssi <= 0)
            && (heard.txInfo.value.modulation == Some(WithPolarisation(tx.modulation.value, false))
                <==> ExactModulation(tx.modulation.value))
  {
    UplinkSentExactly(relay, st, up, env);
    ResentExactly(up.txInfo.value.modulation.value, false);
    hide RelayUplink;
  }

  /**
    The signal strength is cut to its low 16 bits: an uplink heard with 65436 makes the same frame as
    one heard with -100, and is reported as such.
   */
  lemma SignalIsCut(relay: Config, st: NodeState, up: UplinkFrame, env: Env, hops: byte)
    requires up.rxInfo.Some? && up.rxInfo.value.rssi == -100 && RelayUplink(relay, st, up, env).1.out != []
    ensures var loud := up.(rxInfo := Some(up.rxInfo.value.(rssi := 65436)));
            && RelayUplink(relay, st, loud, env) == RelayUplink(relay, st, up, env)
            && up.txInfo.Some? && up.txInfo.value.modulation.Some?
            && ServerFrame(relay.relayId, NextUplinkId(st.uplinkId), loud, hops).rxInfo.value.rssi == -100
  {
    hide SealAndTransmit, ModulationToDr, ByteIndexOf, KeysOf;
    assert AsI16(65436) == AsI16(-100) == -100;
  }

  /** A relay with one channel and one data rate, and an uplink that it can send. */
  function SmallRelay(c: Crypto, relayId: Bytes4): (relay: Config)
  {
    var key: Key := seq(16, _ => 1);
    Config(
      c, key, key, relayId, false, false, 8, [868_100_000], [868_100_000], [14], [DataRate(FSK, 0, 0, None, 50_000)])
  }

  function SmallUplink(rssi: i32): (up: UplinkFrame)
  {
    UplinkFrame(
      [], Some(RxInfo(rssi, 5, [], None)), Some(UplinkTxInfo(868_100_000, Some(Fsk(25_000, 50_000)))))
  }

  /** So there is such an uplink, for every state of the relay. */
  lemma SignalIsCutSomewhere(c: Crypto, relayId: Bytes4, st: NodeState, env: Env)
    ensures RelayUplink(SmallRelay(c, relayId), st, SmallUplink(65436), env).1.out != []
    ensures ServerFrame(relayId, NextUplinkId(st.uplinkId), SmallUplink(65436), 1).rxInfo.value.rssi == -100
  {
    var relay, up := SmallRelay(c, relayId), SmallUplink(-100);
    UplinkSentExactly(relay, st, up, env);
    SignalIsCut(relay, st, up, env, 1);
    hide RelayUplink;
    assert up.(rxInfo := Some(up.rxInfo.value.(rssi := 65436))) == SmallUplink(65436);
  }

  /** The key by which the mesh knows a relay's uplink, and the one by which it knows the answers to it. */
  function UplinkKey(relayId: Bytes4, id: u16): (k: PayloadKey) {
    PayloadKey(UplinkType, id, 0, relayId)
  }

  function DownlinkKey(relayId: Bytes4, id: u16): (k: PayloadKey) {
    PayloadKey(DownlinkType, id, 0, relayId)
  }

  /**
    An uplink that any relays pass on to the border gateway leaves it towards the network server
    with the device's payload and radio settings, and with a context that names the relay and the id
    under which it keeps the device's own context: exactly when no uplink with this id is in the
    border gateway's cache.
   */
  lemma UplinkReachesServer(
    relay: Config, st: NodeState, up: UplinkFrame, env: Env, f: bytes, freq: u32,
    relays: seq<Relay>, g: bytes,
    border: Config, stb: NodeState, rx: UplinkFrame, envb: Env)
    requires Partners(relay, border) && UplinkInReach(relay, up)
    requires RelayUplink(relay, st, up, env).1.out == [MeshFrame(f, freq)]
    requires RelayAll(KeysOf(relay), relays, f) == Ok(g)
    requires rx.phyPayload == g && rx.rxInfo.Some? && rx.txInfo.Some?
    ensures up.rxInfo.Some? && up.txInfo.Some? && up.txInfo.value.modulation.Some?
    ensures 1 + |relays| <= 8
    ensures var id := NextUplinkId(st.uplinkId);
            HandleMesh(border, stb, rx, envb).1.out ==
            if UplinkKey(relay.relayId, id) in stb.seen then []
            else [ProxiedUplink(ServerFrame(relay.relayId, id, up, 1 + |relays|))]
  {
    hide HandleMesh, Open, RelayAll, RelayUplink, ProxyUplink, UplinkPacket;
    var m := KeysOf(relay);
    UplinkContent(relay, st, up, env, f, freq);
    var p := Open(m, f).value;
    assert p.payload == Content(p).payload && p.mhdr == Content(p).mhdr;
    PathContent(m, relays, f, g);
    OpenedForm(m, g);
    UplinkTaken(relay, NextUplinkId(st.uplinkId), up, border, stb, rx, envb);
  }

  /** The border gateway's part: whatever way the uplink came. */
  lemma UplinkTaken(
    relay: Config, id: u16, up: UplinkFrame, border: Config, stb: NodeState, rx: UplinkFrame, env: Env)
    requires Partners(relay, border) && UplinkInReach(relay, up)
    requires UplinkPacket(relay, id, up).Ok? && rx.rxInfo.Some? && rx.txInfo.Some?
    requires Open(KeysOf(relay), rx.phyPayload).Ok?
    requires Open(KeysOf(relay), rx.phyPayload).value.payload == UplinkPacket(relay, id, up).value.payload
    ensures up.rxInfo.Some? && up.txInfo.Some? && up.txInfo.value.modulation.Some?
    ensures HandleMesh(border, stb, rx, env).1.out ==
            if UplinkKey(relay.relayId, id) in stb.seen then []
            else [ProxiedUplink(
                    ServerFrame(relay.relayId, id, up, Open(KeysOf(relay), rx.phyPayload).value.mhdr.hopCount))]
  {
    hide HandleMesh, Open, ProxyUplink;
    var p := Open(KeysOf(relay), rx.phyPayload).value;
    OpenedForm(KeysOf(relay), rx.phyPayload);
    UplinkProxied(relay, id, up, border, rx, p, env);
    assert KeyOf(p) == UplinkKey(relay.relayId, id);
    HandleMeshExactly(border, stb, rx, env);
  }

  /** The border gateway undoes what the relay's tables did. */
  lemma UplinkProxied(
    relay: Config, id: u16, up: UplinkFrame, border: Config, rx: UplinkFrame, p: Packet, env: Env)
    requires Partners(relay, border) && UplinkInReach(relay, up)
    requires UplinkPacket(relay, id, up).Ok? && rx.rxInfo.Some? && rx.txInfo.Some?
    ensures up.rxInfo.Some? && up.txInfo.Some? && up.txInfo.value.modulation.Some?
    ensures UplinkPacket(relay, id, up).value.mhdr == Mhdr(UplinkType, 1)
    ensures UplinkPacket(relay, id, up).value.payload.Uplink?
    ensures p.payload == UplinkPacket(relay, id, up).value.payload ==>
              ProxyUplink(border, rx, p, env).out ==
              [ProxiedUplink(ServerFrame(relay.relayId, id, up, p.mhdr.hopCount))]
  {
    LookupRoundTripExactly(relay.channels, up.txInfo.value.frequency);
    ModulationRoundTrip(relay.dataRates, up.txInfo.value.modulation.value, false);
  }

  // ---------- Downlinks ----------

  /** The border's context names the relay and the id, and nothing else. */
  lemma BorderContextReads(relayId: Bytes4, id: u16)
    ensures var context := BorderContext(relayId, id);
            ForMesh(context) && context[3..7] == relayId && U16(context[7..9]) == id
  {
    var context := BorderContext(relayId, id);
    assert context[..3] == [1, 2, 3];
    assert context[7..9] == U16Bytes(id);
  }

  /** A border gateway sends a downlink exactly when its tables know it and its values fit their bits. */
  lemma DownlinkSentExactly(border: Config, st: NodeState, item: DownlinkItem)
    ensures PrepareDownlink(border, st, item).1.Ok? <==>
            && border.frequencies != []
            && DownlinkPacket(border, item).Ok?
            && var down := DownlinkPacket(border, item).value.payload.down;
               DownlinkMetadataInRange(down) && Encodable(down.frequency)
  {
    hide Seal;
    var p := DownlinkPacket(border, item);
    if p.Ok? {
      PlainSealsExactly(KeysOf(border), p.value);
      DownlinkMetadataRoundTrip([0, 0, 0, 0, 0, 0], p.value.payload.down);
    }
  }

  lemma DownlinkContent(border: Config, item: DownlinkItem, f: bytes)
    requires DownlinkMeshFrame(border, item) == Ok(f)
    ensures DownlinkPacket(border, item).Ok?
    ensures var p := DownlinkPacket(border, item).value;
            && DownlinkMetadataInRange(p.payload.down) && Encodable(p.payload.down.frequency)
            && Open(KeysOf(border), f).Ok?
            && Open(KeysOf(border), f).value.payload ==
               p.payload.(down := p.payload.down.(frequency := HeardFreq(p.payload.down.frequency)))
            && Open(KeysOf(border), f).value.mhdr == p.mhdr
  {
    hide Open, Seal;
    var m, p := KeysOf(border), DownlinkPacket(border, item).value;
    SealedOpens(m, p);
    DownlinkMetadataRoundTrip([0, 0, 0, 0, 0, 0], p.payload.down);
    var q := Open(m, f).value;
    assert q.payload == Content(q).payload && q.mhdr == Content(q).mhdr;
  }

  // ---------- The delay ----------

  /** What the network server asked for. */
  function Requested(item: DownlinkItem): (delay: Option<Duration>)
    requires item.txInfo.Some? && item.txInfo.value.timing.Some? && item.txInfo.value.timing.value.DelayTiming?
  {
    item.txInfo.value.timing.value.delay
  }

  /** A downlink that is sent gives the device the delay asked for exactly when that is 1 to 16 whole seconds. */
  lemma DelayKeptExactly(border: Config, item: DownlinkItem, f: bytes)
    requires DownlinkMeshFrame(border, item) == Ok(f)
    ensures item.txInfo.Some? && item.txInfo.value.timing.Some? && item.txInfo.value.timing.value.DelayTiming?
    ensures Requested(item).Some? && 1 <= WireDelay(Requested(item)) <= 16
    ensures Requested(item) == Some(Duration(WireDelay(Requested(item)), 0)) <==>
            Requested(item).value.nanos == 0 && 1 <= Requested(item).value.seconds <= 16
  {
    hide DownlinkMeshFrame, Open;
    DownlinkContent(border, item, f);
  }

  /** A delay of 257 seconds is sent as one of 1 second: the two requests make the same frame. */
  lemma LongDelayIsCut(border: Config, item: DownlinkItem)
    requires item.txInfo.Some? && item.txInfo.value.timing == Some(DelayTiming(Some(Duration(257, 0))))
    ensures var short := item.txInfo.value.(timing := Some(DelayTiming(Some(Duration(1, 0)))));
            DownlinkMeshFrame(border, item) == DownlinkMeshFrame(border, item.(txInfo := Some(short)))
    ensures WireDelay(Requested(item)) == 1
  {
    hide Seal;
  }

  /** What is known of an item that was sent. */
  predicate DownlinkSent(relay: Config, item: DownlinkItem) {
    && item.txInfo.Some? && item.txInfo.value.modulation.Some?
    && item.txInfo.value.timing.Some? && item.txInfo.value.timing.value.DelayTiming?
    && Encodable(item.txInfo.value.frequency) && PowerToIndex(relay.txPowers, item.txInfo.value.power).Ok?
  }

  /** What the device's relay transmits for a downlink item. */
  function DeviceItem(relay: Config, item: DownlinkItem, context: bytes): (device: DownlinkItem)
    requires DownlinkSent(relay, item)
  {
    var tx := item.txInfo.value;
    DownlinkItem(
      item.phyPayload,
      Some(DownlinkTxInfo(
        HeardFreq(tx.frequency), relay.txPowers[PowerToIndex(relay.txPowers, tx.power).value],
        Some(Resent(tx.modulation.value, true)), Some(DelayTiming(Some(Duration(WireDelay(Requested(item)), 0)))),
        context)))
  }

  /**
    A downlink that any relays pass on to the relay it is for is sent to the device with the same
    payload, the frequency that the code can express, the modulation with its polarisation inverted,
    the power that the table has for it, the delay that fits the packet, and the context the relay
    kept: exactly when no other downlink with this id is in the relay's cache.
   */
  lemma DownlinkReachesDevice(
    relay: Config, st: NodeState, border: Config, item: DownlinkItem, f: bytes,
    relays: seq<Relay>, g: bytes, id: u16, rx: UplinkFrame, env: Env)
    requires Partners(relay, border) && DownlinkInReach(relay, item) && id <= 4095
    requires item.txInfo.Some? && item.txInfo.value.context == BorderContext(relay.relayId, id)
    requires DownlinkMeshFrame(border, item) == Ok(f) && RelayAll(KeysOf(relay), relays, f) == Ok(g)
    requires rx.phyPayload == g && rx.rxInfo.Some? && id in st.contexts
    ensures DownlinkSent(relay, item)
    ensures HandleMesh(relay, st, rx, env).1.out ==
            if DownlinkKey(relay.relayId, id) in st.seen then []
            else [DeviceDownlink(DeviceItem(relay, item, st.contexts[id]))]
  {
    hide HandleMesh, Open, RelayAll, DownlinkMeshFrame, DownlinkPacket;
    var m := KeysOf(relay);
    DownlinkContent(border, item, f);
    PathContent(m, relays, f, g);
    DownlinkTaken(relay, st, border, item, f, id, rx, env);
  }

  /** The relay's part: whatever way the downlink came. */
  lemma DownlinkTaken(
    relay: Config, st: NodeState, border: Config, item: DownlinkItem, f: bytes, id: u16, rx: UplinkFrame, env: Env)
    requires Partners(relay, border) && DownlinkInReach(relay, item) && id <= 4095
    requires item.txInfo.Some? && item.txInfo.value.context == BorderContext(relay.relayId, id)
    requires DownlinkMeshFrame(border, item) == Ok(f) && Open(KeysOf(relay), f).Ok?
    requires Open(KeysOf(relay), rx.phyPayload).Ok? && rx.rxInfo.Some? && id in st.contexts
    requires Open(KeysOf(relay), rx.phyPayload).value.payload == Open(KeysOf(relay), f).value.payload
    ensures DownlinkSent(relay, item)
    ensures HandleMesh(relay, st, rx, env).1.out ==
            if DownlinkKey(relay.relayId, id) in st.seen then []
            else [DeviceDownlink(DeviceItem(relay, item, st.contexts[id]))]
  {
    hide HandleMesh, Open, DownlinkMeshFrame;
    DownlinkContent(border, item, f);
    BorderContextReads(relay.relayId, id);
    OpenedForm(KeysOf(relay), rx.phyPayload);
    assert KeyOf(Open(KeysOf(relay), rx.phyPayload).value) == DownlinkKey(relay.relayId, id);
    HandleMeshExactly(relay, st, rx, env);
    ModulationRoundTrip(relay.dataRates, item.txInfo.value.modulation.value, true);
  }

  /** Whatever way the downlink came: a gateway with another relay id hands no device anything. */
  lemma OthersDoNotDeliver(
    border: Config, item: DownlinkItem, f: bytes, relays: seq<Relay>, conf: Config, st: NodeState, rx: UplinkFrame,
    env: Env, i: nat)
    requires KeysOf(conf) == KeysOf(border) && item.txInfo.Some? && |item.txInfo.value.context| >= 9
    requires DownlinkMeshFrame(border, item) == Ok(f) && RelayAll(KeysOf(border), relays, f) == Ok(rx.phyPayload)
    requires conf.relayId != item.txInfo.value.context[3..7] && i < |HandleMesh(conf, st, rx, env).1.out|
    ensures !HandleMesh(conf, st, rx, env).1.out[i].DeviceDownlink?
  {
    hide Open, RelayAll, DownlinkMeshFrame, HandleMesh;
    DownlinkContent(border, item, f);
    PathContent(KeysOf(border), relays, f, rx.phyPayload);
    if HandleMesh(conf, st, rx, env).1.out[i].DeviceDownlink? {
      OnlyAddresseeDelivers(conf, st, rx, env, i);
    }
  }

  /** Two downlinks have the same key exactly when their contexts name the same relay and the same id. */
  lemma DownlinkKeysCollideExactly(border: Config, item: DownlinkItem, f: bytes, item': DownlinkItem, f': bytes)
    requires DownlinkMeshFrame(border, item) == Ok(f) && DownlinkMeshFrame(border, item') == Ok(f')
    ensures Open(KeysOf(border), f).Ok? && Open(KeysOf(border), f').Ok?
    ensures item.txInfo.Some? && item'.txInfo.Some?
    ensures |item.txInfo.value.context| >= 9 && |item'.txInfo.value.context| >= 9
    ensures KeyOf(Open(KeysOf(border), f).value) == KeyOf(Open(KeysOf(border), f').value)
            <==> item.txInfo.value.context[3..9] == item'.txInfo.value.context[3..9]
  {
    hide Open, DownlinkMeshFrame;
    DownlinkContent(border, item, f);
    DownlinkContent(border, item', f');
    ContextSplits(item.txInfo.value.context, item'.txInfo.value.context);
  }

  lemma ContextSplits(a: bytes, b: bytes)
    requires |a| >= 9 && |b| >= 9
    ensures a[3..9] == b[3..9] <==> a[3..7] == b[3..7] && U16(a[7..9]) == U16(b[7..9])
  {
    assert a[3..9] == a[3..7] + a[7..9] && b[3..9] == b[3..7] + b[7..9];
    assert a[3..9][..4] == a[3..7] && b[3..9][..4] == b[3..7];
    assert a[3..9][4..] == a[7..9] && b[3..9][4..] == b[7..9];
    U16BytesInverse(a[7..9]);
    U16BytesInverse(b[7..9]);
  }

  /**
    Of two answers to one uplink a gateway handles the first it hears only, over whatever relays both
    came and whatever became of the first: the second is dropped as long as their key is among the last
    64 that it accepted, which it is until it has accepted 64 others.
   */
  lemma SecondAnswerIsDropped(
    border: Config, item: DownlinkItem, f: bytes, relays: seq<Relay>,
    item': DownlinkItem, f': bytes, relays': seq<Relay>,
    conf: Config, before: seq<NodeRuns.Step>, rx: UplinkFrame, env: Env, between: seq<NodeRuns.Step>,
    rx': UplinkFrame, env': Env)
    requires KeysOf(conf) == KeysOf(border)
    requires DownlinkMeshFrame(border, item) == Ok(f) && RelayAll(KeysOf(border), relays, f) == Ok(rx.phyPayload)
    requires DownlinkMeshFrame(border, item') == Ok(f') && RelayAll(KeysOf(border), relays', f') == Ok(rx'.phyPayload)
    requires item.txInfo.Some? && item'.txInfo.Some? && item.txInfo.value.context == item'.txInfo.value.context
    ensures Open(KeysOf(conf), rx.phyPayload).Ok?
    ensures var first := before + [NodeRuns.Step(Hear(rx), env)];
            var st := Run(conf, first + between).0;
            var key := KeyOf(Open(KeysOf(conf), rx.phyPayload).value);
            && (key in RecentKeys(conf, first + between) ==>
                  HandleMesh(conf, st, rx', env').0 == st && HandleMesh(conf, st, rx', env').1.out == [])
            && (Fresh(conf, Run(conf, before).0, rx.phyPayload) &&
                AcceptedCount(conf, first + between) < AcceptedCount(conf, first) + CACHE_SIZE ==>
                  key in RecentKeys(conf, first + between))
  {
    hide Open, RelayAll, DownlinkMeshFrame, HandleMesh, Run, RecentKeys, AcceptedCount, KeyOf;
    DownlinkKeysCollideExactly(border, item, f, item', f');
    DownlinkContent(border, item, f);
    DownlinkContent(border, item', f');
    PathKey(KeysOf(border), relays, f, rx.phyPayload);
    PathKey(KeysOf(border), relays', f', rx'.phyPayload);
    var steps := before + [NodeRuns.Step(Hear(rx), env)] + between;
    CacheOverRun(conf, steps);
    HandleMeshExactly(conf, Run(conf, steps).0, rx', env');
    var first := before + [NodeRuns.Step(Hear(rx), env)];
    if Fresh(conf, Run(conf, before).0, rx.phyPayload) &&
       AcceptedCount(conf, first + between) < AcceptedCount(conf, first) + CACHE_SIZE {
      KeyKept(conf, before, rx, env, between);
    }
  }

  lemma PathKey(m: MeshKeys, relays: seq<Relay>, f: bytes, g: bytes)
    requires Open(m, f).Ok? && !Open(m, f).value.payload.Event? && RelayAll(m, relays, f) == Ok(g)
    ensures Open(m, g).Ok? && KeyOf(Open(m, g).value) == KeyOf(Open(m, f).value)
  {
    hide Open, RelayAll;
    PathContent(m, relays, f, g);
  }

  /** A gateway sends a downlink to a device only when the packet is addressed to it. */
  lemma OnlyAddresseeDelivers(conf: Config, st: NodeState, rx: UplinkFrame, env: Env, i: nat)
    requires i < |HandleMesh(conf, st, rx, env).1.out| && HandleMesh(conf, st, rx, env).1.out[i].DeviceDownlink?
    ensures Open(KeysOf(conf), rx.phyPayload).Ok?
    ensures var p := Open(KeysOf(conf), rx.phyPayload).value;
            p.payload.Downlink? && p.payload.relayId == conf.relayId
  {
    hide HandleMesh, Open, SealAndTransmit, Forward;
    HandleMeshExactly(conf, st, rx, env);
  }

  // ---------- There and back ----------

  /** The relay still has the context of an uplink as long as it has stored fewer than 4096 others since. */
  lemma ContextStillThere(
    relay: Config, before: seq<NodeRuns.Step>, up: UplinkFrame, env: Env, later: seq<NodeRuns.Step>)
    requires StoredBy(relay, NodeRuns.Step(DeviceUplink(up), env)) != [] && |Stored(relay, later)| < 4096
    ensures up.rxInfo.Some?
    ensures var id := NextUplinkId(Run(relay, before).0.uplinkId);
            ContextOf(Run(relay, before + [NodeRuns.Step(DeviceUplink(up), env)] + later).0, id) ==
            Ok(up.rxInfo.value.context)
  {
    hide Run, StoreAll;
    var s := NodeRuns.Step(DeviceUplink(up), env);
    var one := [s];
    assert one[..0] == [];
    assert Stored(relay, one) == Stored(relay, []) + StoredBy(relay, s);
    StoredAppend(relay, before, one);
    StoredAppend(relay, before + one, later);
    hide Stored;
    ContextsOverRun(relay, before);
    StoredExactly(Stored(relay, before), 0);
    var k := |Stored(relay, before)| + 1;
    NextId(k - 1);
    ContextKept(relay, before + one + later, k);
    assert Stored(relay, before + one + later)[k - 1] == up.rxInfo.value.context;
  }

  /**
    There and back: the context of a device's uplink, kept at the relay, is the one that the relay
    hands out with the downlink that answers it, over any relays in both directions, as long as
    fewer than 4096 other uplinks were stored at the relay in between. The packets get through
    exactly because neither gateway has their keys among the last 64 that it accepted.
   */
  lemma ContextRoundTrip(
    relay: Config, before: seq<NodeRuns.Step>, up: UplinkFrame, env: Env, f: bytes, freq: u32, upRelays: seq<Relay>,
    border: Config, heard: seq<NodeRuns.Step>, rxb: UplinkFrame, envb: Env,
    item: DownlinkItem, d: bytes, downRelays: seq<Relay>,
    later: seq<NodeRuns.Step>, rx: UplinkFrame, env': Env)
    returns (server: UplinkFrame)
    requires Partners(relay, border) && UplinkInReach(relay, up) && DownlinkInReach(relay, item)
    // The uplink goes out, through any relays, to the border gateway and the server.
    requires RelayUplink(relay, Run(relay, before).0, up, env).1.out == [MeshFrame(f, freq)]
    requires RelayAll(KeysOf(relay), upRelays, f) == Ok(rxb.phyPayload) && rxb.rxInfo.Some? && rxb.txInfo.Some?
    requires UplinkKey(relay.relayId, NextUplinkId(Run(relay, before).0.uplinkId)) !in RecentKeys(border, heard)
    // The server answers with the context that it was given, and the answer comes back.
    requires item.txInfo.Some?
    requires item.txInfo.value.context ==
             BorderContext(relay.relayId, NextUplinkId(Run(relay, before).0.uplinkId))
    requires DownlinkMeshFrame(border, item) == Ok(d)
    requires RelayAll(KeysOf(relay), downRelays, d) == Ok(rx.phyPayload) && rx.rxInfo.Some?
    // In between the relay may do anything, but store 4096 uplinks or hear another answer to this one.
    requires |Stored(relay, later)| < 4096
    requires DownlinkKey(relay.relayId, NextUplinkId(Run(relay, before).0.uplinkId)) !in
             RecentKeys(relay, before + [NodeRuns.Step(DeviceUplink(up), env)] + later)
    ensures HandleMesh(border, Run(border, heard).0, rxb, envb).1.out == [ProxiedUplink(server)]
    ensures server.rxInfo.Some? && server.rxInfo.value.context == item.txInfo.value.context
    ensures up.rxInfo.Some? && DownlinkSent(relay, item)
    ensures var st := Run(relay, before + [NodeRuns.Step(DeviceUplink(up), env)] + later).0;
            HandleMesh(relay, st, rx, env').1.out ==
            [DeviceDownlink(DeviceItem(relay, item, up.rxInfo.value.context))]
    // And no other gateway of the mesh hands it to a device.
    ensures forall conf: Config, st: NodeState, e: Env, i: nat ::
              KeysOf(conf) == KeysOf(relay) && conf.relayId != relay.relayId &&
              i < |HandleMesh(conf, st, rx, e).1.out| ==>
                !HandleMesh(conf, st, rx, e).1.out[i].DeviceDownlink?
  {
    hide HandleMesh, Open, RelayAll, RelayUplink, Run, DownlinkMeshFrame, Stored, RecentKeys;
    var st0 := Run(relay, before).0;
    var id := NextUplinkId(st0.uplinkId);
    CacheOverRun(border, heard);
    UplinkReachesServer(
      relay, st0, up, env, f, freq, upRelays, rxb.phyPayload, border, Run(border, heard).0, rxb, envb);
    server := ServerFrame(relay.relayId, id, up, 1 + |upRelays|);
    UplinkContent(relay, st0, up, env, f, freq);
    ContextStillThere(relay, before, up, env, later);
    CacheOverRun(relay, before + [NodeRuns.Step(DeviceUplink(up), env)] + later);
    var st := Run(relay, before + [NodeRuns.Step(DeviceUplink(up), env)] + later).0;
    DownlinkReachesDevice(relay, st, border, item, d, downRelays, rx.phyPayload, id, rx, env');
    BorderContextReads(relay.relayId, id);
    forall conf: Config, st: NodeState, e: Env, i: nat |
      KeysOf(conf) == KeysOf(relay) && conf.relayId != relay.relayId && i < |HandleMesh(conf, st, rx, e).1.out|
      ensures !HandleMesh(conf, st, rx, e).1.out[i].DeviceDownlink?
    {
      OthersDoNotDeliver(border, item, d, downRelays, conf, st, rx, e, i);
    }
  }
}
