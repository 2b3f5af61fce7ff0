/**
  What a gateway does with each frame and request: its state, and every handler as a function
  from the state and the environment's answers to the next state and the effects. The methods
  of module Node are proved against these functions.
 */
module Gateway {
  import opened Wrappers
  import opened Bytes
  import opened Cipher
  import opened Tlv
  import opened Packets
  import opened PayloadCache
  import opened Relaying
  import opened Helpers
  import opened Cache
  import opened Hex

  const CACHE_SIZE: nat := 64

  datatype Config = Config(
    crypto: Crypto, rootKey: Key, signingKey: Key,
    relayId: Bytes4, borderGateway: bool, infoLogged: bool, maxHopCount: byte, frequencies: seq<u32>,
    channels: seq<u32>, txPowers: seq<i32>, dataRates: seq<DataRate>)

  /** A configured signing key, or else the one derived from the root key. */
  function KeysOf(conf: Config): (m: MeshKeys)
  {
    MeshKeys(
      conf.crypto,
      if conf.signingKey != seq(16, _ => 0) then conf.signingKey else SigningKey(conf.crypto, conf.rootKey),
      EncryptionKey(conf.crypto, conf.rootKey))
  }

  datatype NodeState = NodeState(
    seen: seq<PayloadKey>, uplinkId: u16, contexts: map<u16, bytes>, channel: nat, lastCommand: Option<SystemTime>)

  const INITIAL := NodeState([], 0, map[], 0, None)

  // ---------- Frames of the gateway API, as far as the handlers read or write them ----------

  datatype RxInfo = RxInfo(rssi: i32, snr: i8, context: bytes, relayedBy: Option<(byte, Bytes4)>)
  datatype UplinkTxInfo = UplinkTxInfo(frequency: u32, modulation: Option<Modulation>)
  datatype UplinkFrame = UplinkFrame(phyPayload: bytes, rxInfo: Option<RxInfo>, txInfo: Option<UplinkTxInfo>)

  datatype Duration = Duration(seconds: int, nanos: int)
  datatype Timing = DelayTiming(delay: Option<Duration>) | OtherTiming
  datatype DownlinkTxInfo = DownlinkTxInfo(
    frequency: u32, power: i32, modulation: Option<Modulation>, timing: Option<Timing>, context: bytes)
  datatype DownlinkItem = DownlinkItem(phyPayload: bytes, txInfo: Option<DownlinkTxInfo>)

  datatype Output =
    | MeshFrame(frame: bytes, frequency: u32)
    | DeviceDownlink(item: DownlinkItem)
    | ProxiedUplink(uplink: UplinkFrame)
    | ProxiedEvents(relayId: Bytes4, timestamp: SystemTime, items: seq<Item>)
    | ProxiedDownlink(downlink: seq<DownlinkItem>)
    | RunCommand(tag: byte, value: bytes)

  /** What a handler returns and what it has handed to the outside, in order. */
  datatype Outcome<+R> = Outcome(result: Result<R>, out: seq<Output>)

  /**
    The answers of the outside: the clock, whether the n-th transmission of the handler is
    acknowledged, how the device concentrator answers a downlink, whether the proxy takes an
    event, and what the n-th command of a payload prints, if it can be run.
   */
  datatype Env = Env(
    now: SystemTime, meshOk: nat -> bool, deviceAcks: Result<seq<Ack>>, proxyOk: bool,
    run: (nat, byte, bytes) -> Option<bytes>)

  function Failed<R>(st: NodeState, e: Error): (r: (NodeState, Outcome<R>))
  {
    (st, Outcome(Err(e), []))
  }

  function Acknowledged(ok: bool): (r: Result<()>)
  {
    if ok then Ok(()) else Err(TransmitFailed)
  }

  /** A downlink fails with the status of its last item, and one without items as ignored. */
  function AcksToResult(acks: Result<seq<Ack>>): (r: Result<()>)
    ensures r.Ok? <==> acks.Ok? && AckOk in acks.value
    ensures acks.Ok? && r.Err? ==>
              && r.error.TxAckError? && r.error.last != AckOk
              && (acks.value != [] ==> r.error.last == acks.value[|acks.value| - 1])
  {
    var items :- acks;
    if AckOk in items then Ok(())
    else Err(TxAckError(if items == [] then Ignored else items[|items| - 1]))
  }

  // ---------- Formatting, as far as it can fail ----------

  /** Log arguments are computed only where the log level lets them through. */
  function Logged(conf: Config, formatted: Result<()>): (r: Result<()>)
  {
    if conf.infoLogged then formatted else Ok(())
  }

  function FormatUplink(up: UplinkFrame): (r: Result<()>)
    ensures r.Ok? <==> up.txInfo.Some? && up.rxInfo.Some? && up.txInfo.value.modulation.Some?
  {
    if up.txInfo.None? then Err(TxInfoMissing)
    else if up.rxInfo.None? then Err(RxInfoMissing)
    else if up.txInfo.value.modulation.None? then Err(ModulationMissing)
    else Ok(())
  }

  predicate Formattable(item: DownlinkItem) {
    item.txInfo.Some? && item.txInfo.value.modulation.Some? && item.txInfo.value.timing.Some?
  }

  function FormatDownlink(items: seq<DownlinkItem>): (r: Result<()>)
    ensures r.Ok? <==> forall i :: 0 <= i < |items| ==> Formattable(items[i])
  {
    if items == [] then Ok(()) else
    var _ :- FormatDownlink(items[..|items| - 1]);
    var last := items[|items| - 1];
    if last.txInfo.None? then Err(TxInfoMissing)
    else if last.txInfo.value.modulation.None? then Err(ModulationMissing)
    else if last.txInfo.value.timing.None? then Err(TimingMissing)
    else Ok(())
  }

  // ---------- Counters and contexts ----------

  /** The next mesh frequency, round robin, starting after the first entry of the list. */
  function NextFrequency(conf: Config, st: NodeState): (r: (NodeState, Result<u32>))
    ensures r.1.Ok? <==> conf.frequencies != []
    ensures r.0 == st.(channel := r.0.channel)
  {
    if conf.frequencies == [] then (st, Err(NoMeshFrequencies)) else
    var next := if st.channel + 1 >= |conf.frequencies| then 0 else st.channel + 1;
    (st.(channel := next), Ok(conf.frequencies[next]))
  }

  function NextUplinkId(id: u16): (next: u16)
  {
    if id + 1 > 4095 then 0 else id + 1
  }

  /** Ids repeat every 4096 uplinks and not sooner. */
  lemma SameIdFarApart(k: nat, j: nat)
    requires k < j && k % 4096 == j % 4096
    ensures k + 4096 <= j
  {
    assert j - k == 4096 * (j / 4096 - k / 4096);
  }

  function StoreContext(st: NodeState, context: bytes): (r: NodeState)
  {
    var id := NextUplinkId(st.uplinkId);
    st.(uplinkId := id, contexts := st.contexts[id := context])
  }

  function ContextOf(st: NodeState, id: u16): (r: Result<bytes>)
  {
    if id in st.contexts then Ok(st.contexts[id]) else Err(NoUplinkContext)
  }

  // ---------- Sending ----------

  /** Hand a frame to the mesh concentrator. It counts as sent whether or not it is acknowledged. */
  function Transmit(conf: Config, st: NodeState, frame: bytes, ok: bool): (r: (NodeState, Outcome<()>))
    ensures r.0 == st.(channel := r.0.channel)
    ensures |r.1.out| <= 1
    ensures forall k :: 0 <= k < |r.1.out| ==> r.1.out[k].MeshFrame? && r.1.out[k].frame == frame
  {
    var (st', freq) := NextFrequency(conf, st);
    match freq
    case Err(e) => Failed(st', e)
    case Ok(f) => (st', Outcome(Acknowledged(ok), [MeshFrame(frame, f)]))
  }

  function SealAndTransmit(conf: Config, st: NodeState, p: Packet, ok: bool): (r: (NodeState, Outcome<()>))
    ensures r.0 == st.(channel := r.0.channel)
    ensures |r.1.out| <= 1
    ensures forall k :: 0 <= k < |r.1.out| ==> r.1.out[k].MeshFrame? && Seal(KeysOf(conf), p) == Ok(r.1.out[k].frame)
  {
    match Seal(KeysOf(conf), p)
    case Err(e) => Failed(st, e)
    case Ok(frame) => Transmit(conf, st, frame, ok)
  }

  function EventPacket(conf: Config, now: SystemTime, items: seq<Item>): (p: Packet)
  {
    Packet(Mhdr(EventType, 1), Event(now, conf.relayId, items), None)
  }

  function SendEvents(conf: Config, st: NodeState, items: seq<Item>, env: Env): (r: (NodeState, Outcome<()>))
    ensures r.0 == st.(channel := r.0.channel)
  {
    SealAndTransmit(conf, st, EventPacket(conf, env.now, items), env.meshOk(0))
  }

  /** The commands that are set, in order, with their types cut to one byte. */
  function SetCommands(commands: seq<Option<(u32, bytes)>>): (items: seq<Item>)
    ensures |items| <= |commands|
    ensures forall i :: 0 <= i < |items| ==> items[i].Proprietary?
  {
    if commands == [] then [] else
    var last := commands[|commands| - 1];
    SetCommands(commands[..|commands| - 1]) +
    if last.Some? then [Proprietary(last.value.0 % 0x100, last.value.1)] else []
  }

  function CommandPacket(now: SystemTime, relayId: Bytes4, commands: seq<Option<(u32, bytes)>>): (p: Packet)
  {
    Packet(Mhdr(CommandType, 1), Command(now, relayId, SetCommands(commands)), None)
  }

  function SendCommand(conf: Config, st: NodeState, relayId: string, commands: seq<Option<(u32, bytes)>>, env: Env)
    : (r: (NodeState, Outcome<()>))
    ensures r.0 == st.(channel := r.0.channel)
  {
    match DecodeRelayId(relayId)
    case Err(e) => Failed(st, e)
    case Ok(id) => SealAndTransmit(conf, st, CommandPacket(env.now, id, commands), env.meshOk(0))
  }

  // ---------- Uplinks of end devices ----------

  function UplinkPacket(conf: Config, uplinkId: u16, up: UplinkFrame): (r: Result<Packet>)
  {
    if up.rxInfo.None? then Err(RxInfoMissing)
    else if up.txInfo.None? then Err(TxInfoMissing)
    else if up.txInfo.value.modulation.None? then Err(ModulationMissing)
    else
      var rx, tx := up.rxInfo.value, up.txInfo.value;
      var dr :- ModulationToDr(conf.dataRates, tx.modulation.value);
      var channel :- ByteIndexOf(conf.channels, tx.frequency);
      Ok(Packet(Mhdr(UplinkType, 1),
                Uplink(UplinkMetadata(uplinkId, dr, AsI16(rx.rssi), rx.snr, channel), conf.relayId, up.phyPayload),
                None))
  }

  /** The context is stored, and the id used up, before the packet is known to be sendable. */
  function RelayUplink(conf: Config, st: NodeState, up: UplinkFrame, env: Env): (r: (NodeState, Outcome<()>))
  {
    if up.rxInfo.None? then Failed(st, RxInfoMissing)
    else if up.txInfo.None? then Failed(st, TxInfoMissing)
    else if up.txInfo.value.modulation.None? then Failed(st, ModulationMissing)
    else
      var st' := StoreContext(st, up.rxInfo.value.context);
      match UplinkPacket(conf, st'.uplinkId, up)
      case Err(e) => Failed(st', e)
      case Ok(p) => SealAndTransmit(conf, st', p, env.meshOk(0))
  }

  function ProxyDirectUplink(conf: Config, up: UplinkFrame, env: Env): (o: Outcome<()>)
  {
    match Logged(conf, FormatUplink(up))
    case Err(e) => Outcome(Err(e), [])
    case Ok(_) => Outcome(Acknowledged(env.proxyOk), [ProxiedUplink(up)])
  }

  function HandleUplink(conf: Config, st: NodeState, up: UplinkFrame, env: Env): (r: (NodeState, Outcome<()>))
  {
    if conf.borderGateway then (st, ProxyDirectUplink(conf, up, env)) else RelayUplink(conf, st, up, env)
  }

  // ---------- Frames heard on the mesh ----------

  /** The nine bytes by which the network server's answer finds the way back. */
  function BorderContext(relayId: Bytes4, uplinkId: u16): (b: bytes)
    ensures |b| == 9
  {
    [1, 2, 3] + relayId + U16Bytes(uplinkId)
  }

  function ProxyUplink(conf: Config, rx: UplinkFrame, p: Packet, env: Env): (o: Outcome<()>)
    requires p.payload.Uplink?
  {
    var up := p.payload.up;
    var rxInfo := if rx.rxInfo.None? then None else
                  Some(RxInfo(up.rssi, up.snr, BorderContext(p.payload.relayId, up.uplinkId),
                              Some((p.mhdr.hopCount, p.payload.relayId))));
    if rx.txInfo.None? then
      Outcome(Acknowledged(env.proxyOk), [ProxiedUplink(UplinkFrame(p.payload.phyPayload, rxInfo, None))])
    else
      match Lookup(conf.channels, up.channel)
      case Err(e) => Outcome(Err(e), [])
      case Ok(frequency) =>
        match DrToModulation(conf.dataRates, up.dr, false)
        case Err(e) => Outcome(Err(e), [])
        case Ok(modulation) =>
          var tx := UplinkTxInfo(frequency, Some(modulation));
          Outcome(Acknowledged(env.proxyOk), [ProxiedUplink(UplinkFrame(p.payload.phyPayload, rxInfo, Some(tx)))])
  }

  /** The device frame of a downlink that is addressed to this gateway. */
  function UnwrapDownlink(conf: Config, st: NodeState, p: Packet): (r: Result<DownlinkItem>)
    requires p.payload.Downlink?
  {
    var down := p.payload.down;
    var power :- Lookup(conf.txPowers, down.txPower);
    var modulation :- DrToModulation(conf.dataRates, down.dr, true);
    var context :- ContextOf(st, down.uplinkId);
    Ok(DownlinkItem(
         p.payload.phyPayload,
         Some(DownlinkTxInfo(
                down.frequency, power, Some(modulation), Some(DelayTiming(Some(Duration(down.delay, 0)))), context))))
  }

  function DeliverDownlink(conf: Config, st: NodeState, p: Packet, env: Env): (o: Outcome<()>)
    requires p.payload.Downlink?
  {
    match UnwrapDownlink(conf, st, p)
    case Err(e) => Outcome(Err(e), [])
    case Ok(item) => Outcome(AcksToResult(env.deviceAcks), [DeviceDownlink(item)])
  }

  /** The events of the commands that ran, in order. */
  function Responses(items: seq<Item>, env: Env): (events: seq<Item>)
    requires AllWellFormed(true, items)
    ensures |events| <= |items|
  {
    if items == [] then [] else
    var n := |items| - 1;
    assert WellFormed(true, items[n]);
    var printed := env.run(n, items[n].tag, items[n].value);
    Responses(items[..n], env) + if printed.None? then [] else [Proprietary(items[n].tag, printed.value)]
  }

  function Runs(items: seq<Item>): (out: seq<Output>)
    requires AllWellFormed(true, items)
    ensures |out| == |items|
    ensures forall i :: 0 <= i < |out| ==> out[i].RunCommand?
  {
    seq(|items|, i requires 0 <= i < |items| =>
      assert WellFormed(true, items[i]); RunCommand(items[i].tag, items[i].value))
  }

  predicate CommandIsNew(st: NodeState, t: SystemTime) {
    st.lastCommand.None? || st.lastCommand.value < t
  }

  function ExecuteCommands(conf: Config, st: NodeState, pl: Payload, env: Env): (r: (NodeState, Outcome<()>))
    requires pl.Command? && AllWellFormed(true, pl.items)
  {
    if !CommandIsNew(st, pl.timestamp) then Failed(st, TimestampNotIncremented) else
    var st' := st.(lastCommand := Some(pl.timestamp));
    var events := Responses(pl.items, env);
    if events == [] then
      (st', Outcome(Ok(()), Runs(pl.items)))
    else
      var (st'', sent) := SendEvents(conf, st', events, env);
      (st'', Outcome(sent.result, Runs(pl.items) + sent.out))
  }

  function ForwardPacket(conf: Config, st: NodeState, rx: RxInfo, p: Packet, env: Env): (r: (NodeState, Outcome<()>))
    requires p.mhdr.hopCount < 0xff
    ensures r.0 == st.(channel := r.0.channel)
    ensures |r.1.out| <= 1
    ensures forall k :: 0 <= k < |r.1.out| ==> r.1.out[k].MeshFrame?
  {
    match Forward(KeysOf(conf), Relay(Hop(conf.relayId, AsI16(rx.rssi), rx.snr), conf.maxHopCount), p)
    case Err(e) => Failed(st, e)
    case Ok(frame) => Transmit(conf, st, frame, env.meshOk(0))
  }

  function RelayPacket(conf: Config, st: NodeState, rx: UplinkFrame, p: Packet, env: Env): (r: (NodeState, Outcome<()>))
    requires OpenForm(p)
  {
    if rx.rxInfo.None? then Failed(st, RxInfoMissing)
    else if p.payload.relayId != conf.relayId then ForwardPacket(conf, st, rx.rxInfo.value, p, env)
    else match p.payload
      case Uplink(_, _, _) => (st, Outcome(Ok(()), []))
      case Downlink(_, _, _) => (st, DeliverDownlink(conf, st, p, env))
      case Event(_, _, _) => (st, Outcome(Ok(()), []))
      case Command(_, _, _) => ExecuteCommands(conf, st, p.payload, env)
  }

  function BorderPacket(conf: Config, rx: UplinkFrame, p: Packet, env: Env): (o: Outcome<()>)
  {
    match p.payload
    case Uplink(_, _, _) => ProxyUplink(conf, rx, p, env)
    case Event(t, relayId, items) => Outcome(Acknowledged(env.proxyOk), [ProxiedEvents(relayId, t, items)])
    case _ => Outcome(Ok(()), [])
  }

  /** Parse, check the integrity code, look the packet up in the cache, decrypt, dispatch. */
  function HandleMesh(conf: Config, st: NodeState, rx: UplinkFrame, env: Env): (r: (NodeState, Outcome<()>))
  {
    var m := KeysOf(conf);
    match Parse(rx.phyPayload)
    case Err(e) => Failed(st, e)
    case Ok(p) =>
      match ValidateMic(m.crypto, m.signing, p)
      case Err(e) => Failed(st, e)
      case Ok(valid) =>
        if !valid then (st, Outcome(Ok(()), [])) else
        var (seen, added) := AddSpec(CACHE_SIZE, st.seen, KeyOf(p));
        if !added then (st, Outcome(Ok(()), [])) else
        var st' := st.(seen := seen);
        match Decrypt(m.crypto, m.encryption, p)
        case Err(e) => Failed(st', e)
        case Ok(q) =>
          OpenedForm(m, rx.phyPayload);
          if conf.borderGateway then (st', BorderPacket(conf, rx, q, env)) else RelayPacket(conf, st', rx, q, env)
  }

  // ---------- Downlinks of the network server ----------

  /** Whole seconds, of which the low byte is kept; 0 when no delay is given. */
  function WireDelay(delay: Option<Duration>): (seconds: byte)
  {
    if delay.None? then 0 else delay.value.seconds % 0x100
  }

  /** The mesh packet of one downlink item. */
  function DownlinkPacket(conf: Config, item: DownlinkItem): (r: Result<Packet>)
  {
    if item.txInfo.None? then Err(TxInfoMissing)
    else if item.txInfo.value.modulation.None? then Err(ModulationMissing)
    else if item.txInfo.value.timing.None? then Err(TimingMissing)
    else if item.txInfo.value.timing.value.OtherTiming? then Err(OnlyDelayTiming)
    else if |item.txInfo.value.context| < 9 then Err(ContextTooShort)
    else
      var tx := item.txInfo.value;
      var dr :- ModulationToDr(conf.dataRates, tx.modulation.value);
      var power :- PowerToIndex(conf.txPowers, tx.power);
      Ok(Packet(Mhdr(DownlinkType, 1),
                Downlink(DownlinkMetadata(U16(tx.context[7..9]), dr, tx.frequency, power,
                                          WireDelay(tx.timing.value.delay)),
                         tx.context[3..7], item.phyPayload),
                None))
  }

  function DownlinkMeshFrame(conf: Config, item: DownlinkItem): (r: Result<bytes>)
  {
    var p :- DownlinkPacket(conf, item);
    Seal(KeysOf(conf), p)
  }

  /** One attempt, up to the transmission. */
  function PrepareDownlink(conf: Config, st: NodeState, item: DownlinkItem): (r: (NodeState, Result<Output>))
    ensures r.0 == st.(channel := r.0.channel)
  {
    match DownlinkMeshFrame(conf, item)
    case Err(e) => (st, Err(e))
    case Ok(frame) =>
      var (st', freq) := NextFrequency(conf, st);
      (st', if freq.Ok? then Ok(MeshFrame(frame, freq.value)) else Err(freq.error))
  }

  function Acks(n: nat, ack: Ack): (acks: seq<Ack>)
    ensures |acks| == n && forall i :: 0 <= i < n ==> acks[i] == ack
  {
    seq(n, _ => ack)
  }

  /** The attempts from item i on: the first acknowledged one ends the loop, an error before it ends the request. */
  function Attempts(conf: Config, st: NodeState, items: seq<DownlinkItem>, env: Env, i: nat)
    : (r: (NodeState, Outcome<seq<Ack>>))
    requires i <= |items|
    decreases |items| - i
  {
    if i == |items| then (st, Outcome(Ok([]), [])) else
    var (st', sent) := PrepareDownlink(conf, st, items[i]);
    if sent.Err? then Failed(st', sent.error)
    else if env.meshOk(i) then (st', Outcome(Ok([AckOk] + Acks(|items| - i - 1, Ignored)), [sent.value]))
    else
      var (st'', rest) := Attempts(conf, st', items, env, i + 1);
      (st'', AfterFailure(sent.value, rest))
  }

  function AfterFailure(sent: Output, rest: Outcome<seq<Ack>>): (o: Outcome<seq<Ack>>)
  {
    Outcome(if rest.result.Ok? then Ok([InternalError] + rest.result.value) else rest.result, [sent] + rest.out)
  }

  predicate ForMesh(context: bytes) {
    |context| == 9 && context[..3] == [1, 2, 3]
  }

  function ProxyDirectDownlink(conf: Config, items: seq<DownlinkItem>, env: Env): (o: Outcome<seq<Ack>>)
  {
    match Logged(conf, FormatDownlink(items))
    case Err(e) => Outcome(Err(e), [])
    case Ok(_) => Outcome(env.deviceAcks, [ProxiedDownlink(items)])
  }

  /** Only the context of the first item decides whether a downlink is for the mesh. */
  function HandleDownlink(conf: Config, st: NodeState, items: seq<DownlinkItem>, env: Env)
    : (r: (NodeState, Outcome<seq<Ack>>))
  {
    if items != [] && items[0].txInfo.None? then Failed(st, TxInfoMissing)
    else if items != [] && !ForMesh(items[0].txInfo.value.context) then
      (st, ProxyDirectDownlink(conf, items, env))
    else Attempts(conf, st, items, env, 0)
  }
}
