/**
  What each handler does for each kind of frame, field by field, and which gateways do what at all.
 */
module Handlers {
  import opened Wrappers
  import opened Bytes
  import opened Tlv
  import opened Packets
  import opened PayloadCache
  import opened Relaying
  import opened Helpers
  import opened Cache
  import opened Gateway
  import opened NodeRuns
  import opened Network
  import opened EndToEnd
  import opened CommandRuns
  import opened MeshEvents

  predicate OnlyMesh(out: seq<Output>) {
    forall i :: 0 <= i < |out| ==> out[i].MeshFrame?
  }

  // ---------- Frames of end devices and of the network server ----------

  predicate Complete(up: UplinkFrame) {
    up.rxInfo.Some? && up.txInfo.Some? && up.txInfo.value.modulation.Some?
  }

  /**
    A border gateway hands an uplink that it hears itself to the network server as it is; only one that is
    to be logged and is not complete is lost. A relay sends at most one mesh frame for it.
   */
  lemma DirectUplinks(conf: Config, st: NodeState, up: UplinkFrame, env: Env)
    ensures var (st', o) := Gateway.HandleUplink(conf, st, up, env);
            if !conf.borderGateway then
              && OnlyMesh(o.out) && |o.out| <= 1 && (o.result.Ok? <==> o.out != [] && env.meshOk(0))
              && st'.seen == st.seen && st'.lastCommand == st.lastCommand
            else
              && st' == st
              && if conf.infoLogged && !Complete(up) then o.out == [] && o.result.Err?
                 else o.out == [ProxiedUplink(up)] && (o.result.Ok? <==> env.proxyOk)
  {
    hide Seal, UplinkPacket;
  }

  /** A context that a border gateway gave to an uplink from the mesh. */
  predicate IsMeshContext(context: bytes) {
    |context| == 9 && context[0] == 1 && context[1] == 2 && context[2] == 3
  }

  lemma ForMeshExactly(context: bytes)
    ensures ForMesh(context) <==> IsMeshContext(context)
  {
    if |context| == 9 {
      assert context[..3] == [context[0], context[1], context[2]];
    }
  }

  /**
    A downlink whose first item has another context is transmitted as it is, with the answer of the
    concentrator; only one that is to be logged and is not complete is lost. One whose first item has a mesh
    context goes into the mesh, item by item, until one is acknowledged.
   */
  lemma DirectDownlinks(conf: Config, st: NodeState, items: seq<DownlinkItem>, env: Env)
    ensures var (st', o) := Gateway.HandleDownlink(conf, st, items, env);
            if items == [] then st' == st && o == Outcome(Ok([]), [])
            else if items[0].txInfo.None? then st' == st && o == Outcome(Err(TxInfoMissing), [])
            else if IsMeshContext(items[0].txInfo.value.context) then
              && OnlyMesh(o.out) && |o.out| <= |items| && st' == st.(channel := st'.channel)
              && (forall k :: 0 <= k < |o.out| ==> DownlinkMeshFrame(conf, items[k]) == Ok(o.out[k].frame))
              && forall k :: 0 <= k < |o.out| - 1 ==> !env.meshOk(k)
            else
              && st' == st
              && if conf.infoLogged && exists i :: 0 <= i < |items| && !Formattable(items[i])
                 then o.out == [] && o.result.Err?
                 else o == Outcome(env.deviceAcks, [ProxiedDownlink(items)])
  {
    hide Attempts, DownlinkMeshFrame, Formattable;
    if items != [] && items[0].txInfo.Some? {
      ForMeshExactly(items[0].txInfo.value.context);
    }
    AttemptsInOrder(conf, st, items, env, 0);
    AttemptsAcknowledged(conf, st, items, env, 0);
    NoAttempts(conf, st, env);
  }

  lemma NoAttempts(conf: Config, st: NodeState, env: Env)
    ensures Attempts(conf, st, [], env, 0) == (st, Outcome(Ok([]), []))
  {
  }

  /** The k-th frame sent is that of the k-th item. */
  lemma {:induction false} AttemptsInOrder(
    conf: Config, st: NodeState, items: seq<DownlinkItem>, env: Env, i: nat)
    requires i <= |items|
    ensures var (st', o) := Attempts(conf, st, items, env, i);
            && OnlyMesh(o.out) && |o.out| <= |items| - i && st' == st.(channel := st'.channel)
            && forall k :: 0 <= k < |o.out| ==> DownlinkMeshFrame(conf, items[i + k]) == Ok(o.out[k].frame)
    decreases |items| - i
  {
    hide DownlinkMeshFrame;
    if i < |items| {
      var (st', sent) := PrepareDownlink(conf, st, items[i]);
      if sent.Ok? && !env.meshOk(i) {
        AttemptsInOrder(conf, st', items, env, i + 1);
        var rest := Attempts(conf, st', items, env, i + 1).1.out;
        var out := Attempts(conf, st, items, env, i).1.out;
        assert out == [sent.value] + rest;
        forall k | 0 <= k < |out| ensures DownlinkMeshFrame(conf, items[i + k]) == Ok(out[k].frame) {
          assert k > 0 ==> out[k] == rest[k - 1] && items[i + k] == items[(i + 1) + (k - 1)];
        }
      }
    }
  }

  // ---------- Frames of the mesh ----------

  /** A modulation with the parameters of this entry of the table. */
  predicate IsOfRate(m: Modulation, d: DataRate, ipol: bool) {
    match d.kind
    case LORA =>
      && m.Lora? && m.bandwidth == d.bandwidth && m.spreadingFactor == d.spreadingFactor
      && m.codeRate == d.codeRate && m.polarizationInversion == ipol
    case FSK => m.Fsk? && m.datarate == d.bitrate && m.frequencyDeviation == d.bitrate / 2
  }

  /** What the network server gets for an uplink from the mesh. */
  predicate IsProxied(conf: Config, rx: UplinkFrame, p: Packet, up: UplinkFrame)
    requires p.payload.Uplink?
  {
    var meta := p.payload.up;
    && up.phyPayload == p.payload.phyPayload
    && (up.rxInfo.Some? <==> rx.rxInfo.Some?)
    && (up.rxInfo.Some? ==>
          && up.rxInfo.value.rssi == meta.rssi && up.rxInfo.value.snr == meta.snr
          && up.rxInfo.value.context ==
             [1, 2, 3] + p.payload.relayId + [meta.uplinkId / 0x100, meta.uplinkId % 0x100]
          && up.rxInfo.value.relayedBy == Some((p.mhdr.hopCount, p.payload.relayId)))
    && (up.txInfo.Some? <==> rx.txInfo.Some?)
    && (up.txInfo.Some? ==>
          && meta.channel < |conf.channels| && up.txInfo.value.frequency == conf.channels[meta.channel]
          && meta.dr < |conf.dataRates| && up.txInfo.value.modulation.Some?
          && IsOfRate(up.txInfo.value.modulation.value, conf.dataRates[meta.dr], false))
  }

  /**
    What a border gateway makes of any uplink from the mesh, field by field: it is handed on once, if the
    tables have its channel and its data rate.
   */
  lemma UplinkHandedOn(conf: Config, st: NodeState, rx: UplinkFrame, env: Env)
    requires conf.borderGateway && Open(KeysOf(conf), rx.phyPayload).Ok?
    requires Open(KeysOf(conf), rx.phyPayload).value.payload.Uplink?
    ensures var p := Open(KeysOf(conf), rx.phyPayload).value;
            var (meta, o) := (p.payload.up, Gateway.HandleMesh(conf, st, rx, env).1);
            if UplinkKey(p.payload.relayId, meta.uplinkId) in st.seen then o == Outcome(Ok(()), [])
            else if rx.txInfo.Some? && (meta.channel >= |conf.channels| || meta.dr >= |conf.dataRates|) then
              o.out == [] && o.result.Err?
            else
              && |o.out| == 1 && o.out[0].ProxiedUplink? && IsProxied(conf, rx, p, o.out[0].uplink)
              && (o.result.Ok? <==> env.proxyOk)
  {
    hide Gateway.HandleMesh, Open;
    HandleMeshExactly(conf, st, rx, env);
    OpenedForm(KeysOf(conf), rx.phyPayload);
    if !Fresh(conf, st, rx.phyPayload) {
      SeenIsQuiet(conf, st, rx, env);
    }
    hide Fresh;
    UplinkProxiedAs(conf, rx, Open(KeysOf(conf), rx.phyPayload).value, env);
  }

  lemma UplinkProxiedAs(conf: Config, rx: UplinkFrame, p: Packet, env: Env)
    requires p.payload.Uplink?
    ensures var (meta, o) := (p.payload.up, ProxyUplink(conf, rx, p, env));
            if rx.txInfo.Some? && (meta.channel >= |conf.channels| || meta.dr >= |conf.dataRates|) then
              o.out == [] && o.result.Err?
            else
              && |o.out| == 1 && o.out[0].ProxiedUplink? && IsProxied(conf, rx, p, o.out[0].uplink)
              && (o.result.Ok? <==> env.proxyOk)
  {
    RateGivesModulation(conf.dataRates, p.payload.up.dr, false);
    hide DrToModulation;
  }

  lemma SeenIsQuiet(conf: Config, st: NodeState, rx: UplinkFrame, env: Env)
    requires Open(KeysOf(conf), rx.phyPayload).Ok? && KeyOf(Open(KeysOf(conf), rx.phyPayload).value) in st.seen
    ensures Gateway.HandleMesh(conf, st, rx, env) == (st, Outcome(Ok(()), []))
  {
    var m := KeysOf(conf);
    ParsedDecrypts(m.crypto, m.encryption, rx.phyPayload);
    DecryptKeepsKey(m, Parse(rx.phyPayload).value);
  }

  /** What a relay transmits to its device for a downlink from the mesh. */
  predicate IsDelivered(conf: Config, st: NodeState, p: Packet, item: DownlinkItem)
    requires p.payload.Downlink?
  {
    var meta := p.payload.down;
    && item.phyPayload == p.payload.phyPayload && item.txInfo.Some?
    && var tx := item.txInfo.value;
       && tx.frequency == meta.frequency && tx.timing == Some(DelayTiming(Some(Duration(meta.delay, 0))))
       && meta.txPower < |conf.txPowers| && tx.power == conf.txPowers[meta.txPower]
       && meta.dr < |conf.dataRates| && tx.modulation.Some?
       && IsOfRate(tx.modulation.value, conf.dataRates[meta.dr], true)
       && meta.uplinkId in st.contexts && tx.context == st.contexts[meta.uplinkId]
  }

  /**
    What a relay makes of any downlink that is addressed to it, field by field: it is transmitted once, if
    the tables have its power and its data rate and the context of the uplink is known.
   */
  lemma DownlinkTransmitted(conf: Config, st: NodeState, rx: UplinkFrame, env: Env)
    requires !conf.borderGateway && rx.rxInfo.Some? && Open(KeysOf(conf), rx.phyPayload).Ok?
    requires var pl := Open(KeysOf(conf), rx.phyPayload).value.payload;
             pl.Downlink? && pl.relayId == conf.relayId
    ensures var p := Open(KeysOf(conf), rx.phyPayload).value;
            var (meta, o) := (p.payload.down, Gateway.HandleMesh(conf, st, rx, env).1);
            if DownlinkKey(p.payload.relayId, meta.uplinkId) in st.seen then o == Outcome(Ok(()), [])
            else if meta.txPower >= |conf.txPowers| || meta.dr >= |conf.dataRates| || meta.uplinkId !in st.contexts then
              o.out == [] && o.result.Err?
            else
              && |o.out| == 1 && o.out[0].DeviceDownlink? && IsDelivered(conf, st, p, o.out[0].item)
              && (o.result.Ok? <==> env.deviceAcks.Ok? && AckOk in env.deviceAcks.value)
  {
    hide Gateway.HandleMesh, Open;
    HandleMeshExactly(conf, st, rx, env);
    OpenedForm(KeysOf(conf), rx.phyPayload);
    if !Fresh(conf, st, rx.phyPayload) {
      SeenIsQuiet(conf, st, rx, env);
    }
    hide Fresh;
    var p := Open(KeysOf(conf), rx.phyPayload).value;
    DownlinkDeliveredAs(conf, st, p, env);
    var mid := st.(seen := AddSpec(CACHE_SIZE, st.seen, KeyOf(p)).0);
    assert DeliverDownlink(conf, mid, p, env) == DeliverDownlink(conf, st, p, env);
  }

  lemma DownlinkDeliveredAs(conf: Config, st: NodeState, p: Packet, env: Env)
    requires p.payload.Downlink?
    ensures var (meta, o) := (p.payload.down, DeliverDownlink(conf, st, p, env));
            if meta.txPower >= |conf.txPowers| || meta.dr >= |conf.dataRates| || meta.uplinkId !in st.contexts then
              o.out == [] && o.result.Err?
            else
              && |o.out| == 1 && o.out[0].DeviceDownlink? && IsDelivered(conf, st, p, o.out[0].item)
              && (o.result.Ok? <==> env.deviceAcks.Ok? && AckOk in env.deviceAcks.value)
  {
    RateGivesModulation(conf.dataRates, p.payload.down.dr, true);
    hide DrToModulation;
  }

  /** Downlinks and commands end at a border gateway. At a relay, its own uplinks and events do. */
  lemma EndsHere(conf: Config, st: NodeState, rx: UplinkFrame, env: Env)
    requires Open(KeysOf(conf), rx.phyPayload).Ok?
    requires var pl := Open(KeysOf(conf), rx.phyPayload).value.payload;
             if conf.borderGateway then pl.Downlink? || pl.Command?
             else (pl.Uplink? || pl.Event?) && pl.relayId == conf.relayId && rx.rxInfo.Some?
    ensures Gateway.HandleMesh(conf, st, rx, env).1 == Outcome(Ok(()), [])
  {
    HandleMeshExactly(conf, st, rx, env);
    if !Fresh(conf, st, rx.phyPayload) {
      SeenIsQuiet(conf, st, rx, env);
    }
    hide Gateway.HandleMesh, Open, Fresh;
  }

  /**
    A relay that hears a packet of another relay as new either passes it on and reports whether that was
    acknowledged, or fails; a reception without radio information fails.
   */
  lemma ForeignPackets(conf: Config, st: NodeState, rx: UplinkFrame, env: Env)
    requires !conf.borderGateway && Fresh(conf, st, rx.phyPayload)
    ensures var (p, o) := (Open(KeysOf(conf), rx.phyPayload).value, Gateway.HandleMesh(conf, st, rx, env).1);
            && (rx.rxInfo.None? ==> o == Outcome(Err(RxInfoMissing), []))
            && (rx.rxInfo.Some? && p.payload.relayId != conf.relayId ==>
                  OnlyMesh(o.out) && |o.out| <= 1 && (o.result.Ok? <==> o.out != [] && env.meshOk(0)))
  {
    HandleMeshExactly(conf, st, rx, env);
    hide Gateway.HandleMesh, Open, Fresh, Forward;
  }

  // ---------- Roles ----------

  /** Only border gateways hand uplinks and events to the server; only relays run commands and deliver downlinks. */
  predicate InRole(conf: Config, o: Output) {
    match o
    case MeshFrame(_, _) => true
    case ProxiedDownlink(_) => true
    case ProxiedUplink(_) => conf.borderGateway
    case ProxiedEvents(_, _, _) => conf.borderGateway
    case DeviceDownlink(_) => !conf.borderGateway
    case RunCommand(_, _) => !conf.borderGateway
  }

  predicate AllInRole(conf: Config, out: seq<Output>) {
    forall i :: 0 <= i < |out| ==> InRole(conf, out[i])
  }

  lemma DispatchInRole(conf: Config, st: NodeState, rx: UplinkFrame, p: Packet, env: Env)
    requires OpenForm(p)
    ensures AllInRole(conf, Dispatch(conf, st, rx, p, env).1.out)
  {
    hide ForwardPacket, SealAndTransmit, Responses, DrToModulation;
  }

  lemma StepInRole(conf: Config, st: NodeState, s: NodeRuns.Step)
    ensures AllInRole(conf, Apply(conf, st, s).1)
  {
    hide Gateway.HandleMesh, Gateway.HandleUplink, Gateway.HandleDownlink, SealAndTransmit, Dispatch;
    match s.op {
      case Hear(rx) =>
        HandleMeshExactly(conf, st, rx, s.env);
        if Fresh(conf, st, rx.phyPayload) {
          var p := Open(KeysOf(conf), rx.phyPayload).value;
          DispatchInRole(conf, st.(seen := AddSpec(CACHE_SIZE, st.seen, KeyOf(p)).0), rx, p, s.env);
        }
      case DeviceUplink(up) => DirectUplinks(conf, st, up, s.env);
      case ServerDownlink(items) => DirectDownlinks(conf, st, items, s.env);
      case _ =>
    }
  }

  /** So it is over any run. */
  lemma {:induction false} EveryoneInRole(conf: Config, steps: seq<NodeRuns.Step>)
    ensures AllInRole(conf, Run(conf, steps).1)
  {
    hide Apply, InRole;
    if steps != [] {
      var init := steps[..|steps| - 1];
      EveryoneInRole(conf, init);
      StepInRole(conf, Run(conf, init).0, steps[|steps| - 1]);
    }
  }

  // ---------- Responses ----------

  /**
    When a command payload is due, the relay runs its commands and sends one event packet with exactly what
    they printed, if they printed anything: exactly as it is if and only if all of it fits.
   */
  lemma ResponsesAreSent(conf: Config, steps: seq<NodeRuns.Step>, rx: UplinkFrame, env: Env)
    returns (events: seq<Item>, at: seq<nat>)
    requires IsOrder(conf, Run(conf, steps).0, NodeRuns.Step(Hear(rx), env))
    ensures Open(KeysOf(conf), rx.phyPayload).Ok? && Open(KeysOf(conf), rx.phyPayload).value.payload.Command?
    ensures AreResponses(Open(KeysOf(conf), rx.phyPayload).value.payload.items, env, events, at)
    ensures var (m, pl) := (KeysOf(conf), Open(KeysOf(conf), rx.phyPayload).value.payload);
            var o := Gateway.HandleMesh(conf, Run(conf, steps).0, rx, env).1;
            Later(pl, Due(conf, steps)) ==>
              && |pl.items| <= |o.out| <= |pl.items| + 1 && RunsItems(o.out[..|pl.items|], pl.items)
              && (|o.out| == |pl.items| + 1 <==> events != [] && env.now >= 0 && conf.frequencies != [])
              && (o.result.Ok? <==> events == [] || (|o.out| > |pl.items| && env.meshOk(0)))
              && (|o.out| > |pl.items| ==>
                    var sent := o.out[|pl.items|];
                    && sent.MeshFrame? && Open(m, sent.frame).Ok? && env.now >= 0
                    && CarriesEvents(conf, Open(m, sent.frame).value, env.now, events))
  {
    var st, pl := Run(conf, steps).0, Open(KeysOf(conf), rx.phyPayload).value.payload;
    hide Run, Due, Later, Open, Gateway.HandleMesh, RunsItems, KeyOf, ExecuteCommands, AreResponses, CommandIsNew;
    OrderIsCommand(conf, st, NodeRuns.Step(Hear(rx), env));
    OrderExecutedExactly(conf, steps, rx, env);
    events := Responses(pl.items, env);
    at := ResponsesExactly(pl.items, env);
    HandleMeshExactly(conf, st, rx, env);
    GateOfOrder(conf, steps, rx, env);
    if Later(pl, Due(conf, steps)) {
      ResponsesOfPayload(conf, Noted(conf, st, rx.phyPayload), pl, env);
    }
  }

  /** An event packet of this gateway and this second, with these events exactly if they fit. */
  predicate CarriesEvents(conf: Config, p: Packet, now: int, events: seq<Item>) {
    && p.mhdr.hopCount == 1 && p.payload.Event? && p.payload.relayId == conf.relayId
    && p.payload.timestamp == now / 1_000_000_000 % 0x1_0000_0000 * 1_000_000_000
    && (p.payload.items == events <==> AllWellFormed(false, events))
  }

  lemma ResponsesOfPayload(conf: Config, st: NodeState, pl: Payload, env: Env)
    requires pl.Command? && AllWellFormed(true, pl.items)
    requires CommandIsNew(st, pl.timestamp)
    ensures var (o, events) := (ExecuteCommands(conf, st, pl, env).1, Responses(pl.items, env));
            && |pl.items| <= |o.out| <= |pl.items| + 1
            && (|o.out| == |pl.items| + 1 <==> events != [] && env.now >= 0 && conf.frequencies != [])
            && (o.result.Ok? <==> events == [] || (|o.out| > |pl.items| && env.meshOk(0)))
            && (|o.out| > |pl.items| ==>
                  var sent := o.out[|pl.items|];
                  && sent.MeshFrame? && Open(KeysOf(conf), sent.frame).Ok? && env.now >= 0
                  && CarriesEvents(conf, Open(KeysOf(conf), sent.frame).value, env.now, events))
  {
    hide CommandIsNew, Responses, EventPacket, SealAndTransmit, Seal, Open, AllWellFormed;
    var st' := st.(lastCommand := Some(pl.timestamp));
    var events := Responses(pl.items, env);
    EventsAreSent(conf, st', events, env);
    ResponsesSeal(KeysOf(conf), conf, pl.items, env);
    SentExactly(conf, st', EventPacket(conf, env.now, events), env.meshOk(0));
  }
}
