/**
  A mesh of gateways and the frames between them. Any gateway may hear any frame or miss it, in
  any order; frames on the air are receptions still to come. The origins of frames and the logs of
  what was handed out, sent first, accepted and passed on are history: no gateway reads them.
 */
module Network {
  import opened Wrappers
  import opened Bytes
  import opened Seqs
  import opened Tlv
  import opened Packets
  import opened PayloadCache
  import opened Relaying
  import opened Cache
  import opened Gateway
  import opened Hex
  import opened NodeRuns

  /** A frame that a gateway is about to hear, and the place among the originals of the one it goes back to. */
  datatype Reception = Reception(node: nat, frame: bytes, origin: nat)

  /** How a gateway heard a frame that it passed on: which original, over how many hops, and the report. */
  datatype Report = Report(origin: nat, hops: byte, rx: RxInfo)

  datatype Net = Net(
    states: seq<NodeState>, air: seq<Reception>, outputs: seq<seq<Output>>,
    originals: seq<bytes>, accepted: seq<seq<PayloadKey>>,
    relayed: seq<seq<PayloadKey>>, reports: seq<seq<Report>>)

  /** What the concentrator reports with a frame. */
  datatype Radio = Radio(rxInfo: Option<RxInfo>, txInfo: Option<UplinkTxInfo>)

  /** Who hears the k-th frame that a step sends. */
  type Hearers = (nat, nat) -> bool

  datatype NetStep =
    | Act(node: nat, step: NodeRuns.Step, hears: Hearers)
    | Receive(index: nat, radio: Radio, env: Env, hears: Hearers)
    | Lose(index: nat)

  /** One mesh: shared keys, and a relay id of its own for every gateway. */
  ghost predicate OneMesh(confs: seq<Config>, m: MeshKeys) {
    && (forall n :: 0 <= n < |confs| ==> KeysOf(confs[n]) == m)
    && (forall a, b :: 0 <= a < b < |confs| ==> confs[a].relayId != confs[b].relayId)
  }

  function Frames(out: seq<Output>): (frames: seq<bytes>)
    ensures |frames| <= |out|
  {
    if out == [] then [] else
    Frames(out[..|out| - 1]) + if out[|out| - 1].MeshFrame? then [out[|out| - 1].frame] else []
  }

  /** The receptions of one frame among the gateways below n. */
  function Heard(frame: bytes, k: nat, n: nat, hears: Hearers, origin: nat): (air: seq<Reception>)
    ensures |air| <= n
    ensures forall i :: 0 <= i < |air| ==> air[i].node < n && air[i].frame == frame && air[i].origin == origin
  {
    if n == 0 then [] else
    Heard(frame, k, n - 1, hears, origin) + if hears(k, n - 1) then [Reception(n - 1, frame, origin)] else []
  }

  /** The receptions of all the frames that a step sends; their origins are counted from `first`. */
  function Broadcast(frames: seq<bytes>, n: nat, hears: Hearers, first: nat): (air: seq<Reception>)
    ensures forall i :: 0 <= i < |air| ==>
                          && air[i].node < n && first <= air[i].origin < first + |frames|
                          && air[i].frame == frames[air[i].origin - first]
  {
    if frames == [] then [] else
    var k := |frames| - 1;
    Broadcast(frames[..k], n, hears, first) + Heard(frames[k], k, n, hears, first + k)
  }

  function Without<T>(s: seq<T>, i: nat): (r: seq<T>)
    requires i < |s|
  {
    s[..i] + s[i + 1..]
  }

  function RxFrame(frame: bytes, radio: Radio): (rx: UplinkFrame)
  {
    UplinkFrame(frame, radio.rxInfo, radio.txInfo)
  }

  /** The packet is passed on, if anything is sent: it is another gateway's. */
  predicate IsForeign(conf: Config, b: bytes) {
    Open(KeysOf(conf), b).Ok? && Open(KeysOf(conf), b).value.payload.relayId != conf.relayId
  }

  /** The origin of what a gateway sends after a reception: the same one when it passes the packet on, or a new one. */
  function OriginSent(conf: Config, s: Net, r: Reception): (origin: nat)
  {
    if IsForeign(conf, r.frame) then r.origin else |s.originals|
  }

  predicate ShapeOk(confs: seq<Config>, s: Net) {
    && |s.states| == |s.outputs| == |s.accepted| == |s.relayed| == |s.reports| == |confs|
    && forall i :: 0 <= i < |s.air| ==> s.air[i].node < |confs|
  }

  predicate Enabled(s: Net, step: NetStep) {
    match step
    case Act(n, st, _) => n < |s.states| && !st.op.Hear?
    case Receive(i, _, _, _) => i < |s.air|
    case Lose(i) => i < |s.air|
  }

  function AfterAct(confs: seq<Config>, s: Net, n: nat, st: NodeRuns.Step, hears: Hearers): (s': Net)
    requires ShapeOk(confs, s) && n < |confs|
    ensures ShapeOk(confs, s')
  {
    var (state, out) := Apply(confs[n], s.states[n], st);
    s.(states := s.states[n := state],
       air := s.air + Broadcast(Frames(out), |confs|, hears, |s.originals|),
       outputs := s.outputs[n := s.outputs[n] + out],
       originals := s.originals + Frames(out))
  }

  /** The key that a reception adds to the log of accepted packets, if it is new. */
  function NewKey(conf: Config, st: NodeState, b: bytes): (key: seq<PayloadKey>)
  {
    if Fresh(conf, st, b) then [KeyOf(Open(KeysOf(conf), b).value)] else []
  }

  function ReportOf(conf: Config, r: Reception, radio: Radio): (report: seq<Report>)
  {
    if IsForeign(conf, r.frame) && radio.rxInfo.Some?
    then [Report(r.origin, Open(KeysOf(conf), r.frame).value.mhdr.hopCount, radio.rxInfo.value)]
    else []
  }

  function AfterReceive(confs: seq<Config>, s: Net, i: nat, radio: Radio, env: Env, hears: Hearers): (s': Net)
    requires ShapeOk(confs, s) && i < |s.air|
    ensures ShapeOk(confs, s')
  {
    hide HandleMesh, Frames, NewKey, ReportOf, IsForeign, Broadcast;
    var Reception(n, b, _) := s.air[i];
    var conf := confs[n];
    var (state, o) := HandleMesh(conf, s.states[n], RxFrame(b, radio), env);
    var frames, key, report := Frames(o.out), NewKey(conf, s.states[n], b), ReportOf(conf, s.air[i], radio);
    var passed := IsForeign(conf, b) && frames != [];
    s.(states := s.states[n := state],
       air := Without(s.air, i) + Broadcast(frames, |confs|, hears, OriginSent(conf, s, s.air[i])),
       outputs := s.outputs[n := s.outputs[n] + o.out],
       originals := if IsForeign(conf, b) then s.originals else s.originals + frames,
       accepted := s.accepted[n := s.accepted[n] + key],
       relayed := if passed then s.relayed[n := s.relayed[n] + key] else s.relayed,
       reports := if passed then s.reports[n := s.reports[n] + report] else s.reports)
  }

  function Next(confs: seq<Config>, s: Net, step: NetStep): (s': Net)
    requires ShapeOk(confs, s) && Enabled(s, step)
    ensures ShapeOk(confs, s')
  {
    match step
    case Act(n, st, hears) => AfterAct(confs, s, n, st, hears)
    case Receive(i, radio, env, hears) => AfterReceive(confs, s, i, radio, env, hears)
    case Lose(i) => s.(air := Without(s.air, i))
  }

  function Start(confs: seq<Config>): (s: Net)
    ensures ShapeOk(confs, s)
  {
    Net(seq(|confs|, _ => INITIAL), [], seq(|confs|, _ => []), [],
        seq(|confs|, _ => []), seq(|confs|, _ => []), seq(|confs|, _ => []))
  }

  /** The nets that a run goes through; steps that are not enabled are skipped. */
  function RunNet(confs: seq<Config>, steps: seq<NetStep>): (s: Net)
    ensures ShapeOk(confs, s)
  {
    if steps == [] then Start(confs) else
    var before := RunNet(confs, steps[..|steps| - 1]);
    if Enabled(before, steps[|steps| - 1]) then Next(confs, before, steps[|steps| - 1]) else before
  }

  // ---------- What one reception sends ----------

  lemma {:induction false} FramesAppend(a: seq<Output>, b: seq<Output>)
    ensures Frames(a + b) == Frames(a) + Frames(b)
  {
    if b == [] {
      EmptyUnit(a);
      EmptyUnit(Frames(a));
    } else {
      var init, last := b[..|b| - 1], b[|b| - 1];
      assert (a + b)[..|a + b| - 1] == a + init;
      FramesAppend(a, init);
      Associative(Frames(a), Frames(init), if last.MeshFrame? then [last.frame] else []);
    }
  }

  lemma {:induction false} NoFrames(out: seq<Output>)
    requires forall i :: 0 <= i < |out| ==> !out[i].MeshFrame?
    ensures Frames(out) == []
  {
    if out != [] {
      NoFrames(out[..|out| - 1]);
    }
  }

  lemma OneFrame(out: seq<Output>)
    requires |out| <= 1
    ensures Frames(out) == if out != [] && out[0].MeshFrame? then [out[0].frame] else []
  {
    if out != [] {
      assert out[..0] == [];
      assert Frames([]) == [];
      EmptyUnit([out[0]]);
    }
  }

  /** How a gateway hears a frame, as a relay. */
  function AsRelay(conf: Config, rx: RxInfo): (r: Relay)
  {
    Relay(Hop(conf.relayId, AsI16(rx.rssi), rx.snr), conf.maxHopCount)
  }

  lemma FramesOfForward(conf: Config, st: NodeState, rx: RxInfo, p: Packet, env: Env)
    requires p.mhdr.hopCount < 0xff
    ensures var frames := Frames(ForwardPacket(conf, st, rx, p, env).1.out);
            |frames| <= 1 && (frames != [] ==> Forward(KeysOf(conf), AsRelay(conf, rx), p) == Ok(frames[0]))
  {
    OneFrame(ForwardPacket(conf, st, rx, p, env).1.out);
  }

  lemma FramesOfSend(conf: Config, st: NodeState, p: Packet, ok: bool)
    ensures var frames := Frames(SealAndTransmit(conf, st, p, ok).1.out);
            |frames| <= 1 && (frames != [] ==> Seal(KeysOf(conf), p) == Ok(frames[0]))
  {
    hide Seal, Transmit;
    OneFrame(SealAndTransmit(conf, st, p, ok).1.out);
  }

  lemma FramesOfCommand(conf: Config, st: NodeState, pl: Payload, env: Env)
    requires pl.Command? && AllWellFormed(true, pl.items)
    ensures var frames := Frames(ExecuteCommands(conf, st, pl, env).1.out);
            && |frames| <= 1
            && (frames != [] ==>
                  Seal(KeysOf(conf), EventPacket(conf, env.now, Responses(pl.items, env))) == Ok(frames[0]))
  {
    hide SealAndTransmit, Seal, Responses, Runs;
    var runs := Runs(pl.items);
    NoFrames(runs);
    var events := Responses(pl.items, env);
    var sent := SendEvents(conf, st.(lastCommand := Some(pl.timestamp)), events, env).1.out;
    FramesOfSend(conf, st.(lastCommand := Some(pl.timestamp)), EventPacket(conf, env.now, events), env.meshOk(0));
    FramesAppend(runs, sent);
    EmptyUnit(Frames(sent));
  }

  /**
    Hearing a frame makes a gateway send at most one: the frame passed on, when it is another
    gateway's; and otherwise the responses to a command, in a new event packet of its own.
   */
  lemma FramesOfReception(conf: Config, st: NodeState, rx: UplinkFrame, env: Env)
    ensures var m, frames := KeysOf(conf), Frames(HandleMesh(conf, st, rx, env).1.out);
            && |frames| <= 1
            && (frames != [] ==>
                  && Fresh(conf, st, rx.phyPayload) && !conf.borderGateway && rx.rxInfo.Some?
                  && if IsForeign(conf, rx.phyPayload)
                     then RelayFrame(m, AsRelay(conf, rx.rxInfo.value), rx.phyPayload) == Ok(frames[0])
                     else
                       && Open(m, rx.phyPayload).value.payload.Command?
                       && exists items :: Seal(m, EventPacket(conf, env.now, items)) == Ok(frames[0]))
  {
    HandleMeshExactly(conf, st, rx, env);
    hide HandleMesh;
    if Fresh(conf, st, rx.phyPayload) {
      var p := Open(KeysOf(conf), rx.phyPayload).value;
      FramesOfPacket(conf, st.(seen := AddSpec(CACHE_SIZE, st.seen, KeyOf(p)).0), rx, p, env);
    } else {
      NoFrames(HandleMesh(conf, st, rx, env).1.out);
    }
  }

  lemma FramesOfPacket(conf: Config, st: NodeState, rx: UplinkFrame, p: Packet, env: Env)
    requires OpenForm(p)
    ensures var m, frames := KeysOf(conf), Frames(Dispatch(conf, st, rx, p, env).1.out);
            && |frames| <= 1
            && (frames != [] ==>
                  && !conf.borderGateway && rx.rxInfo.Some?
                  && if p.payload.relayId != conf.relayId
                     then Forward(m, AsRelay(conf, rx.rxInfo.value), p) == Ok(frames[0])
                     else
                       && p.payload.Command?
                       && exists items :: Seal(m, EventPacket(conf, env.now, items)) == Ok(frames[0]))
  {
    hide ForwardPacket, ExecuteCommands, ProxyUplink, DeliverDownlink;
    if !conf.borderGateway && rx.rxInfo.Some? && p.payload.relayId != conf.relayId {
      FramesOfForward(conf, st, rx.rxInfo.value, p, env);
    } else if !conf.borderGateway && rx.rxInfo.Some? && p.payload.Command? {
      FramesOfCommand(conf, st, p.payload, env);
    } else {
      OthersSendNothing(conf, rx, p, st, env);
      NoFrames(Dispatch(conf, st, rx, p, env).1.out);
    }
  }

  lemma OthersSendNothing(conf: Config, rx: UplinkFrame, p: Packet, st: NodeState, env: Env)
    ensures p.payload.Uplink? ==> forall i :: 0 <= i < |ProxyUplink(conf, rx, p, env).out| ==>
                                                !ProxyUplink(conf, rx, p, env).out[i].MeshFrame?
    ensures p.payload.Downlink? ==> forall i :: 0 <= i < |DeliverDownlink(conf, st, p, env).out| ==>
                                                  !DeliverDownlink(conf, st, p, env).out[i].MeshFrame?
  {
  }

  /**
    The condition under which hearing a frame makes a gateway send: a relay with a frequency to send on,
    that hears it as new, and either can pass it on, below both hop limits and with a signal that
    heartbeats can record, or has responses to a new command of its own.
   */
  predicate SendsOnHearing(conf: Config, st: NodeState, rx: UplinkFrame, env: Env) {
    && Fresh(conf, st, rx.phyPayload) && !conf.borderGateway && rx.rxInfo.Some? && conf.frequencies != []
    && var p := Open(KeysOf(conf), rx.phyPayload).value;
       OpenedForm(KeysOf(conf), rx.phyPayload);
       if p.payload.relayId != conf.relayId then
         var hop := AsRelay(conf, rx.rxInfo.value).hop;
         && p.mhdr.hopCount < 8 && p.mhdr.hopCount < conf.maxHopCount
         && (HasHeartbeat(p.payload) ==> SignalInRange(hop.rssi, hop.snr))
       else
         && p.payload.Command? && CommandIsNew(st, p.payload.timestamp) && env.now >= 0
         && Responses(p.payload.items, env) != []
  }

  lemma ForwardSendsExactly(conf: Config, st: NodeState, rx: RxInfo, b: bytes, env: Env)
    requires Open(KeysOf(conf), b).Ok? && Open(KeysOf(conf), b).value.mhdr.hopCount < 0xff
    ensures var p, hop := Open(KeysOf(conf), b).value, AsRelay(conf, rx).hop;
            Frames(ForwardPacket(conf, st, rx, p, env).1.out) != [] <==>
            && conf.frequencies != [] && p.mhdr.hopCount < 8 && p.mhdr.hopCount < conf.maxHopCount
            && (HasHeartbeat(p.payload) ==> SignalInRange(hop.rssi, hop.snr))
  {
    hide Open, Forward;
    var p := Open(KeysOf(conf), b).value;
    OneFrame(ForwardPacket(conf, st, rx, p, env).1.out);
    RelaysExactly(KeysOf(conf), AsRelay(conf, rx), b);
  }

  lemma {:induction false} ResponsesEncode(items: seq<Item>, env: Env)
    requires AllWellFormed(true, items)
    ensures EncodeItems(Responses(items, env)).Ok?
    ensures forall i :: 0 <= i < |Responses(items, env)| ==> Responses(items, env)[i].Proprietary?
  {
    ItemsEncodeExactly(Responses(items, env));
    if items != [] {
      ResponsesEncode(items[..|items| - 1], env);
    }
  }

  lemma ResponsesSeal(m: MeshKeys, conf: Config, items: seq<Item>, env: Env)
    requires AllWellFormed(true, items)
    ensures Seal(m, EventPacket(conf, env.now, Responses(items, env))).Ok? <==> env.now >= 0
  {
    var p := EventPacket(conf, env.now, Responses(items, env));
    ResponsesEncode(items, env);
    hide Responses, EncodeItems, Seal;
    if env.now >= 0 {
      SealsExactly(m, p);
    } else {
      NoSealBeforeEpoch(m, p);
    }
  }

  lemma NoSealBeforeEpoch(m: MeshKeys, p: Packet)
    requires HasItems(p.payload) && p.payload.timestamp < 0
    ensures Seal(m, p).Err?
  {
    hide EncodeItems;
  }

  lemma CommandSendsExactly(conf: Config, st: NodeState, pl: Payload, env: Env)
    requires pl.Command? && AllWellFormed(true, pl.items)
    ensures Frames(ExecuteCommands(conf, st, pl, env).1.out) != [] <==>
            && conf.frequencies != [] && CommandIsNew(st, pl.timestamp) && env.now >= 0
            && Responses(pl.items, env) != []
  {
    hide Seal, Responses, Runs, EventPacket;
    var runs, events := Runs(pl.items), Responses(pl.items, env);
    NoFrames(runs);
    NoFrames([]);
    ResponsesSeal(KeysOf(conf), conf, pl.items, env);
    var st' := st.(lastCommand := Some(pl.timestamp));
    var sent := SendEvents(conf, st', events, env).1.out;
    OneFrame(sent);
    FramesAppend(runs, sent);
    EmptyUnit(Frames(sent));
  }

  /** Hearing a frame makes a gateway send exactly under this condition. */
  lemma SendsExactly(conf: Config, st: NodeState, rx: UplinkFrame, env: Env)
    ensures Frames(HandleMesh(conf, st, rx, env).1.out) != [] <==> SendsOnHearing(conf, st, rx, env)
  {
    HandleMeshExactly(conf, st, rx, env);
    hide HandleMesh, Open, Forward, ForwardPacket, ExecuteCommands, ProxyUplink, DeliverDownlink, Responses;
    if !Fresh(conf, st, rx.phyPayload) {
      NoFrames(HandleMesh(conf, st, rx, env).1.out);
    } else {
      var p := Open(KeysOf(conf), rx.phyPayload).value;
      var mid := st.(seen := AddSpec(CACHE_SIZE, st.seen, KeyOf(p)).0);
      if !conf.borderGateway && rx.rxInfo.Some? && p.payload.relayId != conf.relayId {
        ForwardSendsExactly(conf, mid, rx.rxInfo.value, rx.phyPayload, env);
      } else if !conf.borderGateway && rx.rxInfo.Some? && p.payload.Command? {
        CommandSendsExactly(conf, mid, p.payload, env);
      } else {
        OthersSendNothing(conf, rx, p, mid, env);
        NoFrames(HandleMesh(conf, st, rx, env).1.out);
      }
    }
  }

  // ---------- Originals ----------

  /** What a gateway sends of its own accord opens everywhere, at hop 1. */
  predicate FirstHop(m: MeshKeys, f: bytes) {
    Open(m, f).Ok? && Open(m, f).value.mhdr.hopCount == 1
  }

  lemma SealedIsFirstHop(m: MeshKeys, p: Packet)
    requires Seal(m, p).Ok? && p.mhdr == Mhdr(TypeOf(p.payload), 1)
    ensures FirstHop(m, Seal(m, p).value)
  {
    SealedHeader(m, p);
  }

  lemma SentIsFirstHop(conf: Config, st: NodeState, p: Packet, ok: bool)
    requires p.mhdr == Mhdr(TypeOf(p.payload), 1)
    ensures forall f <- Frames(SealAndTransmit(conf, st, p, ok).1.out) :: FirstHop(KeysOf(conf), f)
  {
    hide Transmit, Seal;
    OneFrame(SealAndTransmit(conf, st, p, ok).1.out);
    if Seal(KeysOf(conf), p).Ok? {
      SealedIsFirstHop(KeysOf(conf), p);
    }
  }

  lemma PreparedFrame(conf: Config, st: NodeState, item: DownlinkItem)
    ensures var sent := PrepareDownlink(conf, st, item).1;
            sent.Ok? ==> sent.value.MeshFrame? && DownlinkMeshFrame(conf, item) == Ok(sent.value.frame)
  {
    hide DownlinkMeshFrame;
  }

  lemma DownlinkIsFirstHop(conf: Config, item: DownlinkItem, f: bytes)
    requires DownlinkMeshFrame(conf, item) == Ok(f)
    ensures FirstHop(KeysOf(conf), f)
  {
    hide Seal, FirstHop;
    SealedIsFirstHop(KeysOf(conf), DownlinkPacket(conf, item).value);
  }

  lemma {:induction false} DownlinksAreFirstHop(conf: Config, st: NodeState, items: seq<DownlinkItem>, env: Env, i: nat)
    requires i <= |items|
    ensures forall f <- Frames(Attempts(conf, st, items, env, i).1.out) :: FirstHop(KeysOf(conf), f)
    decreases |items| - i
  {
    hide PrepareDownlink, DownlinkMeshFrame, FirstHop, Frames;
    NoFrames([]);
    if i < |items| {
      var (st', sent) := PrepareDownlink(conf, st, items[i]);
      PreparedFrame(conf, st, items[i]);
      if sent.Ok? {
        DownlinkIsFirstHop(conf, items[i], sent.value.frame);
        OneFrame([sent.value]);
        if !env.meshOk(i) {
          DownlinksAreFirstHop(conf, st', items, env, i + 1);
          FramesAppend([sent.value], Attempts(conf, st', items, env, i + 1).1.out);
        }
      }
    }
  }

  lemma ServerFramesAreFirstHop(conf: Config, st: NodeState, items: seq<DownlinkItem>, env: Env)
    ensures forall f <- Frames(HandleDownlink(conf, st, items, env).1.out) :: FirstHop(KeysOf(conf), f)
  {
    hide Attempts, FirstHop, Frames, FormatDownlink;
    NoFrames([]);
    OneFrame(ProxyDirectDownlink(conf, items, env).out);
    DownlinksAreFirstHop(conf, st, items, env, 0);
  }

  lemma CommandIsFirstHop(
    conf: Config, st: NodeState, relayId: string, commands: seq<Option<(u32, bytes)>>, env: Env)
    ensures forall f <- Frames(SendCommand(conf, st, relayId, commands, env).1.out) :: FirstHop(KeysOf(conf), f)
  {
    hide SealAndTransmit, FirstHop, Frames, SetCommands;
    NoFrames([]);
    var id := DecodeRelayId(relayId);
    if id.Ok? {
      SentIsFirstHop(conf, st, CommandPacket(env.now, id.value, commands), env.meshOk(0));
    }
  }

  lemma ActsAreFirstHop(conf: Config, st: NodeState, s: NodeRuns.Step)
    requires !s.op.Hear?
    ensures forall f <- Frames(Apply(conf, st, s).1) :: FirstHop(KeysOf(conf), f)
  {
    hide SealAndTransmit, FirstHop, HandleUplink, HandleDownlink, SendCommand, Frames;
    match s.op {
      case DeviceUplink(up) =>
        UplinkIsFirstHop(conf, st, up, s.env);
      case ReportEvents(items) =>
        SentIsFirstHop(conf, st, EventPacket(conf, s.env.now, items), s.env.meshOk(0));
      case ServerDownlink(items) =>
        ServerFramesAreFirstHop(conf, st, items, s.env);
      case MeshCommand(relayId, commands) =>
        CommandIsFirstHop(conf, st, relayId, commands, s.env);
    }
  }

  lemma UplinkIsFirstHop(conf: Config, st: NodeState, up: UplinkFrame, env: Env)
    ensures forall f <- Frames(HandleUplink(conf, st, up, env).1.out) :: FirstHop(KeysOf(conf), f)
  {
    hide SealAndTransmit, FirstHop;
    OneFrame(ProxyDirectUplink(conf, up, env).out);
    if up.rxInfo.Some? {
      var st' := StoreContext(st, up.rxInfo.value.context);
      var p := UplinkPacket(conf, st'.uplinkId, up);
      if p.Ok? {
        SentIsFirstHop(conf, st', p.value, env.meshOk(0));
      }
    }
  }
}
