/**
  From an end device to the network server and back, over a mesh: gateways hear, miss and pass on
  frames in any order, and everything else goes on at the same time.
 */
module MeshEndToEnd {
  import opened Wrappers
  import opened Bytes
  import opened PayloadCache
  import opened Relaying
  import opened Cache
  import opened Gateway
  import opened NodeRuns
  import opened Network
  import opened MeshInvariant
  import opened MeshRuns
  import opened MeshTheorems
  import opened MeshDeliveries
  import opened EndToEnd

  /** The gateway has this key among the last 64 that it accepted. */
  predicate Recent(s: Net, n: nat, k: PayloadKey)
    requires n < |s.accepted|
  {
    k in Last(CACHE_SIZE, s.accepted[n])
  }

  function UplinkStep(r: nat, up: UplinkFrame, env: Env, hears: Hearers): (step: NetStep) {
    Act(r, NodeRuns.Step(DeviceUplink(up), env), hears)
  }

  function ServerStep(b: nat, items: seq<DownlinkItem>, env: Env, hears: Hearers): (step: NetStep) {
    Act(b, NodeRuns.Step(ServerDownlink(items), env), hears)
  }

  // ---------- The uplink ----------

  /** The frame of a device's uplink is the next original, and stays it. */
  lemma UplinkOriginal(
    confs: seq<Config>, before: seq<NetStep>, r: nat, up: UplinkFrame, env: Env, hears: Hearers,
    f: bytes, freq: u32, later: seq<NetStep>)
    requires r < |confs| && !confs[r].borderGateway
    requires RelayUplink(confs[r], RunNet(confs, before).states[r], up, env).1.out == [MeshFrame(f, freq)]
    ensures var o := |RunNet(confs, before).originals|;
            var s := RunNet(confs, before + [UplinkStep(r, up, env, hears)] + later);
            o < |s.originals| && s.originals[o] == f
  {
    hide RunNet, RelayUplink, Broadcast;
    var step := UplinkStep(r, up, env, hears);
    NetOne(confs, before, step);
    OneFrame([MeshFrame(f, freq)]);
    OriginalsGrow(confs, before + [step], later);
  }

  /**
    Whenever the border gateway hears a copy of a device's uplink, over whatever relays, it hands the
    uplink to the network server, as the relay heard it and with the way back: exactly when it has no
    uplink with this id among the last 64 packets it accepted.
   */
  lemma MeshUplinkReachesServer(
    confs: seq<Config>, m: MeshKeys, before: seq<NetStep>, r: nat, up: UplinkFrame, env: Env, hears: Hearers,
    f: bytes, freq: u32, later: seq<NetStep>, i: nat, radio: Radio, envb: Env)
    requires OneMesh(confs, m) && r < |confs|
    requires RelayUplink(confs[r], RunNet(confs, before).states[r], up, env).1.out == [MeshFrame(f, freq)]
    requires var s := RunNet(confs, before + [UplinkStep(r, up, env, hears)] + later);
             && i < |s.air| && Partners(confs[r], confs[s.air[i].node]) && UplinkInReach(confs[r], up)
             && s.air[i].origin == |RunNet(confs, before).originals|
    requires radio.rxInfo.Some? && radio.txInfo.Some?
    ensures up.rxInfo.Some? && up.txInfo.Some? && up.txInfo.value.modulation.Some?
    ensures Open(m, RunNet(confs, before + [UplinkStep(r, up, env, hears)] + later).air[i].frame).Ok?
    ensures var s := RunNet(confs, before + [UplinkStep(r, up, env, hears)] + later);
            var Reception(b, g, _) := s.air[i];
            var id := NextUplinkId(RunNet(confs, before).states[r].uplinkId);
            HandleMesh(confs[b], s.states[b], RxFrame(g, radio), envb).1.out ==
            if Recent(s, b, UplinkKey(confs[r].relayId, id)) then []
            else [ProxiedUplink(ServerFrame(confs[r].relayId, id, up, Open(m, g).value.mhdr.hopCount))]
  {
    hide RunNet, HandleMesh, RelayUplink, Open, UplinkPacket, Last, Accepted;
    var all := before + [UplinkStep(r, up, env, hears)] + later;
    var s, st := RunNet(confs, all), RunNet(confs, before).states[r];
    var Reception(b, g, _) := s.air[i];
    UplinkOriginal(confs, before, r, up, env, hears, f, freq, later);
    UplinkContent(confs[r], st, up, env, f, freq);
    var p := Open(m, f).value;
    assert p.payload == Content(p).payload;
    var via := EveryFrameIsDerived(confs, m, all, i);
    HeardIsOriginal(confs, m, s, g, |RunNet(confs, before).originals|, via);
    hide Derived, OneMesh;
    AcceptedOfNet(confs, all, b);
    UplinkTaken(confs[r], NextUplinkId(st.uplinkId), up, confs[b], s.states[b], RxFrame(g, radio), envb);
  }

  // ---------- The downlink ----------

  lemma {:induction false} AttemptFrames(
    conf: Config, st: NodeState, items: seq<DownlinkItem>, env: Env, i: nat, k: nat)
    requires i <= |items| && k < |Frames(Attempts(conf, st, items, env, i).1.out)|
    ensures i + k < |items|
    ensures DownlinkMeshFrame(conf, items[i + k]) == Ok(Frames(Attempts(conf, st, items, env, i).1.out)[k])
    decreases |items| - i
  {
    hide DownlinkMeshFrame, PrepareDownlink, Frames;
    NoFrames([]);
    if i < |items| {
      var (st', sent) := PrepareDownlink(conf, st, items[i]);
      PreparedFrame(conf, st, items[i]);
      if sent.Ok? {
        OneFrame([sent.value]);
        if !env.meshOk(i) {
          FramesAppend([sent.value], Attempts(conf, st', items, env, i + 1).1.out);
          if k > 0 {
            AttemptFrames(conf, st', items, env, i + 1, k - 1);
          }
        }
      }
    }
  }

  lemma ServerFrames(conf: Config, st: NodeState, items: seq<DownlinkItem>, env: Env, k: nat)
    requires k < |Frames(HandleDownlink(conf, st, items, env).1.out)|
    ensures k < |items|
    ensures DownlinkMeshFrame(conf, items[k]) == Ok(Frames(HandleDownlink(conf, st, items, env).1.out)[k])
  {
    hide Attempts, DownlinkMeshFrame, ForMesh, Frames, FormatDownlink;
    OneFrame(ProxyDirectDownlink(conf, items, env).out);
    NoFrames([]);
    AttemptFrames(conf, st, items, env, 0, k);
  }

  /** The frames of a request of the network server are those of its items, in order, and the next originals. */
  lemma ServerOriginal(
    confs: seq<Config>, before: seq<NetStep>, b: nat, items: seq<DownlinkItem>, env: Env, hears: Hearers, k: nat,
    later: seq<NetStep>)
    requires b < |confs| && k < |Frames(HandleDownlink(confs[b], RunNet(confs, before).states[b], items, env).1.out)|
    ensures k < |items|
    ensures var o := |RunNet(confs, before).originals| + k;
            var s := RunNet(confs, before + [ServerStep(b, items, env, hears)] + later);
            o < |s.originals| && DownlinkMeshFrame(confs[b], items[k]) == Ok(s.originals[o])
  {
    hide RunNet, HandleDownlink, Broadcast, DownlinkMeshFrame, Frames;
    var step := ServerStep(b, items, env, hears);
    NetOne(confs, before, step);
    ServerFrames(confs[b], RunNet(confs, before).states[b], items, env, k);
    OriginalsGrow(confs, before + [step], later);
  }

  /**
    Whenever the relay that a downlink is for hears a copy of it, over whatever relays, it transmits it
    to the device, with the context that it keeps under the id: exactly when it has no downlink with
    this id among the last 64 packets it accepted.
   */
  lemma MeshDownlinkReachesDevice(
    confs: seq<Config>, m: MeshKeys, before: seq<NetStep>, b: nat, items: seq<DownlinkItem>, env: Env,
    hears: Hearers, k: nat, later: seq<NetStep>, i: nat, id: u16, radio: Radio, env': Env)
    requires OneMesh(confs, m) && b < |confs| && id <= 4095 && radio.rxInfo.Some?
    requires k < |Frames(HandleDownlink(confs[b], RunNet(confs, before).states[b], items, env).1.out)|
    requires var s := RunNet(confs, before + [ServerStep(b, items, env, hears)] + later);
             && i < |s.air| && Partners(confs[s.air[i].node], confs[b]) && id in s.states[s.air[i].node].contexts
             && s.air[i].origin == |RunNet(confs, before).originals| + k
             && k < |items| && items[k].txInfo.Some? && DownlinkInReach(confs[s.air[i].node], items[k])
             && items[k].txInfo.value.context == BorderContext(confs[s.air[i].node].relayId, id)
    ensures var s := RunNet(confs, before + [ServerStep(b, items, env, hears)] + later);
            var Reception(r, g, _) := s.air[i];
            && DownlinkSent(confs[r], items[k])
            && HandleMesh(confs[r], s.states[r], RxFrame(g, radio), env').1.out ==
               if Recent(s, r, DownlinkKey(confs[r].relayId, id)) then []
               else [DeviceDownlink(DeviceItem(confs[r], items[k], s.states[r].contexts[id]))]
  {
    hide RunNet, HandleMesh, HandleDownlink, Open, DownlinkMeshFrame, Last, Accepted, DeviceItem;
    var all := before + [ServerStep(b, items, env, hears)] + later;
    var s := RunNet(confs, all);
    var Reception(r, g, _) := s.air[i];
    var o := |RunNet(confs, before).originals| + k;
    ServerOriginal(confs, before, b, items, env, hears, k, later);
    var f := s.originals[o];
    DownlinkIsDownlink(confs[b], items[k], f);
    var via := EveryFrameIsDerived(confs, m, all, i);
    HeardIsOriginal(confs, m, s, g, o, via);
    hide Derived, OneMesh;
    AcceptedOfNet(confs, all, r);
    DownlinkTaken(confs[r], s.states[r], confs[b], items[k], f, id, RxFrame(g, radio), env');
  }

  lemma DownlinkIsDownlink(border: Config, item: DownlinkItem, f: bytes)
    requires DownlinkMeshFrame(border, item) == Ok(f)
    ensures Open(KeysOf(border), f).Ok? && Open(KeysOf(border), f).value.payload.Downlink?
  {
    hide Open, DownlinkMeshFrame;
    DownlinkContent(border, item, f);
  }

  /** No other gateway transmits it to a device. */
  lemma NoOtherDelivers(
    confs: seq<Config>, m: MeshKeys, steps: seq<NetStep>, i: nat, radio: Radio, env: Env, j: nat)
    requires OneMesh(confs, m)
    requires var s := RunNet(confs, steps);
             && i < |s.air| && s.air[i].origin < |s.originals| && Open(m, s.originals[s.air[i].origin]).Ok?
             && confs[s.air[i].node].relayId != Open(m, s.originals[s.air[i].origin]).value.payload.relayId
    requires var s := RunNet(confs, steps);
             var Reception(n, g, _) := s.air[i];
             j < |HandleMesh(confs[n], s.states[n], RxFrame(g, radio), env).1.out|
    ensures var s := RunNet(confs, steps);
            var Reception(n, g, _) := s.air[i];
            !HandleMesh(confs[n], s.states[n], RxFrame(g, radio), env).1.out[j].DeviceDownlink?
  {
    hide RunNet, HandleMesh, Open;
    var s := RunNet(confs, steps);
    var Reception(n, g, _) := s.air[i];
    var via := EveryFrameIsDerived(confs, m, steps, i);
    if HandleMesh(confs[n], s.states[n], RxFrame(g, radio), env).1.out[j].DeviceDownlink? {
      DeliveredItem(confs[n], s.states[n], RxFrame(g, radio), env, j);
    }
  }

  // ---------- There and back ----------

  /** A relay in a mesh still has the context of an uplink while it has stored fewer than 4096 others since. */
  lemma ContextInMesh(
    confs: seq<Config>, before: seq<NetStep>, r: nat, up: UplinkFrame, env: Env, hears: Hearers, later: seq<NetStep>)
    requires r < |confs| && StoredBy(confs[r], NodeRuns.Step(DeviceUplink(up), env)) != []
    requires var all := before + [UplinkStep(r, up, env, hears)] + later;
             |Stored(confs[r], Projection(confs, all, r))| <=
             |Stored(confs[r], Projection(confs, before, r))| + 4096
    ensures up.rxInfo.Some?
    ensures var id := NextUplinkId(RunNet(confs, before).states[r].uplinkId);
            var st := RunNet(confs, before + [UplinkStep(r, up, env, hears)] + later).states[r];
            id <= 4095 && id in st.contexts && st.contexts[id] == up.rxInfo.value.context
  {
    hide RunNet, Run, Stored, Projection, Enabled, Next;
    var conf, own := confs[r], Projection(confs, before, r);
    var one, all := before + [UplinkStep(r, up, env, hears)], before + [UplinkStep(r, up, env, hears)] + later;
    NodeOfNet(confs, before, r);
    NodeOfNet(confs, all, r);
    NetOne(confs, before, UplinkStep(r, up, env, hears));
    UplinkEnabled(confs, before, r, up, env, hears);
    StoredOne(conf, own, NodeRuns.Step(DeviceUplink(up), env));
    StoredGrows(confs, one, later, r);
    ContextsOverRun(conf, own);
    StoredExactly(Stored(conf, own), 0);
    NextId(|Stored(conf, own)|);
    ContextKept(conf, Projection(confs, all, r), |Stored(conf, own)| + 1);
  }

  lemma UplinkEnabled(confs: seq<Config>, before: seq<NetStep>, r: nat, up: UplinkFrame, env: Env, hears: Hearers)
    requires r < |confs|
    ensures Enabled(RunNet(confs, before), UplinkStep(r, up, env, hears))
  {
  }

  lemma StoredOne(conf: Config, own: seq<NodeRuns.Step>, st: NodeRuns.Step)
    ensures Stored(conf, own + [st]) == Stored(conf, own) + StoredBy(conf, st)
  {
    assert (own + [st])[..|own|] == own;
  }

  lemma UplinkIsStored(conf: Config, st: NodeState, up: UplinkFrame, env: Env)
    requires !conf.borderGateway && RelayUplink(conf, st, up, env).1.out != []
    ensures StoredBy(conf, NodeRuns.Step(DeviceUplink(up), env)) != []
  {
  }

  lemma Regroup<T>(x: seq<T>, b: seq<T>, one: seq<T>, d: seq<T>)
    ensures x + b + one + d == x + (b + one + d)
  {
  }

  /** A device's uplink on its way: relay r takes it after the steps `before` and sends the frame f. */
  datatype Outward = Outward(
    before: seq<NetStep>, r: nat, up: UplinkFrame, env: Env, hears: Hearers, f: bytes, freq: u32)

  /** A reception: of the i-th frame on the air. */
  datatype Copy = Copy(i: nat, radio: Radio, env: Env)

  /** An answer of the network server: the k-th frame that the request `items` makes a gateway send. */
  datatype Answer = Answer(items: seq<DownlinkItem>, env: Env, hears: Hearers, k: nat)

  function Sent(u: Outward): (steps: seq<NetStep>) {
    u.before + [UplinkStep(u.r, u.up, u.env, u.hears)]
  }

  function IdOf(confs: seq<Config>, u: Outward): (id: u16)
    requires u.r < |confs|
  {
    NextUplinkId(RunNet(confs, u.before).states[u.r].uplinkId)
  }

  /** What the gateway that hears the frame hands out, if there is such a frame. */
  function HeardOut(confs: seq<Config>, s: Net, a: Copy): (out: seq<Output>)
    requires ShapeOk(confs, s)
  {
    if a.i >= |s.air| then [] else
    var Reception(n, g, _) := s.air[a.i];
    HandleMesh(confs[n], s.states[n], RxFrame(g, a.radio), a.env).1.out
  }

  function Hearer(s: Net, a: Copy): (n: nat) {
    if a.i >= |s.air| then 0 else s.air[a.i].node
  }

  /** The reception is one of the o-th original. */
  predicate HearsOriginal(s: Net, a: Copy, o: nat) {
    a.i < |s.air| && a.radio.rxInfo.Some? && s.air[a.i].origin == o
  }

  /** Relay r sends a device's uplink; and after steps b, a border gateway hears a copy that is new to it. */
  ghost predicate UplinkLeg(confs: seq<Config>, u: Outward, b: seq<NetStep>, ub: Copy) {
    && u.r < |confs|
    && RelayUplink(confs[u.r], RunNet(confs, u.before).states[u.r], u.up, u.env).1.out == [MeshFrame(u.f, u.freq)]
    && var s := RunNet(confs, Sent(u) + b);
       && HearsOriginal(s, ub, |RunNet(confs, u.before).originals|) && ub.radio.txInfo.Some?
       && Partners(confs[u.r], confs[Hearer(s, ub)]) && UplinkInReach(confs[u.r], u.up)
       && !Recent(s, Hearer(s, ub), UplinkKey(confs[u.r].relayId, IdOf(confs, u)))
  }

  /** The server answers through gateway n, with this context. */
  ghost predicate AnswerLeg(confs: seq<Config>, s: Net, n: nat, q: Answer, context: bytes) {
    && ShapeOk(confs, s) && n < |confs|
    && q.k < |Frames(HandleDownlink(confs[n], s.states[n], q.items, q.env).1.out)|
    && q.k < |q.items| && q.items[q.k].txInfo.Some? && q.items[q.k].txInfo.value.context == context
    && DownlinkInReach(confs[n], q.items[q.k])
  }

  /** Relay r hears a copy of the o-th original that is new to it; it has stored fewer than 4096 uplinks meanwhile. */
  ghost predicate DownlinkLeg(
    confs: seq<Config>, u: Outward, all: seq<NetStep>, dr: Copy, o: nat) {
    && u.r < |confs|
    && var s := RunNet(confs, all);
       && HearsOriginal(s, dr, o) && Hearer(s, dr) == u.r
       && !Recent(s, u.r, DownlinkKey(confs[u.r].relayId, IdOf(confs, u)))
       && |Stored(confs[u.r], Projection(confs, all, u.r))| <=
          |Stored(confs[u.r], Projection(confs, u.before, u.r))| + 4096
  }

  /** What the device gets: the answer, with the context that came with the device's uplink. */
  ghost predicate IsAnswer(relay: Config, up: UplinkFrame, q: Answer, device: DownlinkItem) {
    && q.k < |q.items| && up.rxInfo.Some? && DownlinkSent(relay, q.items[q.k])
    && device == DeviceItem(relay, q.items[q.k], up.rxInfo.value.context)
  }

  lemma UplinkLegReaches(confs: seq<Config>, m: MeshKeys, u: Outward, b: seq<NetStep>, ub: Copy)
    returns (server: UplinkFrame)
    requires OneMesh(confs, m) && UplinkLeg(confs, u, b, ub)
    ensures HeardOut(confs, RunNet(confs, Sent(u) + b), ub) == [ProxiedUplink(server)]
    ensures server.rxInfo.Some? && server.rxInfo.value.context == BorderContext(confs[u.r].relayId, IdOf(confs, u))
  {
    hide RunNet, HandleMesh, RelayUplink, Derived, Recent, OneMesh, BorderContext, UplinkKey;
    MeshUplinkReachesServer(
      confs, m, u.before, u.r, u.up, u.env, u.hears, u.f, u.freq, b, ub.i, ub.radio, ub.env);
    var g := RunNet(confs, Sent(u) + b).air[ub.i].frame;
    server := ServerFrame(confs[u.r].relayId, IdOf(confs, u), u.up, Open(m, g).value.mhdr.hopCount);
  }

  lemma DownlinkLegReaches(
    confs: seq<Config>, m: MeshKeys, u: Outward, more: seq<NetStep>, n: nat, q: Answer, d: seq<NetStep>, dr: Copy)
    returns (device: DownlinkItem)
    requires OneMesh(confs, m) && u.r < |confs| && n < |confs| && Partners(confs[u.r], confs[n])
    requires StoredBy(confs[u.r], NodeRuns.Step(DeviceUplink(u.up), u.env)) != []
    requires AnswerLeg(
               confs, RunNet(confs, Sent(u) + more), n, q, BorderContext(confs[u.r].relayId, IdOf(confs, u)))
    requires DownlinkLeg(
               confs, u, Sent(u) + more + [ServerStep(n, q.items, q.env, q.hears)] + d, dr,
               |RunNet(confs, Sent(u) + more).originals| + q.k)
    ensures HeardOut(confs, RunNet(confs, Sent(u) + more + [ServerStep(n, q.items, q.env, q.hears)] + d), dr) ==
            [DeviceDownlink(device)]
    ensures IsAnswer(confs[u.r], u.up, q, device)
  {
    hide RunNet, HandleMesh, HandleDownlink, Derived, Recent, OneMesh, BorderContext, DownlinkKey, DeviceItem,
         Stored, Projection, StoredBy, KeysOf, Frames, DownlinkSent, ServerStep;
    Regroup(Sent(u), more, [ServerStep(n, q.items, q.env, q.hears)], d);
    ContextInMesh(
      confs, u.before, u.r, u.up, u.env, u.hears, more + [ServerStep(n, q.items, q.env, q.hears)] + d);
    MeshDownlinkReachesDevice(
      confs, m, Sent(u) + more, n, q.items, q.env, q.hears, q.k, d, dr.i, IdOf(confs, u), dr.radio, dr.env);
    device := DeviceItem(confs[u.r], q.items[q.k], u.up.rxInfo.value.context);
  }

  /**
    There and back over a mesh: relay r sends a device's uplink; any gateways do anything; a border
    gateway hears a copy and hands it to the network server with a context; anything happens; the
    server answers with this context; anything happens; relay r hears a copy of the answer. Then r
    transmits the answer to the device with the context that came with the device's uplink, provided
    that it has stored fewer than 4096 uplinks since, and that neither gateway has the key of what it
    hears among the last 64 that it accepted.
   */
  lemma MeshContextRoundTrip(
    confs: seq<Config>, m: MeshKeys, u: Outward, b: seq<NetStep>, ub: Copy, c: seq<NetStep>, n: nat, q: Answer,
    d: seq<NetStep>, dr: Copy)
    returns (server: UplinkFrame, device: DownlinkItem)
    requires OneMesh(confs, m) && UplinkLeg(confs, u, b, ub) && n == Hearer(RunNet(confs, Sent(u) + b), ub)
    requires AnswerLeg(
               confs, RunNet(confs, Sent(u) + (b + c)), n, q, BorderContext(confs[u.r].relayId, IdOf(confs, u)))
    requires DownlinkLeg(
               confs, u, Sent(u) + (b + c) + [ServerStep(n, q.items, q.env, q.hears)] + d, dr,
               |RunNet(confs, Sent(u) + (b + c)).originals| + q.k)
    ensures HeardOut(confs, RunNet(confs, Sent(u) + b), ub) == [ProxiedUplink(server)]
    ensures server.rxInfo.Some? && server.rxInfo.value.context == BorderContext(confs[u.r].relayId, IdOf(confs, u))
    ensures HeardOut(confs, RunNet(confs, Sent(u) + (b + c) + [ServerStep(n, q.items, q.env, q.hears)] + d), dr) ==
            [DeviceDownlink(device)]
    ensures IsAnswer(confs[u.r], u.up, q, device)
  {
    hide RunNet, HandleMesh, HandleDownlink, Derived, Recent, OneMesh, DownlinkLeg, AnswerLeg, IsAnswer, HeardOut,
         BorderContext, Sent, KeysOf, RelayUplink, StoredBy;
    server := UplinkLegReaches(confs, m, u, b, ub);
    UplinkIsStored(confs[u.r], RunNet(confs, u.before).states[u.r], u.up, u.env);
    device := DownlinkLegReaches(confs, m, u, b + c, n, q, d, dr);
  }
}
