/**
  Events and commands, item by item: what is sent, what any relays make of it, and what the network
  server and the relays get.
 */
module MeshEvents {
  import opened Wrappers
  import opened Bytes
  import opened Cipher
  import opened Tlv
  import opened Packets
  import opened PayloadCache
  import opened Relaying
  import opened Cache
  import opened Gateway
  import opened Hex
  import opened NodeRuns
  import opened Network
  import opened MeshInvariant
  import opened MeshTheorems
  import opened MeshRuns
  import opened MeshEndToEnd

  // ---------- On the way ----------

  /** The item as it was, or a heartbeat with exactly these hops after those it had. */
  predicate Carried(sent: Item, heard: Item, hops: seq<Hop>) {
    match sent
    case Heartbeat(path) =>
      && heard.Heartbeat? && |heard.path| == |path| + |hops|
      && (forall i :: 0 <= i < |path| ==> heard.path[i] == path[i])
      && forall i :: 0 <= i < |hops| ==> heard.path[|path| + i] == hops[i]
    case Proprietary(tag, value) => heard == Proprietary(tag, value)
    case Encrypted(data) => heard == Encrypted(data)
  }

  /** The same events of the same relay and time, each carried over these hops. */
  predicate EventsCarried(sent: Payload, heard: Payload, hops: seq<Hop>) {
    && sent.Event? && heard.Event? && heard.timestamp == sent.timestamp && heard.relayId == sent.relayId
    && |heard.items| == |sent.items|
    && forall i :: 0 <= i < |sent.items| ==> Carried(sent.items[i], heard.items[i], hops)
  }

  lemma AdvancedIsCarried(p: Packet, hops: seq<Hop>)
    requires p.payload.Event? && p.mhdr.hopCount + |hops| < 0x100
    ensures EventsCarried(p.payload, AdvanceBy(p, hops).payload, hops)
  {
    var heard := AdvanceBy(p, hops).payload;
    forall i | 0 <= i < |p.payload.items| ensures Carried(p.payload.items[i], heard.items[i], hops) {
      assert heard.items[i] == AddHops(p.payload.items[i], hops);
    }
  }

  /**
    Over any path of relays that pass it on, an event packet is heard with the same relay, time and items,
    each heartbeat extended by exactly the hops of these relays, in order, and everything else as it was;
    any other packet is heard as it was altogether.
   */
  lemma EventsOverPath(m: MeshKeys, relays: seq<Relay>, b: bytes) returns (hops: seq<Hop>)
    requires Open(m, b).Ok? && RelayAll(m, relays, b).Ok? && RoomFor(Open(m, b).value.payload, |relays|)
    ensures |hops| == |relays| && forall i :: 0 <= i < |relays| ==> hops[i] == relays[i].hop
    ensures Open(m, RelayAll(m, relays, b).value).Ok?
    ensures var p, q := Open(m, b).value, Open(m, RelayAll(m, relays, b).value).value;
            && q.mhdr.hopCount == p.mhdr.hopCount + |relays| && q.mhdr.payloadType == p.mhdr.payloadType
            && if p.payload.Event? then EventsCarried(p.payload, q.payload, hops) else q.payload == p.payload
  {
    hops := Hops(relays);
    hide Open, RelayAll, EventsCarried;
    PathPreservesMeaning(m, relays, b);
    OpenedForm(m, b);
    var p, q := Open(m, b).value, Open(m, RelayAll(m, relays, b).value).value;
    assert q.payload == Content(q).payload && q.mhdr == Content(q).mhdr;
    if p.payload.Event? {
      AdvancedIsCarried(p, hops);
    }
  }

  /**
    In every run of a mesh: any frame on the air says what its original said, over a route `via` of one hop
    for each but the first, each of them as a gateway reported it when it passed the frame on.
   */
  lemma EventsOverMesh(confs: seq<Config>, m: MeshKeys, steps: seq<NetStep>, i: nat) returns (via: seq<Hop>)
    requires OneMesh(confs, m) && i < |RunNet(confs, steps).air|
    ensures var s := RunNet(confs, steps);
            var Reception(_, b, o) := s.air[i];
            && o < |s.originals| && Open(m, b).Ok? && Open(m, s.originals[o]).Ok?
            && var p0, p := Open(m, s.originals[o]).value, Open(m, b).value;
               && p.mhdr.hopCount == 1 + |via|
               && (forall j :: 0 <= j < |via| ==> PassedBy(confs, s, o, via[j], j))
               && (p0.payload.Event? && RoomFor(p0.payload, |via|) ==> EventsCarried(p0.payload, p.payload, via))
               && (p0.payload.Event? ==>
                     && p.payload.Event? && p.payload.relayId == p0.payload.relayId
                     && p.payload.timestamp == p0.payload.timestamp)
               && (!p0.payload.Event? ==> p.payload == p0.payload)
  {
    hide RunNet, OneMesh, PassedBy, Open, KeyOf, EventsCarried;
    var s := RunNet(confs, steps);
    var Reception(_, b, o) := s.air[i];
    via := EveryFrameIsDerived(confs, m, steps, i);
    var p0, p := Open(m, s.originals[o]).value, Open(m, b).value;
    if p0.payload.Event? {
      OpenedForm(m, b);
      OpenedForm(m, s.originals[o]);
      SameKeySameTime(p0, p);
      if RoomFor(p0.payload, |via|) {
        AdvancedIsCarried(p0, via);
        assert p.payload == Content(p).payload == AdvanceBy(p0, via).payload;
      }
    } else {
      HeardIsOriginal(confs, m, s, b, o, via);
    }
  }

  lemma SameKeySameTime(p: Packet, q: Packet)
    requires OpenForm(p) && OpenForm(q) && KeyOf(p) == KeyOf(q) && p.payload.Event?
    ensures q.payload.Event? && q.payload.timestamp == p.payload.timestamp
  {
    WholeSeconds(p.payload.timestamp);
    WholeSeconds(q.payload.timestamp);
  }

  lemma WholeSeconds(t: SystemTime)
    requires WireTime(t)
    ensures t == KeySeconds(t) as int * SECOND
  {
  }

  // ---------- To the network server ----------

  /** The key of an event packet. */
  function EventKey(relayId: Bytes4, t: SystemTime): (k: PayloadKey)
    requires WireTime(t)
  {
    PayloadKey(EventType, 0, t / 1_000_000_000, relayId)
  }

  lemma BorderHandsEventsOn(conf: Config, st: NodeState, rx: UplinkFrame, env: Env)
    requires conf.borderGateway && Open(KeysOf(conf), rx.phyPayload).Ok?
    requires Open(KeysOf(conf), rx.phyPayload).value.payload.Event?
    ensures var pl := Open(KeysOf(conf), rx.phyPayload).value.payload;
            && WireTime(pl.timestamp)
            && var o := HandleMesh(conf, st, rx, env).1;
               if EventKey(pl.relayId, pl.timestamp) in st.seen then o.out == []
               else
                 && o.out == [ProxiedEvents(pl.relayId, pl.timestamp, pl.items)]
                 && (o.result.Ok? <==> env.proxyOk)
  {
    hide HandleMesh, Open, KeyOf, AddSpec;
    HandleMeshExactly(conf, st, rx, env);
    OpenedForm(KeysOf(conf), rx.phyPayload);
    KeyOfEvents(Open(KeysOf(conf), rx.phyPayload).value);
  }

  lemma KeyOfEvents(p: Packet)
    requires OpenForm(p) && p.payload.Event?
    ensures KeyOf(p) == EventKey(p.payload.relayId, p.payload.timestamp)
  {
    WholeSeconds(p.payload.timestamp);
  }

  /**
    Whenever a border gateway of a mesh hears a copy of an event packet, over whatever relays, it hands the
    network server the original's relay and time and, while heartbeats have room, exactly its items, each
    heartbeat with the route of this copy added: exactly when it has no event packet of this relay and second
    among the last 64 it accepted.
   */
  lemma MeshEventsReachServer(
    confs: seq<Config>, m: MeshKeys, steps: seq<NetStep>, i: nat, radio: Radio, env: Env)
    returns (via: seq<Hop>, items: seq<Item>)
    requires OneMesh(confs, m) && i < |RunNet(confs, steps).air|
    requires confs[RunNet(confs, steps).air[i].node].borderGateway
    requires var s := RunNet(confs, steps);
             var o := s.air[i].origin;
             o < |s.originals| && Open(m, s.originals[o]).Ok? && Open(m, s.originals[o]).value.payload.Event?
    ensures var s := RunNet(confs, steps);
            var Reception(n, b, o) := s.air[i];
            var sent := Open(m, s.originals[o]).value.payload;
            && |via| <= 7 && (forall j :: 0 <= j < |via| ==> PassedBy(confs, s, o, via[j], j))
            && (RoomFor(sent, |via|) ==>
                  |items| == |sent.items| && forall j :: 0 <= j < |items| ==> Carried(sent.items[j], items[j], via))
            && WireTime(sent.timestamp)
            && HandleMesh(confs[n], s.states[n], RxFrame(b, radio), env).1.out ==
               if Recent(s, n, EventKey(sent.relayId, sent.timestamp)) then []
               else [ProxiedEvents(sent.relayId, sent.timestamp, items)]
  {
    hide RunNet, HandleMesh, Open, Carried, PassedBy, Last, Accepted;
    var s := RunNet(confs, steps);
    var Reception(n, b, _) := s.air[i];
    via := EventsOverMesh(confs, m, steps, i);
    OpenedForm(m, b);
    var pl := Open(m, b).value.payload;
    items := [];
    AcceptedOfNet(confs, steps, n);
    BorderHandsEventsOn(confs[n], s.states[n], RxFrame(b, radio), env);
    items := pl.items;
  }

  // ---------- Sending ----------

  /**
    What a gateway sends for a list of events is heard everywhere as an event packet of this gateway, of this
    second, with these events: exactly these if and only if all of them fit. It is sent exactly when there is
    a frequency to send on, the clock is not before the epoch, and all signals on relay paths are in range.
   */
  lemma EventsAreSent(conf: Config, st: NodeState, items: seq<Item>, env: Env)
    ensures var o := Gateway.SendEvents(conf, st, items, env).1;
            && (o.result.Ok? <==> o.out != [] && env.meshOk(0))
            && (o.out != [] <==>
                && conf.frequencies != [] && env.now >= 0
                && forall i :: 0 <= i < |items| && items[i].Heartbeat? ==> PathInRange(items[i].path))
            && |o.out| <= 1
            && (o.out != [] ==>
                  && o.out[0].MeshFrame? && Open(KeysOf(conf), o.out[0].frame).Ok?
                  && var p := Open(KeysOf(conf), o.out[0].frame).value;
                     && p.mhdr.hopCount == 1 && p.payload.Event? && p.payload.relayId == conf.relayId
                     && p.payload.timestamp == env.now / 1_000_000_000 % 0x1_0000_0000 * 1_000_000_000
                     && (p.payload.items == items <==> AllWellFormed(false, items)))
  {
    hide Seal, Open;
    var p := EventPacket(conf, env.now, items);
    SentExactly(conf, st, p, env.meshOk(0));
    EventsSeal(KeysOf(conf), conf, env.now, items);
    if Seal(KeysOf(conf), p).Ok? {
      ItemsSent(KeysOf(conf), p);
    }
  }

  lemma EventsSeal(m: MeshKeys, conf: Config, now: SystemTime, items: seq<Item>)
    ensures Seal(m, EventPacket(conf, now, items)).Ok? <==>
            now >= 0 && forall i :: 0 <= i < |items| && items[i].Heartbeat? ==> PathInRange(items[i].path)
  {
    var p := EventPacket(conf, now, items);
    ItemsEncodeExactly(items);
    hide EncodeItems, Seal;
    if now >= 0 {
      SealsExactly(m, p);
    } else {
      NoSealBeforeEpoch(m, p);
    }
  }

  lemma SentExactly(conf: Config, st: NodeState, p: Packet, ok: bool)
    ensures var o := SealAndTransmit(conf, st, p, ok).1;
            && (o.out != [] <==> Seal(KeysOf(conf), p).Ok? && conf.frequencies != [])
            && (o.result.Ok? <==> o.out != [] && ok)
            && (o.out != [] ==> |o.out| == 1 && o.out[0].MeshFrame? && Seal(KeysOf(conf), p) == Ok(o.out[0].frame))
  {
    hide Seal;
  }

  lemma ItemsSent(m: MeshKeys, p: Packet)
    requires Seal(m, p).Ok? && HasItems(p.payload) && p.mhdr == Mhdr(TypeOf(p.payload), 1)
    ensures Open(m, Seal(m, p).value).Ok? && p.payload.timestamp >= 0
    ensures var q := Open(m, Seal(m, p).value).value;
            && q.mhdr.hopCount == 1 && TypeOf(q.payload) == TypeOf(p.payload)
            && q.payload.relayId == p.payload.relayId
            && q.payload.timestamp == p.payload.timestamp / 1_000_000_000 % 0x1_0000_0000 * 1_000_000_000
            && (q.payload.items == p.payload.items <==> AllWellFormed(p.payload.Command?, p.payload.items))
  {
    SealedOpens(m, p);
    SealNeedsEncoding(m, p);
    OpenedForm(m, Seal(m, p).value);
    ItemsRoundTripExactly(p.payload.Command?, p.payload.items);
    hide Seal, Open, DecodeItems, EncodeItems, AllWellFormed;
    var q := Open(m, Seal(m, p).value).value;
    assert q.payload == Content(q).payload == Delivered(p.payload) && q.mhdr == Content(q).mhdr;
  }

  /** The commands that are set, in order, each with its own value and the low byte of its type. */
  predicate AreSet(commands: seq<Option<(u32, bytes)>>, items: seq<Item>, at: seq<nat>) {
    && |at| == |items|
    && (forall j :: 0 <= j < |at| ==>
          && at[j] < |commands| && commands[at[j]].Some?
          && items[j] == Proprietary(commands[at[j]].value.0 % 0x100, commands[at[j]].value.1))
    && (forall i, j :: 0 <= i < j < |at| ==> at[i] < at[j])
    && forall k :: 0 <= k < |commands| && commands[k].Some? ==> k in at
  }

  lemma OneMoreSet(commands: seq<Option<(u32, bytes)>>, before: seq<Item>, at: seq<nat>) returns (all: seq<nat>)
    requires commands != [] && AreSet(commands[..|commands| - 1], before, at)
    ensures var last := commands[|commands| - 1];
            AreSet(commands,
                   before + if last.Some? then [Proprietary(last.value.0 % 0x100, last.value.1)] else [], all)
  {
    var n := |commands| - 1;
    all := at + if commands[n].Some? then [n] else [];
    forall k | 0 <= k < |commands| && commands[k].Some? ensures k in all {
      if k < n {
        assert commands[..n][k] == commands[k];
        assert k in at;
      } else {
        assert all[|at|] == n;
      }
    }
  }

  lemma {:induction false} SetCommandsExactly(commands: seq<Option<(u32, bytes)>>) returns (at: seq<nat>)
    ensures AreSet(commands, SetCommands(commands), at)
  {
    hide AreSet;
    if commands == [] {
      at := [];
      NoneSet();
    } else {
      at := SetCommandsExactly(commands[..|commands| - 1]);
      at := OneMoreSet(commands, SetCommands(commands[..|commands| - 1]), at);
    }
  }

  lemma NoneSet()
    ensures AreSet([], [], [])
  {
  }

  /**
    What a gateway sends for a list of mesh commands is heard everywhere as a command packet for the relay
    that the text names, of this second, with the commands that are set; exactly when no value is longer than
    255 bytes.
   */
  lemma CommandsAreSent(
    conf: Config, st: NodeState, relayId: string, commands: seq<Option<(u32, bytes)>>, env: Env)
    returns (items: seq<Item>, at: seq<nat>)
    ensures AreSet(commands, items, at)
    ensures var o := SendCommand(conf, st, relayId, commands, env).1;
            && (o.result.Ok? <==> o.out != [] && env.meshOk(0))
            && (o.out != [] <==> DecodeRelayId(relayId).Ok? && env.now >= 0 && conf.frequencies != [])
            && |o.out| <= 1
            && (o.out != [] ==>
                  && o.out[0].MeshFrame? && Open(KeysOf(conf), o.out[0].frame).Ok?
                  && var p := Open(KeysOf(conf), o.out[0].frame).value;
                     && p.mhdr.hopCount == 1 && p.payload.Command?
                     && DecodeRelayId(relayId) == Ok(p.payload.relayId)
                     && p.payload.timestamp == env.now / 1_000_000_000 % 0x1_0000_0000 * 1_000_000_000
                     && (p.payload.items == items <==>
                         forall i :: 0 <= i < |commands| && commands[i].Some? ==> |commands[i].value.1| <= 255))
  {
    items := SetCommands(commands);
    at := SetCommandsExactly(commands);
    hide Seal, Open, DecodeRelayId, SetCommands;
    var id := DecodeRelayId(relayId);
    if id.Ok? {
      var p := CommandPacket(env.now, id.value, commands);
      SentExactly(conf, st, p, env.meshOk(0));
      ItemsEncodeExactly(items);
      CommandsSeal(KeysOf(conf), env.now, id.value, commands);
      if Seal(KeysOf(conf), p).Ok? {
        ItemsSent(KeysOf(conf), p);
        SetIsWellFormed(commands, items, at);
      }
    }
  }

  lemma CommandsSeal(m: MeshKeys, now: SystemTime, id: Bytes4, commands: seq<Option<(u32, bytes)>>)
    ensures Seal(m, CommandPacket(now, id, commands)).Ok? <==> now >= 0
  {
    var p := CommandPacket(now, id, commands);
    ItemsEncodeExactly(p.payload.items);
    hide SetCommands, EncodeItems;
    if now >= 0 {
      SealsExactly(m, p);
    }
  }

  lemma SetIsWellFormed(commands: seq<Option<(u32, bytes)>>, items: seq<Item>, at: seq<nat>)
    requires AreSet(commands, items, at)
    ensures AllWellFormed(true, items) <==>
            forall i :: 0 <= i < |commands| && commands[i].Some? ==> |commands[i].value.1| <= 255
  {
    if AllWellFormed(true, items) {
      forall i | 0 <= i < |commands| && commands[i].Some? ensures |commands[i].value.1| <= 255 {
        assert i in at;
        var j :| 0 <= j < |at| && at[j] == i;
        assert WellFormed(true, items[j]);
      }
    }
  }
}
