/**
  What a gateway hands on from the mesh, to its devices or to the network server: over any run, each
  of these belongs to one packet that it accepted, and none to the same packet again soon.
 */
module NodeDeliveries {
  import opened Seqs
  import opened Tlv
  import opened Packets
  import opened PayloadCache
  import opened Relaying
  import opened Cache
  import opened Gateway
  import opened NodeRuns
  import opened Network
  import opened MeshRuns
  import opened MeshDeliveries
  import opened ReceiverStreams

  predicate IsDelivery(o: Output) {
    o.DeviceDownlink? || o.ProxiedUplink? || o.ProxiedEvents?
  }

  function Deliveries(out: seq<Output>): (deliveries: seq<Output>)
  {
    if out == [] then [] else
    Deliveries(out[..|out| - 1]) + if IsDelivery(out[|out| - 1]) then [out[|out| - 1]] else []
  }

  /** What was handed on, for the packet of which key, and its place among all that were dispatched. */
  datatype Delivery = Delivery(key: PayloadKey, at: nat, out: Output)

  function DeliveredBy(conf: Config, st: NodeState, s: NodeRuns.Step, at: nat): (delivered: seq<Delivery>)
    ensures |delivered| <= 1
  {
    if !s.op.Hear? || !Fresh(conf, st, s.op.rx.phyPayload) then [] else
    var out := Deliveries(Apply(conf, st, s).1);
    if out == [] then [] else [Delivery(KeyOf(Open(KeysOf(conf), s.op.rx.phyPayload).value), at, out[0])]
  }

  function Delivered(conf: Config, steps: seq<NodeRuns.Step>): (delivered: seq<Delivery>)
  {
    if steps == [] then [] else
    var init, last := steps[..|steps| - 1], steps[|steps| - 1];
    Delivered(conf, init) + DeliveredBy(conf, Run(conf, init).0, last, |Handled(conf, init)|)
  }

  // ---------- At most one for each packet ----------

  lemma {:induction false} DeliveriesAppend(a: seq<Output>, b: seq<Output>)
    ensures Deliveries(a + b) == Deliveries(a) + Deliveries(b)
  {
    if b == [] {
      EmptyUnit(a);
      EmptyUnit(Deliveries(a));
    } else {
      var init, last := b[..|b| - 1], b[|b| - 1];
      assert (a + b)[..|a + b| - 1] == a + init;
      DeliveriesAppend(a, init);
      Associative(Deliveries(a), Deliveries(init), if IsDelivery(last) then [last] else []);
    }
  }

  lemma {:induction false} NoDeliveries(out: seq<Output>)
    requires forall i :: 0 <= i < |out| ==> !IsDelivery(out[i])
    ensures Deliveries(out) == []
  {
    if out != [] {
      NoDeliveries(out[..|out| - 1]);
    }
  }

  lemma FewDeliveries(out: seq<Output>)
    requires |out| <= 1
    ensures |Deliveries(out)| <= 1 && (Deliveries(out) != [] ==> out == Deliveries(out))
  {
    if out != [] {
      assert out[..0] == [];
      assert Deliveries([]) == [];
      assert out == [out[0]];
    }
  }

  /** The packet that a delivery comes from, as far as the delivery names it. */
  predicate Names(conf: Config, key: PayloadKey, o: Output) {
    match o
    case DeviceDownlink(_) => key.payloadType == DownlinkType && key.relayId == conf.relayId
    case ProxiedUplink(up) =>
      key.payloadType == UplinkType &&
      (up.rxInfo.Some? ==> up.rxInfo.value.context == BorderContext(key.relayId, key.uplinkId))
    case ProxiedEvents(relayId, t, _) =>
      key.payloadType == EventType && key.relayId == relayId && key.timestamp == KeySeconds(t)
    case _ => true
  }

  lemma PacketDelivers(conf: Config, st: NodeState, rx: UplinkFrame, p: Packet, env: Env)
    requires OpenForm(p)
    ensures var out := Deliveries(Dispatch(conf, st, rx, p, env).1.out);
            |out| <= 1 && (out != [] ==> Names(conf, KeyOf(p), out[0]))
  {
    hide ForwardPacket, ExecuteCommands, Deliveries;
    var out := Dispatch(conf, st, rx, p, env).1.out;
    if !conf.borderGateway && rx.rxInfo.Some? && p.payload.relayId != conf.relayId {
      NoDeliveries(out);
    } else if !conf.borderGateway && rx.rxInfo.Some? && p.payload.Command? {
      CommandDelivers(conf, st, p.payload, env);
    } else {
      FewDeliveries(out);
    }
  }

  lemma CommandDelivers(conf: Config, st: NodeState, pl: Payload, env: Env)
    requires pl.Command? && AllWellFormed(true, pl.items)
    ensures Deliveries(ExecuteCommands(conf, st, pl, env).1.out) == []
  {
    hide SealAndTransmit, Responses, Runs, Deliveries;
    NoDeliveries(ExecuteCommands(conf, st, pl, env).1.out);
  }

  /** A reception hands on what its dispatch hands on, and one that is no dispatch nothing. */
  lemma StepDelivers(conf: Config, st: NodeState, s: NodeRuns.Step, at: nat)
    requires s.op.Hear?
    ensures var out := Deliveries(Apply(conf, st, s).1);
            var delivered := DeliveredBy(conf, st, s, at);
            && |out| == |delivered|
            && (out != [] ==>
                  && delivered[0].out == out[0] && delivered[0].at == at
                  && Fresh(conf, st, s.op.rx.phyPayload)
                  && delivered[0].key == KeyOf(Open(KeysOf(conf), s.op.rx.phyPayload).value)
                  && Names(conf, delivered[0].key, out[0]))
  {
    hide HandleMesh, Dispatch, Open, KeyOf, Deliveries, Names;
    HandleMeshExactly(conf, st, s.op.rx, s.env);
    if Fresh(conf, st, s.op.rx.phyPayload) {
      var p := Open(KeysOf(conf), s.op.rx.phyPayload).value;
      PacketDelivers(conf, st.(seen := AddSpec(CACHE_SIZE, st.seen, KeyOf(p)).0), s.op.rx, p, s.env);
    } else {
      FewDeliveries([]);
    }
  }

  // ---------- Over runs ----------

  /** The deliveries stand in order at places of the dispatched packets, and each names its own. */
  predicate Placed(conf: Config, delivered: seq<Delivery>, keys: seq<PayloadKey>) {
    && (forall i :: 0 <= i < |delivered| ==>
          && delivered[i].at < |keys| && keys[delivered[i].at] == delivered[i].key
          && Names(conf, delivered[i].key, delivered[i].out))
    && forall i, j :: 0 <= i < j < |delivered| ==> delivered[i].at < delivered[j].at
  }

  lemma PlacedAppend(
    conf: Config, delivered: seq<Delivery>, keys: seq<PayloadKey>, more: seq<Delivery>, key: seq<PayloadKey>)
    requires Placed(conf, delivered, keys) && |more| <= 1
    requires more != [] ==>
               && key != [] && more[0].at == |keys| && more[0].key == key[0]
               && Names(conf, more[0].key, more[0].out)
    ensures Placed(conf, delivered + more, keys + key)
  {
    hide Names;
    var all := delivered + more;
    forall i | 0 <= i < |all|
      ensures && all[i].at < |keys + key| && (keys + key)[all[i].at] == all[i].key
              && Names(conf, all[i].key, all[i].out)
    {
      if i < |delivered| {
        assert all[i] == delivered[i];
      } else {
        assert all[i] == more[0];
      }
    }
  }

  lemma {:induction false} DeliveriesPlaced(conf: Config, steps: seq<NodeRuns.Step>)
    ensures Placed(conf, Delivered(conf, steps), Handled(conf, steps))
  {
    hide Run, DeliveredBy, Names, Open, KeyOf, Placed, Apply;
    if steps == [] {
      NothingPlaced(conf);
    } else {
      var init, last := steps[..|steps| - 1], steps[|steps| - 1];
      DeliveriesPlaced(conf, init);
      SplitLast(steps);
      HandledOne(conf, init, last);
      var st, before, keys := Run(conf, init).0, Delivered(conf, init), Handled(conf, init);
      var more := DeliveredBy(conf, st, last, |keys|);
      assert Delivered(conf, steps) == before + more;
      hide Delivered, Handled;
      if last.op.Hear? {
        StepDelivers(conf, st, last, |keys|);
      } else {
        NotHeard(conf, st, last, |keys|);
      }
      PlacedAppend(
        conf, before, keys, more,
        if last.op.Hear? && Fresh(conf, st, last.op.rx.phyPayload)
        then [KeyOf(Open(KeysOf(conf), last.op.rx.phyPayload).value)] else []);
    }
  }

  lemma NothingPlaced(conf: Config)
    ensures Placed(conf, Delivered(conf, []), Handled(conf, []))
  {
  }

  lemma NotHeard(conf: Config, st: NodeState, s: NodeRuns.Step, at: nat)
    requires !s.op.Hear?
    ensures DeliveredBy(conf, st, s, at) == []
  {
  }

  /** Between two deliveries for one key there are 64 other packets, all different from that one and from each other. */
  predicate FarApart(delivered: seq<Delivery>, keys: seq<PayloadKey>)
    requires forall i :: 0 <= i < |delivered| ==> delivered[i].at < |keys|
  {
    forall i, j :: 0 <= i < j < |delivered| && delivered[i].key == delivered[j].key ==>
                     && delivered[i].at + CACHE_SIZE < delivered[j].at
                     && NoDuplicates(keys[delivered[i].at..delivered[i].at + CACHE_SIZE + 1])
  }

  lemma PlacedFarApart(conf: Config, delivered: seq<Delivery>, keys: seq<PayloadKey>)
    requires Placed(conf, delivered, keys) && WellSpaced(CACHE_SIZE, keys)
    ensures FarApart(delivered, keys)
  {
    hide Names;
    forall i, j | 0 <= i < j < |delivered| && delivered[i].key == delivered[j].key
      ensures && delivered[i].at + CACHE_SIZE < delivered[j].at
              && NoDuplicates(keys[delivered[i].at..delivered[i].at + CACHE_SIZE + 1])
    {
      RepeatsFarApart(CACHE_SIZE, keys, delivered[i].at, delivered[j].at);
    }
  }

  /** Whatever a gateway hands on for a packet, it hands on once, until the cache may have forgotten the packet. */
  lemma DeliveriesFarApart(conf: Config, steps: seq<NodeRuns.Step>)
    ensures Placed(conf, Delivered(conf, steps), Handled(conf, steps))
    ensures FarApart(Delivered(conf, steps), Handled(conf, steps))
  {
    hide Delivered, Handled, Names, Arrivals;
    DeliveriesPlaced(conf, steps);
    HandledIsAccepted(conf, steps);
    AcceptedWellSpaced(CACHE_SIZE, Arrivals(conf, steps));
    PlacedFarApart(conf, Delivered(conf, steps), Handled(conf, steps));
  }

  /** All that a gateway ever transmits to devices, in order. */
  function DeviceItems(out: seq<Output>): (items: seq<Output>)
  {
    if out == [] then [] else
    DeviceItems(out[..|out| - 1]) + if out[|out| - 1].DeviceDownlink? then [out[|out| - 1]] else []
  }

  function Outs(delivered: seq<Delivery>): (out: seq<Output>)
    ensures |out| == |delivered|
  {
    seq(|delivered|, i requires 0 <= i < |delivered| => delivered[i].out)
  }

  lemma {:induction false} DeviceItemsAppend(a: seq<Output>, b: seq<Output>)
    ensures DeviceItems(a + b) == DeviceItems(a) + DeviceItems(b)
  {
    if b == [] {
      EmptyUnit(a);
      EmptyUnit(DeviceItems(a));
    } else {
      var init, last := b[..|b| - 1], b[|b| - 1];
      assert (a + b)[..|a + b| - 1] == a + init;
      DeviceItemsAppend(a, init);
      Associative(DeviceItems(a), DeviceItems(init), if last.DeviceDownlink? then [last] else []);
    }
  }

  lemma {:induction false} NoDeviceItems(out: seq<Output>)
    requires forall i :: 0 <= i < |out| ==> !out[i].DeviceDownlink?
    ensures DeviceItems(out) == []
  {
    if out != [] {
      NoDeviceItems(out[..|out| - 1]);
    }
  }

  lemma {:induction false} DeviceItemsOfDeliveries(out: seq<Output>)
    ensures DeviceItems(out) == DeviceItems(Deliveries(out))
  {
    if out != [] {
      var last := out[|out| - 1];
      DeviceItemsOfDeliveries(out[..|out| - 1]);
      DeviceItemsAppend(Deliveries(out[..|out| - 1]), [last]);
      EmptyUnit(Deliveries(out[..|out| - 1]));
      OneDeviceItem(last);
    }
  }

  lemma OneDeviceItem(o: Output)
    ensures DeviceItems([o]) == if o.DeviceDownlink? then [o] else []
  {
    assert [o][..0] == [];
    assert DeviceItems([]) == [];
  }

  /** The transmissions to devices over a run are those among its deliveries: all of them, in order. */
  lemma {:induction false} DeviceItemsDelivered(conf: Config, steps: seq<NodeRuns.Step>)
    ensures DeviceItems(Run(conf, steps).1) == DeviceItems(Outs(Delivered(conf, steps)))
  {
    hide Apply, DeliveredBy, Handled, DeviceItems;
    if steps == [] {
      assert Outs(Delivered(conf, steps)) == Run(conf, steps).1;
    } else {
      var init, last := steps[..|steps| - 1], steps[|steps| - 1];
      DeviceItemsDelivered(conf, init);
      var (st, out) := Run(conf, init);
      var before, more := Delivered(conf, init), DeliveredBy(conf, st, last, |Handled(conf, init)|);
      DeviceItemsAppend(out, Apply(conf, st, last).1);
      assert Outs(before + more) == Outs(before) + Outs(more);
      DeviceItemsAppend(Outs(before), Outs(more));
      ItemsOfStep(conf, st, last, |Handled(conf, init)|);
    }
  }

  lemma ItemsOfStep(conf: Config, st: NodeState, s: NodeRuns.Step, at: nat)
    ensures DeviceItems(Apply(conf, st, s).1) == DeviceItems(Outs(DeliveredBy(conf, st, s, at)))
  {
    hide Apply, DeliveredBy, DeviceItems, Deliveries, Names;
    if s.op.Hear? {
      StepDelivers(conf, st, s, at);
      DeviceItemsOfDeliveries(Apply(conf, st, s).1);
      assert Outs(DeliveredBy(conf, st, s, at)) == Deliveries(Apply(conf, st, s).1);
    } else {
      ActsDeliverNothing(conf, st, s);
      NoDeviceItems(Apply(conf, st, s).1);
      NotHeard(conf, st, s, at);
      NoDeviceItems([]);
    }
  }

  /**
    In every run of a mesh: the transmissions of a gateway to its devices are those of its deliveries,
    which stand at places of the packets that it accepted; two of them for one downlink key, or two of
    anything else that it hands on for one key, have 64 other, all different ones between them.
   */
  lemma MeshDeliveriesFarApart(confs: seq<Config>, steps: seq<NetStep>, n: nat)
    requires n < |confs|
    ensures var s, delivered := RunNet(confs, steps), Delivered(confs[n], Projection(confs, steps, n));
            && DeviceItems(s.outputs[n]) == DeviceItems(Outs(delivered))
            && Placed(confs[n], delivered, s.accepted[n])
            && FarApart(delivered, s.accepted[n])
  {
    hide RunNet, Projection, Run, Delivered, Handled, Arrivals, DeviceItems, Names, FarApart;
    var own := Projection(confs, steps, n);
    NodeOfNet(confs, steps, n);
    AcceptedOfNet(confs, steps, n);
    HandledIsAccepted(confs[n], own);
    DeviceItemsDelivered(confs[n], own);
    DeliveriesFarApart(confs[n], own);
  }
}
