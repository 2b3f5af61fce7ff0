/**
  What leaves a mesh for end devices: nothing but the answers that were sent into it, at the relay
  they were sent to, with the context that this relay kept for them.
 */
module MeshDeliveries {
  import opened Wrappers
  import opened Bytes
  import opened Seqs
  import opened Packets
  import opened Relaying
  import opened Gateway
  import opened NodeRuns
  import opened Network
  import opened MeshInvariant
  import opened MeshTheorems
  import opened MeshRuns
  import opened EndToEnd

  /** The transmission to a device carries the o-th original and the k-th context stored. */
  ghost predicate AnsweredBy(
    conf: Config, m: MeshKeys, originals: seq<bytes>, contexts: seq<bytes>, item: DownlinkItem, o: nat, k: nat)
  {
    && o < |originals| && 1 <= k <= |contexts| && Open(m, originals[o]).Ok?
    && var pl := Open(m, originals[o]).value.payload;
       && pl.Downlink? && pl.relayId == conf.relayId && pl.down.uplinkId == k % 4096
       && item.phyPayload == pl.phyPayload && item.txInfo.Some?
       && item.txInfo.value.frequency == pl.down.frequency
       && item.txInfo.value.timing == Some(DelayTiming(Some(Duration(pl.down.delay, 0))))
       && item.txInfo.value.context == contexts[k - 1]
  }

  /** A reception that makes a gateway transmit to a device is one of a downlink addressed to it. */
  lemma DeliveredItem(conf: Config, st: NodeState, rx: UplinkFrame, env: Env, i: nat)
    requires i < |HandleMesh(conf, st, rx, env).1.out| && HandleMesh(conf, st, rx, env).1.out[i].DeviceDownlink?
    ensures Open(KeysOf(conf), rx.phyPayload).Ok?
    ensures var p := Open(KeysOf(conf), rx.phyPayload).value;
            && p.payload.Downlink? && p.payload.relayId == conf.relayId
            && UnwrapDownlink(conf, st, p) == Ok(HandleMesh(conf, st, rx, env).1.out[i].item)
  {
    OnlyAddresseeDelivers(conf, st, rx, env, i);
    HandleMeshExactly(conf, st, rx, env);
    hide HandleMesh, Open;
  }

  lemma ActsDeliverNothing(conf: Config, st: NodeState, s: NodeRuns.Step)
    requires !s.op.Hear?
    ensures forall i :: 0 <= i < |Apply(conf, st, s).1| ==> !Apply(conf, st, s).1[i].DeviceDownlink?
  {
    match s.op {
      case DeviceUplink(_) =>
        hide SealAndTransmit;
      case ReportEvents(_) =>
        hide SealAndTransmit;
      case ServerDownlink(items) =>
        AttemptsSendOnly(conf, st, items, s.env, 0);
        hide Attempts;
      case MeshCommand(_, _) =>
        hide SealAndTransmit;
    }
  }

  lemma ItemAnswers(
    conf: Config, m: MeshKeys, st: NodeState, originals: seq<bytes>, contexts: seq<bytes>, pl: Payload, p: Packet,
    item: DownlinkItem, o: nat)
    requires p.payload == pl && pl.Downlink? && pl.relayId == conf.relayId && UnwrapDownlink(conf, st, p) == Ok(item)
    requires o < |originals| && Open(m, originals[o]).Ok? && Open(m, originals[o]).value.payload == pl
    requires st.contexts == StoreAll(contexts).1
    ensures LatestWithId(|contexts|, pl.down.uplinkId) >= 1
    ensures AnsweredBy(conf, m, originals, contexts, item, o, LatestWithId(|contexts|, pl.down.uplinkId))
  {
    hide Open, StoreAll;
    StoredExactly(contexts, pl.down.uplinkId);
  }

  /** At the moment of a transmission: the original it carries, and the latest context stored under its id. */
  lemma ReceptionDelivers(
    confs: seq<Config>, m: MeshKeys, steps: seq<NetStep>, i: nat, radio: Radio, env: Env, j: nat)
    returns (o: nat, k: nat)
    requires OneMesh(confs, m) && i < |RunNet(confs, steps).air|
    requires var s := RunNet(confs, steps);
             var n := s.air[i].node;
             var out := HandleMesh(confs[n], s.states[n], RxFrame(s.air[i].frame, radio), env).1.out;
             j < |out| && out[j].DeviceDownlink?
    ensures var s := RunNet(confs, steps);
            var n := s.air[i].node;
            var out := HandleMesh(confs[n], s.states[n], RxFrame(s.air[i].frame, radio), env).1.out;
            var contexts := Stored(confs[n], Projection(confs, steps, n));
            && o == s.air[i].origin && k == LatestWithId(|contexts|, k % 4096)
            && AnsweredBy(confs[n], m, s.originals, contexts, out[j].item, o, k)
  {
    hide HandleMesh, RunNet, Open, Run, Stored, StoreAll, Projection, AnsweredBy, UnwrapDownlink;
    var s := RunNet(confs, steps);
    var Reception(n, b, _) := s.air[i];
    var contexts := Stored(confs[n], Projection(confs, steps, n));
    o := s.air[i].origin;
    var via := EveryFrameIsDerived(confs, m, steps, i);
    DeliveredItem(confs[n], s.states[n], RxFrame(b, radio), env, j);
    HeardIsOriginal(confs, m, s, b, o, via);
    hide Derived;
    NodeOfNet(confs, steps, n);
    ContextsOverRun(confs[n], Projection(confs, steps, n));
    var p := Open(m, b).value;
    ItemAnswers(
      confs[n], m, s.states[n], s.originals, contexts, p.payload, p,
      HandleMesh(confs[n], s.states[n], RxFrame(b, radio), env).1.out[j].item, o);
    k := LatestWithId(|contexts|, p.payload.down.uplinkId);
    var item := HandleMesh(confs[n], s.states[n], RxFrame(b, radio), env).1.out[j].item;
    assert AnsweredBy(confs[n], m, s.originals, contexts, item, o, k);
  }

  // ---------- Over whole runs ----------

  ghost predicate Answered(
    conf: Config, m: MeshKeys, originals: seq<bytes>, contexts: seq<bytes>, item: DownlinkItem)
  {
    exists o, k :: AnsweredBy(conf, m, originals, contexts, item, o, k)
  }

  ghost predicate AllAnswered(
    conf: Config, m: MeshKeys, originals: seq<bytes>, contexts: seq<bytes>, out: seq<Output>)
  {
    forall j :: 0 <= j < |out| && out[j].DeviceDownlink? ==> Answered(conf, m, originals, contexts, out[j].item)
  }

  lemma StillAnswered(
    conf: Config, m: MeshKeys, originals: seq<bytes>, contexts: seq<bytes>,
    originals': seq<bytes>, contexts': seq<bytes>, out: seq<Output>)
    requires originals <= originals' && contexts <= contexts' && AllAnswered(conf, m, originals, contexts, out)
    ensures AllAnswered(conf, m, originals', contexts', out)
  {
    hide Open;
    forall j | 0 <= j < |out| && out[j].DeviceDownlink?
      ensures Answered(conf, m, originals', contexts', out[j].item)
    {
      assert Answered(conf, m, originals, contexts, out[j].item);
      var o: nat, k: nat :| AnsweredBy(conf, m, originals, contexts, out[j].item, o, k);
      assert AnsweredBy(conf, m, originals', contexts', out[j].item, o, k);
    }
  }

  lemma OriginalsGrowOne(confs: seq<Config>, steps: seq<NetStep>, step: NetStep)
    ensures RunNet(confs, steps).originals <= RunNet(confs, steps + [step]).originals
  {
    NetOne(confs, steps, step);
    hide RunNet, HandleMesh, Apply, Fresh, Broadcast;
  }

  lemma {:induction false} OriginalsGrow(confs: seq<Config>, steps: seq<NetStep>, more: seq<NetStep>)
    ensures RunNet(confs, steps).originals <= RunNet(confs, steps + more).originals
  {
    if more == [] {
      EmptyUnit(steps);
    } else {
      var init, last := more[..|more| - 1], more[|more| - 1];
      OriginalsGrow(confs, steps, init);
      OriginalsGrowOne(confs, steps + init, last);
      SplitLast(more);
      Associative(steps, init, [last]);
    }
  }

  lemma StoredGrows(confs: seq<Config>, steps: seq<NetStep>, more: seq<NetStep>, n: nat)
    ensures Stored(confs[n], Projection(confs, steps, n)) <= Stored(confs[n], Projection(confs, steps + more, n))
    requires n < |confs|
    decreases |more|
  {
    if more == [] {
      EmptyUnit(steps);
    } else {
      var init, last := more[..|more| - 1], more[|more| - 1];
      StoredGrows(confs, steps, init, n);
      SplitLast(more);
      Associative(steps, init, [last]);
      NetOne(confs, steps + init, last);
      StoredAppend(
        confs[n], Projection(confs, steps + init, n), StepOf(RunNet(confs, steps + init), last, n));
    }
  }

  /** What one step of the mesh hands to devices at gateway n. */
  lemma StepAnswers(confs: seq<Config>, m: MeshKeys, steps: seq<NetStep>, step: NetStep, n: nat)
    requires OneMesh(confs, m) && n < |confs|
    requires var own := StepOf(RunNet(confs, steps), step, n); own != []
    ensures var s, own := RunNet(confs, steps), StepOf(RunNet(confs, steps), step, n);
            AllAnswered(
              confs[n], m, s.originals, Stored(confs[n], Projection(confs, steps, n)),
              Apply(confs[n], s.states[n], own[0]).1)
  {
    hide RunNet, Projection, Stored, HandleMesh, AnsweredBy;
    var s := RunNet(confs, steps);
    match step {
      case Act(_, st, _) =>
        ActsDeliverNothing(confs[n], s.states[n], st);
      case Receive(i, radio, env, _) =>
        var out := HandleMesh(confs[n], s.states[n], RxFrame(s.air[i].frame, radio), env).1.out;
        forall j | 0 <= j < |out| && out[j].DeviceDownlink?
          ensures Answered(
                    confs[n], m, s.originals, Stored(confs[n], Projection(confs, steps, n)), out[j].item)
        {
          var o, k := ReceptionDelivers(confs, m, steps, i, radio, env, j);
        }
      case Lose(_) =>
    }
  }

  /**
    In every run of a mesh, all that a gateway ever transmits to a device is the payload of a downlink
    that was sent into the mesh for this gateway, with a context that it stored under the id of that
    downlink.
   */
  lemma {:induction false} OnlyAnswersAreDelivered(confs: seq<Config>, m: MeshKeys, steps: seq<NetStep>, n: nat)
    requires OneMesh(confs, m) && n < |confs|
    ensures AllAnswered(
              confs[n], m, RunNet(confs, steps).originals, Stored(confs[n], Projection(confs, steps, n)),
              RunNet(confs, steps).outputs[n])
  {
    hide AllAnswered, Next, Enabled, StepOf, Projection, Stored, Apply;
    if steps == [] {
      NothingAnswered(confs[n], m, Stored(confs[n], Projection(confs, steps, n)));
    } else {
      var init, last := steps[..|steps| - 1], steps[|steps| - 1];
      OnlyAnswersAreDelivered(confs, m, init, n);
      SplitLast(steps);
      OriginalsGrowOne(confs, init, last);
      StoredGrows(confs, init, [last], n);
      NetOne(confs, init, last);
      AnswersAfterStep(confs, m, init, last, n);
    }
  }

  lemma NothingAnswered(conf: Config, m: MeshKeys, contexts: seq<bytes>)
    ensures AllAnswered(conf, m, [], contexts, [])
  {
  }

  lemma AnswersAfterStep(confs: seq<Config>, m: MeshKeys, init: seq<NetStep>, last: NetStep, n: nat)
    requires OneMesh(confs, m) && n < |confs|
    requires AllAnswered(
               confs[n], m, RunNet(confs, init).originals, Stored(confs[n], Projection(confs, init, n)),
               RunNet(confs, init).outputs[n])
    ensures AllAnswered(
              confs[n], m, RunNet(confs, init + [last]).originals,
              Stored(confs[n], Projection(confs, init + [last], n)), RunNet(confs, init + [last]).outputs[n])
  {
    hide Next, Enabled, StepOf, Projection, Stored, Apply, RunNet, Answered;
    var s := RunNet(confs, init);
    var contexts := Stored(confs[n], Projection(confs, init, n));
    OriginalsGrowOne(confs, init, last);
    StoredGrows(confs, init, [last], n);
    NetOne(confs, init, last);
    if Enabled(s, last) {
      NodeAfterStep(confs, s, last, n);
      if StepOf(s, last, n) != [] {
        StepAnswers(confs, m, init, last, n);
      }
    }
    StillAnswered(
      confs[n], m, s.originals, contexts, RunNet(confs, init + [last]).originals,
      Stored(confs[n], Projection(confs, init + [last], n)), RunNet(confs, init + [last]).outputs[n]);
  }

  /** And no two gateways ever transmit the same downlink. */
  lemma OnlyOneRelayDelivers(
    confs: seq<Config>, m: MeshKeys, originals: seq<bytes>, a: nat, contextsA: seq<bytes>, itemA: DownlinkItem, kA: nat,
    b: nat, contextsB: seq<bytes>, itemB: DownlinkItem, kB: nat, o: nat)
    requires OneMesh(confs, m) && a < |confs| && b < |confs|
    requires AnsweredBy(confs[a], m, originals, contextsA, itemA, o, kA)
    requires AnsweredBy(confs[b], m, originals, contextsB, itemB, o, kB)
    ensures a == b
  {
  }

  // ---------- Commands ----------

  /** The payload is that of a command packet sent into the mesh for this gateway. */
  ghost predicate Ordered(conf: Config, m: MeshKeys, originals: seq<bytes>, pl: Payload) {
    && pl.Command? && pl.relayId == conf.relayId
    && exists o :: 0 <= o < |originals| && Open(m, originals[o]).Ok? && Open(m, originals[o]).value.payload == pl
  }

  ghost predicate AllOrdered(conf: Config, m: MeshKeys, originals: seq<bytes>, payloads: seq<Payload>) {
    forall i :: 0 <= i < |payloads| ==> Ordered(conf, m, originals, payloads[i])
  }

  lemma StillOrdered(conf: Config, m: MeshKeys, originals: seq<bytes>, originals': seq<bytes>, payloads: seq<Payload>)
    requires originals <= originals' && AllOrdered(conf, m, originals, payloads)
    ensures AllOrdered(conf, m, originals', payloads)
  {
    hide Open;
    forall i | 0 <= i < |payloads| ensures Ordered(conf, m, originals', payloads[i]) {
      assert Ordered(conf, m, originals, payloads[i]);
      var o :| 0 <= o < |originals| && Open(m, originals[o]).Ok? && Open(m, originals[o]).value.payload == payloads[i];
      assert originals'[o] == originals[o];
    }
  }

  lemma ExecutedOne(conf: Config, steps: seq<NodeRuns.Step>, st: NodeRuns.Step)
    ensures ExecutedOver(conf, steps + [st]) ==
            ExecutedOver(conf, steps) +
            if Executed(conf, Run(conf, steps).0, st).Some? then [Executed(conf, Run(conf, steps).0, st).value] else []
  {
    hide Run, Executed;
    assert (steps + [st])[..|steps|] == steps;
  }

  lemma StepOrdered(confs: seq<Config>, m: MeshKeys, steps: seq<NetStep>, step: NetStep, n: nat)
    requires OneMesh(confs, m) && n < |confs| && StepOf(RunNet(confs, steps), step, n) != []
    requires Executed(confs[n], RunNet(confs, steps).states[n], StepOf(RunNet(confs, steps), step, n)[0]).Some?
    ensures var pl := Executed(confs[n], RunNet(confs, steps).states[n], StepOf(RunNet(confs, steps), step, n)[0]);
            Ordered(confs[n], m, RunNet(confs, steps).originals, pl.value)
  {
    hide RunNet, Open;
    var s := RunNet(confs, steps);
    match step {
      case Act(_, _, _) =>
      case Receive(i, _, _, _) =>
        var via := EveryFrameIsDerived(confs, m, steps, i);
        HeardIsOriginal(confs, m, s, s.air[i].frame, s.air[i].origin, via);
      case Lose(_) =>
    }
  }

  /** In every run of a mesh, a gateway executes nothing but commands that were sent into the mesh for it. */
  lemma {:induction false} OnlyOrdersAreExecuted(confs: seq<Config>, m: MeshKeys, steps: seq<NetStep>, n: nat)
    requires OneMesh(confs, m) && n < |confs|
    ensures AllOrdered(
              confs[n], m, RunNet(confs, steps).originals, ExecutedOver(confs[n], Projection(confs, steps, n)))
  {
    hide Enabled, Next, StepOf, Ordered, Executed, Run;
    if steps != [] {
      var init, last := steps[..|steps| - 1], steps[|steps| - 1];
      OnlyOrdersAreExecuted(confs, m, init, n);
      SplitLast(steps);
      OriginalsGrowOne(confs, init, last);
      NetOne(confs, init, last);
      NodeOfNet(confs, init, n);
      hide RunNet, Projection, ExecutedOver;
      var s, own := RunNet(confs, init), Projection(confs, init, n);
      var st := StepOf(s, last, n);
      EmptyUnit(own);
      if st != [] {
        assert st == [st[0]];
        ExecutedOne(confs[n], own, st[0]);
        if Executed(confs[n], s.states[n], st[0]).Some? {
          StepOrdered(confs, m, init, last, n);
        }
      }
      StillOrdered(
        confs[n], m, s.originals, RunNet(confs, steps).originals, ExecutedOver(confs[n], Projection(confs, steps, n)));
    }
  }
}
