/** A gateway in a mesh is a gateway: what it does in any run of the mesh is a run of its own. */
module MeshRuns {
  import opened Bytes
  import opened Seqs
  import opened Tlv
  import opened Packets
  import opened PayloadCache
  import opened Relaying
  import opened Cache
  import opened Gateway
  import opened NodeRuns
  import opened Network
  import opened MeshInvariant

  /** The step that gateway n takes, if the step of the mesh is one of its own. */
  function StepOf(s: Net, step: NetStep, n: nat): (steps: seq<NodeRuns.Step>)
    ensures |steps| <= 1
  {
    if !Enabled(s, step) then [] else
    match step
    case Act(k, st, _) => if k == n then [st] else []
    case Receive(i, radio, env, _) =>
      if s.air[i].node == n then [NodeRuns.Step(Hear(RxFrame(s.air[i].frame, radio)), env)] else []
    case Lose(_) => []
  }

  /** The steps of gateway n in a run of the mesh. */
  function Projection(confs: seq<Config>, steps: seq<NetStep>, n: nat): (own: seq<NodeRuns.Step>)
  {
    if steps == [] then [] else
    var init, last := steps[..|steps| - 1], steps[|steps| - 1];
    Projection(confs, init, n) + StepOf(RunNet(confs, init), last, n)
  }

  lemma RunOne(conf: Config, steps: seq<NodeRuns.Step>, st: NodeRuns.Step)
    ensures Run(conf, steps + [st]) ==
            (Apply(conf, Run(conf, steps).0, st).0, Run(conf, steps).1 + Apply(conf, Run(conf, steps).0, st).1)
  {
    assert (steps + [st])[..|steps|] == steps;
  }

  lemma NetOne(confs: seq<Config>, steps: seq<NetStep>, step: NetStep)
    ensures var s := RunNet(confs, steps);
            RunNet(confs, steps + [step]) == if Enabled(s, step) then Next(confs, s, step) else s
    ensures forall n: nat :: Projection(confs, steps + [step], n) ==
                             Projection(confs, steps, n) + StepOf(RunNet(confs, steps), step, n)
  {
    assert (steps + [step])[..|steps|] == steps;
  }

  /** One step of the mesh is, for each gateway, its own step or none. */
  lemma NodeAfterStep(confs: seq<Config>, s: Net, step: NetStep, n: nat)
    requires ShapeOk(confs, s) && Enabled(s, step) && n < |confs|
    ensures var s', own := Next(confs, s, step), StepOf(s, step, n);
            if own == [] then s'.states[n] == s.states[n] && s'.outputs[n] == s.outputs[n] else
              && s'.states[n] == Apply(confs[n], s.states[n], own[0]).0
              && s'.outputs[n] == s.outputs[n] + Apply(confs[n], s.states[n], own[0]).1
  {
    hide Frames, Broadcast, Fresh, IsForeign, HandleMesh, HandleUplink, HandleDownlink, SendEvents, SendCommand, KeyOf;
  }

  /** State and effects of a gateway in a mesh are those of its own run. */
  lemma {:induction false} NodeOfNet(confs: seq<Config>, steps: seq<NetStep>, n: nat)
    requires n < |confs|
    ensures var s := RunNet(confs, steps);
            (s.states[n], s.outputs[n]) == Run(confs[n], Projection(confs, steps, n))
  {
    hide Next, Apply, Enabled, StepOf;
    if steps != [] {
      var init, last := steps[..|steps| - 1], steps[|steps| - 1];
      NodeOfNet(confs, init, n);
      SplitLast(steps);
      NetOne(confs, init, last);
      var s, own := RunNet(confs, init), Projection(confs, init, n);
      var step := StepOf(s, last, n);
      EmptyUnit(own);
      NotEnabled(s, last, n);
      if Enabled(s, last) {
        NodeAfterStep(confs, s, last, n);
        if step != [] {
          assert step == [step[0]];
          RunOne(confs[n], own, step[0]);
        }
      }
    }
  }

  lemma NotEnabled(s: Net, step: NetStep, n: nat)
    ensures !Enabled(s, step) ==> StepOf(s, step, n) == []
  {
  }

  // ---------- What was accepted ----------

  lemma ArrivalsOne(conf: Config, steps: seq<NodeRuns.Step>, st: NodeRuns.Step)
    ensures Arrivals(conf, steps + [st]) ==
            Arrivals(conf, steps) +
            if st.op.Hear? && Open(KeysOf(conf), st.op.rx.phyPayload).Ok?
            then [KeyOf(Open(KeysOf(conf), st.op.rx.phyPayload).value)] else []
  {
    assert (steps + [st])[..|steps|] == steps;
  }

  /** What a step adds to the log of the keys accepted by gateway n. */
  lemma AcceptedAfterStep(confs: seq<Config>, s: Net, step: NetStep, n: nat)
    requires ShapeOk(confs, s) && Enabled(s, step) && n < |confs|
    ensures var own := StepOf(s, step, n);
            Next(confs, s, step).accepted[n] ==
            s.accepted[n] +
            if own != [] && own[0].op.Hear? && Fresh(confs[n], s.states[n], own[0].op.rx.phyPayload)
            then [KeyOf(Open(KeysOf(confs[n]), own[0].op.rx.phyPayload).value)] else []
  {
    hide Frames, Broadcast, Fresh, IsForeign, HandleMesh, Apply, KeyOf, Open;
    EmptyUnit(s.accepted[n]);
  }

  /** The log of accepted keys is what the cache of that size lets through of all that the gateway heard. */
  lemma {:induction false} AcceptedOfNet(confs: seq<Config>, steps: seq<NetStep>, n: nat)
    requires n < |confs|
    ensures RunNet(confs, steps).accepted[n] ==
            Accepted(CACHE_SIZE, Arrivals(confs[n], Projection(confs, steps, n)))
    ensures RunNet(confs, steps).states[n].seen == Last(CACHE_SIZE, RunNet(confs, steps).accepted[n])
  {
    hide Next, Enabled, StepOf, Arrivals, Open, KeyOf, Run;
    NodeOfNet(confs, steps, n);
    CacheOverRun(confs[n], Projection(confs, steps, n));
    if steps == [] {
      NoArrivals(confs[n]);
    } else {
      var init, last := steps[..|steps| - 1], steps[|steps| - 1];
      AcceptedOfNet(confs, init, n);
      SplitLast(steps);
      NetOne(confs, init, last);
      NotEnabled(RunNet(confs, init), last, n);
      EmptyUnit(Projection(confs, init, n));
      if Enabled(RunNet(confs, init), last) {
        AcceptedAfterStep(confs, RunNet(confs, init), last, n);
        AcceptedByOwnStep(confs[n], RunNet(confs, init), last, n, Projection(confs, init, n));
      }
    }
  }

  lemma NoArrivals(conf: Config)
    ensures Arrivals(conf, []) == []
  {
  }

  lemma AcceptedByOwnStep(conf: Config, s: Net, step: NetStep, n: nat, own: seq<NodeRuns.Step>)
    requires n < |s.states| && s.states[n].seen == RecentKeys(conf, own)
    ensures var st, accepted := StepOf(s, step, n), Accepted(CACHE_SIZE, Arrivals(conf, own));
            Accepted(CACHE_SIZE, Arrivals(conf, own + st)) ==
            accepted +
            if st != [] && st[0].op.Hear? && Fresh(conf, s.states[n], st[0].op.rx.phyPayload)
            then [KeyOf(Open(KeysOf(conf), st[0].op.rx.phyPayload).value)] else []
  {
    hide StepOf, Arrivals, Accepted, Last, Open, KeyOf;
    var st, before := StepOf(s, step, n), Arrivals(conf, own);
    EmptyUnit(own);
    EmptyUnit(before);
    EmptyUnit(Accepted(CACHE_SIZE, before));
    if st != [] {
      assert st == [st[0]];
      ArrivalsOne(conf, own, st[0]);
      if st[0].op.Hear? && Open(KeysOf(conf), st[0].op.rx.phyPayload).Ok? {
        AcceptedAppend(CACHE_SIZE, before, KeyOf(Open(KeysOf(conf), st[0].op.rx.phyPayload).value));
      }
    }
  }

  // ---------- Commands ----------

  /**
    In every run of a mesh each gateway runs commands at most once: the payloads it executes carry
    strictly increasing times, and the commands it runs are exactly theirs, in order.
   */
  lemma MeshCommandsRunAtMostOnce(confs: seq<Config>, steps: seq<NetStep>, n: nat)
    requires n < |confs|
    ensures var executed := ExecutedOver(confs[n], Projection(confs, steps, n));
            && TimesIncrease(executed)
            && CommandsRun(RunNet(confs, steps).outputs[n]) == RunsOf(executed)
  {
    hide Run, Projection, RunNet;
    NodeOfNet(confs, steps, n);
    CommandsRunAtMostOnce(confs[n], Projection(confs, steps, n));
  }

  /** What is heard of a packet without heartbeats is an original, but for the hops. */
  lemma HeardIsOriginal(confs: seq<Config>, m: MeshKeys, s: Net, f: bytes, o: nat, via: seq<Hop>)
    requires ShapeOk(confs, s) && Derived(confs, m, s, f, o, via)
    requires !Open(m, f).value.payload.Event? || !Open(m, s.originals[o]).value.payload.Event?
    ensures Open(m, f).value.payload == Open(m, s.originals[o]).value.payload
    ensures Open(m, f).value.mhdr.hopCount == 1 + |via|
  {
    var p0, p := Open(m, s.originals[o]).value, Open(m, f).value;
    OpenedForm(m, f);
    OpenedForm(m, s.originals[o]);
    hide Open, PassedBy;
    SameKeySameKind(p, p0);
    assert RoomFor(p0.payload, |via|);
    assert p.payload == Content(p).payload == AdvanceBy(p0, via).payload;
  }

  lemma SameKeySameKind(p: Packet, q: Packet)
    requires OpenForm(p) && OpenForm(q) && KeyOf(p) == KeyOf(q)
    ensures TypeOf(p.payload) == TypeOf(q.payload)
  {
  }
}
