/**
  The uplinks that a gateway of a mesh hears, labelled by what really happened: a reception is the
  first one of its original at this gateway, or another one; and an original has the number that its
  sender counted.
 */
module MeshStreams {
  import opened Wrappers
  import opened Bytes
  import opened Seqs
  import opened Packets
  import opened PayloadCache
  import opened Relaying
  import opened Cache
  import opened Gateway
  import opened Hex
  import opened NodeRuns
  import opened UplinkStream
  import opened Network
  import opened MeshInvariant
  import opened MeshTheorems
  import opened MeshRuns
  import opened MeshDeliveries
  import opened EndToEnd
  import opened ReceiverStreams

  /** The gateway that takes a step. */
  function Actor(s: Net, step: NetStep): (n: nat) {
    match step
    case Act(n, _, _) => n
    case Receive(i, _, _, _) => if i < |s.air| then s.air[i].node else 0
    case Lose(_) => 0
  }

  /** The number of an original: how many contexts its sender had stored when it sent it. */
  function NumberOf(confs: seq<Config>, steps: seq<NetStep>, o: nat): (number: nat)
  {
    if steps == [] then 0 else
    var init, last := steps[..|steps| - 1], steps[|steps| - 1];
    var n := Actor(RunNet(confs, init), last);
    if o < |RunNet(confs, init).originals| || n >= |confs| then NumberOf(confs, init, o)
    else |Stored(confs[n], Projection(confs, steps, n))|
  }

  /** The step is a reception of the o-th original by gateway n. */
  predicate HeardBy(s: Net, step: NetStep, n: nat, o: nat) {
    step.Receive? && step.index < |s.air| && s.air[step.index].node == n && s.air[step.index].origin == o
  }

  /** Gateway n has heard the o-th original. */
  predicate HasHeard(confs: seq<Config>, steps: seq<NetStep>, n: nat, o: nat)
  {
    steps != [] &&
    var init, last := steps[..|steps| - 1], steps[|steps| - 1];
    HasHeard(confs, init, n, o) || HeardBy(RunNet(confs, init), last, n, o)
  }

  /** The label of the reception that the step makes at gateway n, if it makes one. */
  function LabelOf(confs: seq<Config>, steps: seq<NetStep>, step: NetStep, n: nat): (labels: seq<Arrival>)
    ensures |labels| <= 1
  {
    var s := RunNet(confs, steps);
    if !step.Receive? || step.index >= |s.air| || s.air[step.index].node != n then [] else
    var Reception(_, b, o) := s.air[step.index];
    if n >= |confs| || Open(KeysOf(confs[n]), b).Err? then [] else
    var p := Open(KeysOf(confs[n]), b).value;
    if !p.payload.Uplink? then [Foreign(KeyOf(p))]
    else if HasHeard(confs, steps, n, o) then [Repeat(KeyOf(p))]
    else [Original(p.payload.relayId, NumberOf(confs, steps, o))]
  }

  /** All that gateway n has heard, labelled. */
  function Labels(confs: seq<Config>, steps: seq<NetStep>, n: nat): (arrivals: seq<Arrival>)
  {
    if steps == [] then [] else
    var init, last := steps[..|steps| - 1], steps[|steps| - 1];
    Labels(confs, init, n) + LabelOf(confs, init, last, n)
  }

  /** Gateway n took each uplink for new when it first heard it, and no copy of it after that. */
  predicate TakenOnce(confs: seq<Config>, steps: seq<NetStep>, n: nat)
    requires n < |confs|
  {
    steps == [] ||
    var init, last := steps[..|steps| - 1], steps[|steps| - 1];
    && TakenOnce(confs, init, n)
    && TakenByStep(confs, init, last, n)
  }

  predicate TakenByStep(confs: seq<Config>, steps: seq<NetStep>, step: NetStep, n: nat)
    requires n < |confs|
  {
    var s := RunNet(confs, steps);
    step.Receive? && step.index < |s.air| && s.air[step.index].node == n ==>
      var Reception(_, b, o) := s.air[step.index];
      Open(KeysOf(confs[n]), b).Ok? && Open(KeysOf(confs[n]), b).value.payload.Uplink? ==>
        (Fresh(confs[n], s.states[n], b) <==> !HasHeard(confs, steps, n, o))
  }

  // ---------- The numbers are the senders' ----------

  /** Every uplink among the originals has the key of its number. */
  ghost predicate Numbered(confs: seq<Config>, m: MeshKeys, steps: seq<NetStep>) {
    forall o :: 0 <= o < |RunNet(confs, steps).originals| ==> NumberedOne(confs, m, steps, o)
  }

  ghost predicate NumberedOne(confs: seq<Config>, m: MeshKeys, steps: seq<NetStep>, o: nat)
    requires o < |RunNet(confs, steps).originals|
  {
    HasNumber(m, RunNet(confs, steps).originals[o], NumberOf(confs, steps, o))
  }

  predicate HasNumber(m: MeshKeys, f: bytes, number: nat) {
    && Open(m, f).Ok?
    && var p := Open(m, f).value;
       p.payload.Uplink? ==> KeyOf(p) == ArrivalKey(Original(p.payload.relayId, number))
  }

  predicate NoUplink(m: MeshKeys, f: bytes) {
    Open(m, f).Ok? && !Open(m, f).value.payload.Uplink?
  }

  lemma SealedKind(m: MeshKeys, p: Packet)
    requires Seal(m, p).Ok? && p.mhdr.payloadType == TypeOf(p.payload) && !p.payload.Uplink?
    ensures NoUplink(m, Seal(m, p).value)
  {
    SealedHeader(m, p);
    OpenedForm(m, Seal(m, p).value);
  }

  lemma SentKind(conf: Config, st: NodeState, p: Packet, ok: bool)
    requires p.mhdr.payloadType == TypeOf(p.payload) && !p.payload.Uplink?
    ensures forall f <- Frames(SealAndTransmit(conf, st, p, ok).1.out) :: NoUplink(KeysOf(conf), f)
  {
    hide Seal, SealAndTransmit, NoUplink;
    FramesOfSend(conf, st, p, ok);
    if Seal(KeysOf(conf), p).Ok? {
      SealedKind(KeysOf(conf), p);
    }
  }

  lemma {:induction false} AttemptsKind(conf: Config, st: NodeState, items: seq<DownlinkItem>, env: Env, i: nat)
    requires i <= |items|
    ensures forall f <- Frames(Attempts(conf, st, items, env, i).1.out) :: NoUplink(KeysOf(conf), f)
    decreases |items| - i
  {
    hide NoUplink, Frames, PrepareDownlink;
    NoFrames([]);
    if i < |items| {
      var (st', sent) := PrepareDownlink(conf, st, items[i]);
      if sent.Ok? {
        PreparedKind(conf, st, items[i]);
        OneFrame([sent.value]);
        if !env.meshOk(i) {
          AttemptsKind(conf, st', items, env, i + 1);
          FramesAppend([sent.value], Attempts(conf, st', items, env, i + 1).1.out);
        }
      }
    }
  }

  lemma PreparedKind(conf: Config, st: NodeState, item: DownlinkItem)
    requires PrepareDownlink(conf, st, item).1.Ok?
    ensures var sent := PrepareDownlink(conf, st, item).1.value;
            sent.MeshFrame? && NoUplink(KeysOf(conf), sent.frame)
  {
    hide Seal, NoUplink;
    SealedKind(KeysOf(conf), DownlinkPacket(conf, item).value);
  }

  /** The step is one in which a relay takes an uplink of a device. */
  predicate TakesUplink(conf: Config, s: NodeRuns.Step) {
    s.op.DeviceUplink? && !conf.borderGateway
  }

  lemma ServerKind(conf: Config, st: NodeState, items: seq<DownlinkItem>, env: Env)
    ensures forall f <- Frames(HandleDownlink(conf, st, items, env).1.out) :: NoUplink(KeysOf(conf), f)
  {
    hide Attempts, NoUplink, Frames, FormatDownlink;
    NoFrames([]);
    OneFrame(ProxyDirectDownlink(conf, items, env).out);
    AttemptsKind(conf, st, items, env, 0);
  }

  lemma CommandKind(conf: Config, st: NodeState, relayId: string, commands: seq<Option<(u32, bytes)>>, env: Env)
    ensures forall f <- Frames(SendCommand(conf, st, relayId, commands, env).1.out) :: NoUplink(KeysOf(conf), f)
  {
    hide SealAndTransmit, NoUplink, Frames, SetCommands;
    NoFrames([]);
    var id := DecodeRelayId(relayId);
    if id.Ok? {
      SentKind(conf, st, CommandPacket(env.now, id.value, commands), env.meshOk(0));
    }
  }

  /** Nothing else that a gateway sends of its own accord is an uplink. */
  lemma ActsKind(conf: Config, st: NodeState, s: NodeRuns.Step)
    requires !s.op.Hear? && !TakesUplink(conf, s)
    ensures forall f <- Frames(Apply(conf, st, s).1) :: NoUplink(KeysOf(conf), f)
  {
    hide SealAndTransmit, HandleDownlink, SendCommand, NoUplink, FormatUplink, Frames;
    match s.op {
      case DeviceUplink(up) =>
        OneFrame(ProxyDirectUplink(conf, up, s.env).out);
      case ReportEvents(items) =>
        SentKind(conf, st, EventPacket(conf, s.env.now, items), s.env.meshOk(0));
      case ServerDownlink(items) =>
        ServerKind(conf, st, items, s.env);
      case MeshCommand(relayId, commands) =>
        CommandKind(conf, st, relayId, commands, s.env);
    }
  }

  lemma UplinkNumbered(conf: Config, own: seq<NodeRuns.Step>, st: NodeRuns.Step)
    requires TakesUplink(conf, st)
    ensures var frames := Frames(Apply(conf, Run(conf, own).0, st).1);
            forall f <- frames :: HasNumber(KeysOf(conf), f, |Stored(conf, own + [st])|)
  {
    hide Run, Stored, RelayUplink, Open, KeyOf, HasNumber;
    var out := RelayUplink(conf, Run(conf, own).0, st.op.up, st.env).1.out;
    FramesOfUplink(conf, Run(conf, own).0, st.op.up, st.env);
    if out != [] {
      var f, freq := out[0].frame, out[0].frequency;
      UplinkIsNumbered(conf, own, st.op.up, st.env, f, freq);
      UplinkContent(conf, Run(conf, own).0, st.op.up, st.env, f, freq);
      StoredOneMore(conf, own, st);
      KeyHasNumber(conf, f, |Stored(conf, own)| + 1);
    }
  }

  lemma KeyHasNumber(conf: Config, f: bytes, number: nat)
    requires Open(KeysOf(conf), f).Ok?
    requires KeyOf(Open(KeysOf(conf), f).value) == ArrivalKey(Original(conf.relayId, number))
    ensures HasNumber(KeysOf(conf), f, number)
  {
    hide Open;
  }

  lemma FramesOfUplink(conf: Config, st: NodeState, up: UplinkFrame, env: Env)
    ensures var out := RelayUplink(conf, st, up, env).1.out;
            && Frames(out) == (if out == [] then [] else [out[0].frame])
            && (out != [] ==> out == [MeshFrame(out[0].frame, out[0].frequency)])
  {
    hide Seal;
    OneFrame(RelayUplink(conf, st, up, env).1.out);
  }

  lemma StoredOneMore(conf: Config, own: seq<NodeRuns.Step>, st: NodeRuns.Step)
    requires TakesUplink(conf, st) && st.op.up.rxInfo.Some? && st.op.up.txInfo.Some?
    requires st.op.up.txInfo.value.modulation.Some?
    ensures |Stored(conf, own + [st])| == |Stored(conf, own)| + 1
  {
    assert (own + [st])[..|own|] == own;
  }

  lemma NoUplinkHasNumber(m: MeshKeys, f: bytes, number: nat)
    requires NoUplink(m, f)
    ensures HasNumber(m, f, number)
  {
    hide Open;
  }

  lemma ActNumbered(conf: Config, own: seq<NodeRuns.Step>, st: NodeRuns.Step)
    requires !st.op.Hear?
    ensures forall f <- Frames(Apply(conf, Run(conf, own).0, st).1) ::
              HasNumber(KeysOf(conf), f, |Stored(conf, own + [st])|)
  {
    hide Run, Apply, Stored, NoUplink, HasNumber, Frames;
    if TakesUplink(conf, st) {
      UplinkNumbered(conf, own, st);
    } else {
      ActsKind(conf, Run(conf, own).0, st);
      forall f <- Frames(Apply(conf, Run(conf, own).0, st).1)
        ensures HasNumber(KeysOf(conf), f, |Stored(conf, own + [st])|)
      {
        NoUplinkHasNumber(KeysOf(conf), f, |Stored(conf, own + [st])|);
      }
    }
  }

  lemma ResponseNumbered(conf: Config, st: NodeState, rx: UplinkFrame, env: Env, number: nat)
    requires !IsForeign(conf, rx.phyPayload)
    ensures forall f <- Frames(HandleMesh(conf, st, rx, env).1.out) :: HasNumber(KeysOf(conf), f, number)
  {
    hide HandleMesh, Open, Seal, NoUplink, HasNumber, Frames, Fresh;
    FramesOfReception(conf, st, rx, env);
    var frames := Frames(HandleMesh(conf, st, rx, env).1.out);
    if frames != [] {
      var items :| Seal(KeysOf(conf), EventPacket(conf, env.now, items)) == Ok(frames[0]);
      SealedKind(KeysOf(conf), EventPacket(conf, env.now, items));
      NoUplinkHasNumber(KeysOf(conf), frames[0], number);
    }
  }

  lemma OriginalsAfter(confs: seq<Config>, s: Net, step: NetStep)
    requires ShapeOk(confs, s) && Enabled(s, step)
    ensures var s' := Next(confs, s, step);
            match step
            case Act(n, st, _) => s'.originals == s.originals + Frames(Apply(confs[n], s.states[n], st).1)
            case Receive(i, radio, env, _) =>
              var Reception(n, b, _) := s.air[i];
              s'.originals ==
              if IsForeign(confs[n], b) then s.originals
              else s.originals + Frames(HandleMesh(confs[n], s.states[n], RxFrame(b, radio), env).1.out)
            case Lose(_) => s'.originals == s.originals
  {
    hide HandleMesh, Apply, Fresh, IsForeign, Open, KeyOf, Broadcast, Frames;
  }

  /** The originals that a step adds have the numbers that their sender's count gives them. */
  lemma NewNumbers(confs: seq<Config>, m: MeshKeys, steps: seq<NetStep>, step: NetStep, o: nat)
    requires OneMesh(confs, m)
    requires |RunNet(confs, steps).originals| <= o < |RunNet(confs, steps + [step]).originals|
    ensures var n := Actor(RunNet(confs, steps), step);
            && n < |confs|
            && HasNumber(m, RunNet(confs, steps + [step]).originals[o],
                         |Stored(confs[n], Projection(confs, steps + [step], n))|)
  {
    hide RunNet, Run, Projection, Stored, HandleMesh, Apply, HasNumber, Frames, Next;
    NetOne(confs, steps, step);
    var s, n := RunNet(confs, steps), Actor(RunNet(confs, steps), step);
    assert Enabled(s, step);
    OriginalsAfter(confs, s, step);
    match step {
      case Act(_, st, _) =>
        NodeOfNet(confs, steps, n);
        ActNumbered(confs[n], Projection(confs, steps, n), st);
      case Receive(i, radio, env, _) =>
        var number := |Stored(confs[n], Projection(confs, steps + [step], n))|;
        if !IsForeign(confs[n], s.air[i].frame) {
          ResponseNumbered(confs[n], s.states[n], RxFrame(s.air[i].frame, radio), env, number);
        }
      case Lose(_) =>
    }
  }

  lemma NumberOfOne(confs: seq<Config>, steps: seq<NetStep>, step: NetStep, o: nat)
    ensures var n := Actor(RunNet(confs, steps), step);
            NumberOf(confs, steps + [step], o) ==
            if o < |RunNet(confs, steps).originals| || n >= |confs| then NumberOf(confs, steps, o)
            else |Stored(confs[n], Projection(confs, steps + [step], n))|
  {
    hide RunNet, Projection, Stored;
    assert (steps + [step])[..|steps|] == steps;
  }

  lemma {:induction false} EveryOriginalIsNumbered(confs: seq<Config>, m: MeshKeys, steps: seq<NetStep>)
    requires OneMesh(confs, m)
    ensures Numbered(confs, m, steps)
  {
    if steps != [] {
      var init, last := steps[..|steps| - 1], steps[|steps| - 1];
      EveryOriginalIsNumbered(confs, m, init);
      SplitLast(steps);
      OriginalsGrowOne(confs, init, last);
      NetOne(confs, init, last);
      hide RunNet, NumberOf, HasNumber, Enabled, Next, Stored, Projection, Actor;
      var s, s' := RunNet(confs, init), RunNet(confs, init + [last]);
      forall o | 0 <= o < |s'.originals| ensures NumberedOne(confs, m, init + [last], o) {
        NumberOfOne(confs, init, last, o);
        if o < |s.originals| {
          assert NumberedOne(confs, m, init, o);
        } else {
          NewNumbers(confs, m, init, last, o);
        }
      }
    }
  }

  // ---------- The labels are what the gateway hears ----------

  lemma LabelKey(confs: seq<Config>, m: MeshKeys, steps: seq<NetStep>, i: nat)
    requires OneMesh(confs, m) && i < |RunNet(confs, steps).air|
    ensures var Reception(n, b, o) := RunNet(confs, steps).air[i];
            && Open(m, b).Ok?
            && var p := Open(m, b).value;
               p.payload.Uplink? ==> KeyOf(p) == ArrivalKey(Original(p.payload.relayId, NumberOf(confs, steps, o)))
  {
    hide RunNet, Open, KeyOf, NumberOf, AdvanceBy, RoomFor, PassedBy, OneMesh;
    var s := RunNet(confs, steps);
    var Reception(_, b, o) := s.air[i];
    var via := EveryFrameIsDerived(confs, m, steps, i);
    EveryOriginalIsNumbered(confs, m, steps);
    assert NumberedOne(confs, m, steps, o);
    OpenedForm(m, b);
    OpenedForm(m, s.originals[o]);
    SameKeySameKind(Open(m, b).value, Open(m, s.originals[o]).value);
  }

  lemma LabelIsArrival(confs: seq<Config>, m: MeshKeys, steps: seq<NetStep>, step: NetStep, n: nat)
    requires OneMesh(confs, m) && n < |confs|
    ensures var own, labels := StepOf(RunNet(confs, steps), step, n), LabelOf(confs, steps, step, n);
            if own != [] && own[0].op.Hear? && Open(KeysOf(confs[n]), own[0].op.rx.phyPayload).Ok?
            then labels != [] && ArrivalKey(labels[0]) == KeyOf(Open(KeysOf(confs[n]), own[0].op.rx.phyPayload).value)
            else labels == []
  {
    hide RunNet, Open, KeyOf, NumberOf, HasHeard;
    if step.Receive? && step.index < |RunNet(confs, steps).air| {
      LabelKey(confs, m, steps, step.index);
    }
  }

  lemma LabelsOne(confs: seq<Config>, steps: seq<NetStep>, step: NetStep, n: nat)
    ensures Labels(confs, steps + [step], n) == Labels(confs, steps, n) + LabelOf(confs, steps, step, n)
  {
    hide LabelOf;
    assert (steps + [step])[..|steps|] == steps;
  }

  /** One more step, on both sides. */
  lemma LabelAfterStep(conf: Config, own: seq<NodeRuns.Step>, more: seq<NodeRuns.Step>,
                       arrivals: seq<Arrival>, labels: seq<Arrival>)
    requires |more| <= 1 && |labels| <= 1 && Keys(arrivals) == Arrivals(conf, own)
    requires if more != [] && more[0].op.Hear? && Open(KeysOf(conf), more[0].op.rx.phyPayload).Ok?
             then labels != [] && ArrivalKey(labels[0]) == KeyOf(Open(KeysOf(conf), more[0].op.rx.phyPayload).value)
             else labels == []
    ensures Keys(arrivals + labels) == Arrivals(conf, own + more)
  {
    hide Arrivals, Open, KeyOf, ArrivalKey;
    EmptyUnit(own);
    EmptyUnit(arrivals);
    EmptyUnit(Keys(arrivals));
    if more != [] {
      assert more == [more[0]];
      ArrivalsOne(conf, own, more[0]);
    }
    if labels != [] {
      assert labels == [labels[0]];
      KeysAppend(arrivals, labels[0]);
    }
  }

  /** Read as keys, the labels of a gateway are the arrivals of its own run. */
  lemma {:induction false} LabelsAreArrivals(confs: seq<Config>, m: MeshKeys, steps: seq<NetStep>, n: nat)
    requires OneMesh(confs, m) && n < |confs|
    ensures Keys(Labels(confs, steps, n)) == Arrivals(confs[n], Projection(confs, steps, n))
  {
    hide OneMesh, LabelOf, StepOf, Open, KeyOf, ArrivalKey, RunNet, Arrivals, Keys;
    if steps == [] {
      NoArrivals(confs[n]);
      KeysOfNone();
    } else {
      var init, last := steps[..|steps| - 1], steps[|steps| - 1];
      LabelsAreArrivals(confs, m, init, n);
      LabelIsArrival(confs, m, init, last, n);
      LabelAfterStep(
        confs[n], Projection(confs, init, n), StepOf(RunNet(confs, init), last, n), Labels(confs, init, n),
        LabelOf(confs, init, last, n));
    }
  }

  lemma KeysOfNone()
    ensures Keys([]) == []
  {
  }

  // ---------- Every new uplink is taken, and taken once ----------

  lemma InOrderLast(arrivals: seq<Arrival>, a: Arrival, gap: nat)
    requires InOrder(arrivals + [a], gap)
    ensures InOrder(arrivals, gap)
    ensures a.Repeat? ==> a.key in Last(CACHE_SIZE, Taken(arrivals))
  {
    assert (arrivals + [a])[..|arrivals|] == arrivals;
  }

  lemma LabelTaken(
    confs: seq<Config>, m: MeshKeys, steps: seq<NetStep>, step: NetStep, n: nat, gap: nat)
    requires OneMesh(confs, m) && n < |confs| && gap <= 63
    requires InOrder(Labels(confs, steps, n) + LabelOf(confs, steps, step, n), gap)
    ensures TakenByStep(confs, steps, step, n)
    ensures InOrder(Labels(confs, steps, n), gap)
  {
    hide OneMesh, RunNet, Open, KeyOf, NumberOf, HasHeard, InOrder, Labels, Accepted, Last, Run, Projection, Arrivals;
    var labels, arrivals := LabelOf(confs, steps, step, n), Labels(confs, steps, n);
    EmptyUnit(arrivals);
    if labels != [] {
      var own := Projection(confs, steps, n);
      assert labels == [labels[0]];
      InOrderLast(arrivals, labels[0], gap);
      LabelsAreArrivals(confs, m, steps, n);
      LabelIsArrival(confs, m, steps, step, n);
      NodeOfNet(confs, steps, n);
      CacheOverRun(confs[n], own);
      if labels[0].Original? {
        NextUplinkIsFresh(confs[n], own, arrivals, gap, labels[0], RunNet(confs, steps).air[step.index].frame);
      }
    }
  }

  /**
    No false drops in any run of a mesh: if a gateway first hears the uplinks of each relay in order,
    with at most 62 missed in a row, and further copies while their keys are in its cache, then it
    takes every uplink that it hears for new when it first hears it, and never again.
   */
  lemma {:induction false} UplinksTakenOnce(
    confs: seq<Config>, m: MeshKeys, steps: seq<NetStep>, n: nat, gap: nat)
    requires OneMesh(confs, m) && n < |confs| && gap <= 63 && InOrder(Labels(confs, steps, n), gap)
    ensures TakenOnce(confs, steps, n)
  {
    hide OneMesh, LabelOf, InOrder, TakenByStep, RunNet;
    if steps != [] {
      var init, last := steps[..|steps| - 1], steps[|steps| - 1];
      LabelTaken(confs, m, init, last, n, gap);
      UplinksTakenOnce(confs, m, init, n, gap);
    }
  }

  /** How often gateway n dispatched the o-th original. */
  function Dispatches(confs: seq<Config>, steps: seq<NetStep>, n: nat, o: nat): (k: nat)
    requires n < |confs|
  {
    if steps == [] then 0 else
    var init, last := steps[..|steps| - 1], steps[|steps| - 1];
    var s := RunNet(confs, init);
    Dispatches(confs, init, n, o) +
    if HeardBy(s, last, n, o) && Fresh(confs[n], s.states[n], s.air[last.index].frame) then 1 else 0
  }

  lemma HeardKind(confs: seq<Config>, m: MeshKeys, steps: seq<NetStep>, i: nat)
    requires OneMesh(confs, m) && i < |RunNet(confs, steps).air|
    ensures var s := RunNet(confs, steps);
            var Reception(_, b, o) := s.air[i];
            && o < |s.originals| && Open(m, b).Ok? && Open(m, s.originals[o]).Ok?
            && (Open(m, b).value.payload.Uplink? <==> Open(m, s.originals[o]).value.payload.Uplink?)
  {
    hide RunNet, Open, KeyOf, AdvanceBy, RoomFor, PassedBy, OneMesh;
    var s := RunNet(confs, steps);
    var Reception(_, b, o) := s.air[i];
    var via := EveryFrameIsDerived(confs, m, steps, i);
    OpenedForm(m, b);
    OpenedForm(m, s.originals[o]);
    SameKeySameKind(Open(m, b).value, Open(m, s.originals[o]).value);
  }

  /** So each uplink that it hears at all, however often and over whatever relays, is dispatched exactly once. */
  lemma {:induction false} UplinksDispatchedOnce(
    confs: seq<Config>, m: MeshKeys, steps: seq<NetStep>, n: nat, o: nat, f: bytes)
    requires OneMesh(confs, m) && n < |confs| && TakenOnce(confs, steps, n)
    requires Open(m, f).Ok? && Open(m, f).value.payload.Uplink?
    requires o < |RunNet(confs, steps).originals| && RunNet(confs, steps).originals[o] == f
    ensures Dispatches(confs, steps, n, o) == if HasHeard(confs, steps, n, o) then 1 else 0
  {
    hide RunNet, Open, Fresh;
    if steps != [] {
      var init, last := steps[..|steps| - 1], steps[|steps| - 1];
      SplitLast(steps);
      OriginalsGrowOne(confs, init, last);
      var s := RunNet(confs, init);
      if HeardBy(s, last, n, o) {
        HeardKind(confs, m, init, last.index);
      }
      if o < |s.originals| {
        UplinksDispatchedOnce(confs, m, init, n, o, f);
      } else {
        NotYetHeard(confs, m, init, n, o);
      }
    }
  }

  lemma {:induction false} NotYetHeard(confs: seq<Config>, m: MeshKeys, steps: seq<NetStep>, n: nat, o: nat)
    requires OneMesh(confs, m) && n < |confs| && o >= |RunNet(confs, steps).originals|
    ensures !HasHeard(confs, steps, n, o) && Dispatches(confs, steps, n, o) == 0
  {
    hide RunNet, Open, Fresh, OneMesh;
    if steps != [] {
      var init, last := steps[..|steps| - 1], steps[|steps| - 1];
      SplitLast(steps);
      OriginalsGrowOne(confs, init, last);
      NotYetHeard(confs, m, init, n, o);
      if HeardBy(RunNet(confs, init), last, n, o) {
        HeardKind(confs, m, init, last.index);
      }
    }
  }
}
