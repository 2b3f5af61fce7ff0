/**
  The bound of module MeshStreams is exact in every mesh with a relay that can send and another
  gateway that can hear it: with 63 uplinks missed in a row, a run in which a new one is dropped.
 */
module MeshStreamBound {
  import opened Bytes
  import opened Seqs
  import opened Tlv
  import opened PayloadCache
  import opened Relaying
  import opened Cache
  import opened Gateway
  import opened NodeRuns
  import opened UplinkStream
  import opened Network
  import opened MeshRuns
  import opened EndToEnd
  import opened MeshEndToEnd
  import opened MeshStreams

  /** The relay's tables know this uplink, and its values fit their bits. */
  predicate CanSend(relay: Config, up: UplinkFrame) {
    && !relay.borderGateway && relay.frequencies != [] && UplinkPacket(relay, 0, up).Ok?
    && var p := UplinkPacket(relay, 0, up).value;
       p.payload.up.dr <= 15 && SignalInRange(p.payload.up.rssi, p.payload.up.snr)
  }

  lemma AlwaysSends(relay: Config, st: NodeState, up: UplinkFrame, env: Env)
    requires CanSend(relay, up)
    ensures RelayUplink(relay, st, up, env).1.out != []
    ensures TakesUplink(relay, NodeRuns.Step(DeviceUplink(up), env))
    ensures up.rxInfo.Some? && up.txInfo.Some? && up.txInfo.value.modulation.Some?
  {
    UplinkSentExactly(relay, st, up, env);
    hide RelayUplink;
  }

  function Nobody(): (hears: Hearers) {
    (k, j) => false
  }

  function Only(n: nat): (hears: Hearers) {
    (k, j) => j == n
  }

  lemma {:induction false} NobodyHears(f: bytes, k: nat, n: nat, o: nat)
    ensures Heard(f, k, n, Nobody(), o) == []
  {
    if n > 0 {
      NobodyHears(f, k, n - 1, o);
    }
  }

  lemma {:induction false} OnlyOneHears(f: bytes, k: nat, n: nat, o: nat, j: nat)
    ensures Heard(f, k, n, Only(j), o) == if j < n then [Reception(j, f, o)] else []
  {
    if n > 0 {
      OnlyOneHears(f, k, n - 1, o, j);
    }
  }

  lemma {:induction false} NothingHeard(frames: seq<bytes>, n: nat, first: nat)
    ensures Broadcast(frames, n, Nobody(), first) == []
  {
    if frames != [] {
      NothingHeard(frames[..|frames| - 1], n, first);
      NobodyHears(frames[|frames| - 1], |frames| - 1, n, first + |frames| - 1);
    }
  }

  lemma OneHeard(f: bytes, n: nat, first: nat, j: nat)
    requires j < n
    ensures Broadcast([f], n, Only(j), first) == [Reception(j, f, first)]
  {
    assert [f][..0] == [];
    assert Broadcast([], n, Only(j), first) == [];
    OnlyOneHears(f, 0, n, first, j);
  }

  /** Nothing is on the air, relay r has sent so many uplinks, and gateway n has heard these of them. */
  ghost predicate Quiet(
    confs: seq<Config>, steps: seq<NetStep>, r: nat, n: nat, count: nat, arrivals: seq<Arrival>)
    requires r < |confs|
  {
    && RunNet(confs, steps).air == [] && |Stored(confs[r], Projection(confs, steps, r))| == count
    && Labels(confs, steps, n) == arrivals
  }

  /** After one more uplink of the relay: its frame, who is about to hear it, and the count. */
  lemma SendStep(
    confs: seq<Config>, steps: seq<NetStep>, r: nat, n: nat, count: nat, arrivals: seq<Arrival>, up: UplinkFrame,
    env: Env, hears: Hearers)
    returns (f: bytes, freq: u32)
    requires r < |confs| && CanSend(confs[r], up) && Quiet(confs, steps, r, n, count, arrivals)
    ensures var s, all := RunNet(confs, steps), steps + [UplinkStep(r, up, env, hears)];
            && RelayUplink(confs[r], s.states[r], up, env).1.out == [MeshFrame(f, freq)]
            && RunNet(confs, all).air == Broadcast([f], |confs|, hears, |s.originals|)
            && RunNet(confs, all).originals == s.originals + [f]
            && |Stored(confs[r], Projection(confs, all, r))| == count + 1
            && Labels(confs, all, n) == arrivals
  {
    hide RunNet, RelayUplink, Stored, Labels, Projection, CanSend, Broadcast, NoUplink;
    var s, step := RunNet(confs, steps), UplinkStep(r, up, env, hears);
    AlwaysSends(confs[r], s.states[r], up, env);
    FramesOfUplink(confs[r], s.states[r], up, env);
    var out := RelayUplink(confs[r], s.states[r], up, env).1.out;
    f, freq := out[0].frame, out[0].frequency;
    NetOne(confs, steps, step);
    LabelsOne(confs, steps, step, n);
    EmptyUnit(arrivals);
    EmptyUnit(Broadcast([f], |confs|, hears, |s.originals|));
    StoredOneMore(confs[r], Projection(confs, steps, r), NodeRuns.Step(DeviceUplink(up), env));
  }

  lemma SkipOne(
    confs: seq<Config>, steps: seq<NetStep>, r: nat, n: nat, count: nat, arrivals: seq<Arrival>, up: UplinkFrame,
    env: Env)
    requires r < |confs| && CanSend(confs[r], up) && Quiet(confs, steps, r, n, count, arrivals)
    ensures Quiet(confs, steps + [UplinkStep(r, up, env, Nobody())], r, n, count + 1, arrivals)
  {
    hide RunNet, RelayUplink, Stored, Labels, Projection, CanSend, Broadcast;
    var f, freq := SendStep(confs, steps, r, n, count, arrivals, up, env, Nobody());
    NothingHeard([f], |confs|, |RunNet(confs, steps).originals|);
  }

  /** An uplink that gateway n alone is about to hear, as it will be labelled. */
  lemma AboutToHear(
    confs: seq<Config>, m: MeshKeys, steps: seq<NetStep>, r: nat, n: nat, count: nat, arrivals: seq<Arrival>,
    up: UplinkFrame, env: Env, radio: Radio, env': Env)
    requires OneMesh(confs, m) && r < |confs| && n < |confs|
    requires CanSend(confs[r], up) && Quiet(confs, steps, r, n, count, arrivals)
    ensures var all := steps + [UplinkStep(r, up, env, Only(n))];
            && |RunNet(confs, all).air| == 1 && RunNet(confs, all).air[0].node == n
            && |Stored(confs[r], Projection(confs, all, r))| == count + 1
            && Labels(confs, all, n) == arrivals
            && LabelOf(confs, all, Receive(0, radio, env', Nobody()), n) == [Original(confs[r].relayId, count + 1)]
            && !HasHeard(confs, all, n, RunNet(confs, all).air[0].origin)
  {
    hide RunNet, RelayUplink, Stored, Labels, Projection, CanSend, Broadcast, Open, OneMesh;
    var s, step := RunNet(confs, steps), UplinkStep(r, up, env, Only(n));
    var all, o := steps + [step], |s.originals|;
    var f, freq := SendStep(confs, steps, r, n, count, arrivals, up, env, Only(n));
    OneHeard(f, |confs|, o, n);
    SameKeys(confs, m, r, n);
    AlwaysSends(confs[r], s.states[r], up, env);
    UplinkOf(confs[r], s.states[r], up, env, f, freq);
    NumberOfOne(confs, steps, step, o);
    NotYetHeard(confs, m, steps, n, o);
    assert all[..|steps|] == steps;
  }

  lemma SameKeys(confs: seq<Config>, m: MeshKeys, r: nat, n: nat)
    requires OneMesh(confs, m) && r < |confs| && n < |confs|
    ensures KeysOf(confs[r]) == KeysOf(confs[n]) == m
  {
  }

  lemma UplinkOf(relay: Config, st: NodeState, up: UplinkFrame, env: Env, f: bytes, freq: u32)
    requires !relay.borderGateway && RelayUplink(relay, st, up, env).1.out == [MeshFrame(f, freq)]
    ensures Open(KeysOf(relay), f).Ok?
    ensures var pl := Open(KeysOf(relay), f).value.payload;
            pl.Uplink? && pl.relayId == relay.relayId
  {
    hide RelayUplink, Open;
    UplinkContent(relay, st, up, env, f, freq);
    var p := Open(KeysOf(relay), f).value;
    assert p.payload == Content(p).payload;
  }

  lemma HearOne(
    confs: seq<Config>, m: MeshKeys, steps: seq<NetStep>, r: nat, n: nat, count: nat, arrivals: seq<Arrival>,
    up: UplinkFrame, env: Env, radio: Radio, env': Env)
    requires OneMesh(confs, m) && r < |confs| && n < |confs| && r != n
    requires CanSend(confs[r], up) && Quiet(confs, steps, r, n, count, arrivals)
    ensures Quiet(confs, steps + [UplinkStep(r, up, env, Only(n))] + [Receive(0, radio, env', Nobody())], r, n,
                  count + 1, arrivals + [Original(confs[r].relayId, count + 1)])
  {
    hide RunNet, Stored, Labels, Projection, CanSend, LabelOf, HasHeard, Quiet, OneMesh, HandleMesh;
    assert Quiet(confs, steps, r, n, count, arrivals);
    AboutToHear(confs, m, steps, r, n, count, arrivals, up, env, radio, env');
    var sent, step := steps + [UplinkStep(r, up, env, Only(n))], Receive(0, radio, env', Nobody());
    NetOne(confs, sent, step);
    LabelsOne(confs, sent, step, n);
    AirAfterReceive(confs, RunNet(confs, sent), radio, env');
    EmptyUnit(Projection(confs, sent, r));
    QuietAgain(confs, sent + [step], r, n, count + 1, arrivals + [Original(confs[r].relayId, count + 1)]);
  }

  lemma QuietAgain(confs: seq<Config>, steps: seq<NetStep>, r: nat, n: nat, count: nat, arrivals: seq<Arrival>)
    requires r < |confs| && RunNet(confs, steps).air == []
    requires |Stored(confs[r], Projection(confs, steps, r))| == count && Labels(confs, steps, n) == arrivals
    ensures Quiet(confs, steps, r, n, count, arrivals)
  {
  }

  lemma AirAfterReceive(confs: seq<Config>, s: Net, radio: Radio, env: Env)
    requires ShapeOk(confs, s) && |s.air| == 1
    ensures Next(confs, s, Receive(0, radio, env, Nobody())).air == []
  {
    hide HandleMesh, Frames, Fresh, IsForeign, KeyOf, Open, Broadcast;
    var Reception(n, b, _) := s.air[0];
    var frames := Frames(HandleMesh(confs[n], s.states[n], RxFrame(b, radio), env).1.out);
    NothingHeard(frames, |confs|, OriginSent(confs[n], s, s.air[0]));
  }

  // ---------- The run ----------

  function Skipped(r: nat, up: UplinkFrame, env: Env, k: nat): (steps: seq<NetStep>) {
    if k == 0 then [] else Skipped(r, up, env, k - 1) + [UplinkStep(r, up, env, Nobody())]
  }

  /** Gateway n hears the first of each 64 uplinks of relay r, i times over. */
  function Rounds(r: nat, n: nat, up: UplinkFrame, env: Env, radio: Radio, i: nat): (steps: seq<NetStep>) {
    if i == 0 then [] else
    Rounds(r, n, up, env, radio, i - 1) + [UplinkStep(r, up, env, Only(n))] + [Receive(0, radio, env, Nobody())] +
    Skipped(r, up, env, 63)
  }

  lemma {:induction false} SkipMany(
    confs: seq<Config>, steps: seq<NetStep>, r: nat, n: nat, count: nat, arrivals: seq<Arrival>, up: UplinkFrame,
    env: Env, k: nat)
    requires r < |confs| && CanSend(confs[r], up) && Quiet(confs, steps, r, n, count, arrivals)
    ensures Quiet(confs, steps + Skipped(r, up, env, k), r, n, count + k, arrivals)
  {
    hide Quiet, CanSend;
    if k == 0 {
      EmptyUnit(steps);
    } else {
      SkipMany(confs, steps, r, n, count, arrivals, up, env, k - 1);
      SkipOne(confs, steps + Skipped(r, up, env, k - 1), r, n, count + k - 1, arrivals, up, env);
      Associative(steps, Skipped(r, up, env, k - 1), [UplinkStep(r, up, env, Nobody())]);
    }
  }

  lemma OneRound(
    confs: seq<Config>, m: MeshKeys, before: seq<NetStep>, r: nat, n: nat, up: UplinkFrame, env: Env, radio: Radio,
    i: nat)
    requires OneMesh(confs, m) && r < |confs| && n < |confs| && r != n && CanSend(confs[r], up)
    requires Quiet(confs, before, r, n, 64 * i, Sparse(confs[r].relayId, i))
    ensures Quiet(confs, before + [UplinkStep(r, up, env, Only(n))] + [Receive(0, radio, env, Nobody())] +
                         Skipped(r, up, env, 63),
                  r, n, 64 * i + 64, Sparse(confs[r].relayId, i + 1))
  {
    hide Quiet, CanSend, OneMesh, Skipped, Sparse;
    var id := confs[r].relayId;
    var heard := before + [UplinkStep(r, up, env, Only(n))] + [Receive(0, radio, env, Nobody())];
    HearOne(confs, m, before, r, n, 64 * i, Sparse(id, i), up, env, radio, env);
    SparsePrefix(id, i + 1);
    SkipMany(confs, heard, r, n, 64 * i + 1, Sparse(id, i + 1), up, env, 63);
  }

  lemma NoRounds(confs: seq<Config>, r: nat, n: nat)
    requires r < |confs|
    ensures Quiet(confs, [], r, n, 0, Sparse(confs[r].relayId, 0))
  {
  }

  lemma {:induction false} AfterRounds(
    confs: seq<Config>, m: MeshKeys, r: nat, n: nat, up: UplinkFrame, env: Env, radio: Radio, i: nat)
    requires OneMesh(confs, m) && r < |confs| && n < |confs| && r != n && CanSend(confs[r], up)
    ensures Quiet(confs, Rounds(r, n, up, env, radio, i), r, n, 64 * i, Sparse(confs[r].relayId, i))
  {
    hide Quiet, CanSend, OneMesh, Skipped, Sparse;
    if i == 0 {
      NoRounds(confs, r, n);
    } else {
      AfterRounds(confs, m, r, n, up, env, radio, i - 1);
      OneRound(confs, m, Rounds(r, n, up, env, radio, i - 1), r, n, up, env, radio, i - 1);
    }
  }

  /** In the 65th round the gateway drops a new uplink: it takes it for the first one. */
  lemma NewUplinkDropped(
    confs: seq<Config>, m: MeshKeys, r: nat, n: nat, up: UplinkFrame, env: Env, radio: Radio, gap: nat)
    returns (steps: seq<NetStep>)
    requires OneMesh(confs, m) && r < |confs| && n < |confs| && r != n && CanSend(confs[r], up) && gap >= 64
    ensures InOrder(Labels(confs, steps, n), gap) && !TakenOnce(confs, steps, n)
  {
    hide RunNet, Stored, Labels, Projection, CanSend, HasHeard, Quiet, OneMesh, Rounds, InOrder, Accepted, Last, KeyOf,
         Open, Run, Arrivals, NumberOf, ArrivalKey, Sparse;
    var before, id := Rounds(r, n, up, env, radio, 64), confs[r].relayId;
    AfterRounds(confs, m, r, n, up, env, radio, 64);
    AboutToHear(confs, m, before, r, n, 4096, Sparse(id, 64), up, env, radio, env);
    var sent, step := before + [UplinkStep(r, up, env, Only(n))], Receive(0, radio, env, Nobody());
    steps := sent + [step];
    LabelsOne(confs, sent, step, n);
    SparseClash(id, gap);
    LabelsAreArrivals(confs, m, sent, n);
    LabelIsArrival(confs, m, sent, step, n);
    NodeOfNet(confs, sent, n);
    CacheOverRun(confs[n], Projection(confs, sent, n));
    assert !TakenByStep(confs, sent, step, n);
    assert steps[..|sent|] == sent;
  }

  /**
    In every run in which a gateway first hears the uplinks of each relay in order, at most `gap` numbers
    apart, it takes each of them for new: exactly when `gap` is at most 63.
   */
  lemma MeshBoundExactly(
    confs: seq<Config>, m: MeshKeys, r: nat, n: nat, up: UplinkFrame, env: Env, radio: Radio, gap: nat)
    requires OneMesh(confs, m) && r < |confs| && n < |confs| && r != n && CanSend(confs[r], up)
    ensures (forall steps :: InOrder(Labels(confs, steps, n), gap) ==> TakenOnce(confs, steps, n)) <==> gap <= 63
  {
    hide Labels, InOrder, TakenOnce, OneMesh, CanSend;
    if gap <= 63 {
      forall steps | InOrder(Labels(confs, steps, n), gap) ensures TakenOnce(confs, steps, n) {
        UplinksTakenOnce(confs, m, steps, n, gap);
      }
    } else {
      var steps := NewUplinkDropped(confs, m, r, n, up, env, radio, gap);
    }
  }
}
