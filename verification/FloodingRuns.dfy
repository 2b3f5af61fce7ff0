/**
  Flooding ends in every run of a mesh, however much else is sent meanwhile: each original is heard,
  and so passed on, a bounded number of times.
 */
module FloodingRuns {
  import opened Wrappers
  import opened Bytes
  import opened Seqs
  import opened PayloadCache
  import opened Relaying
  import opened Gateway
  import opened NodeRuns
  import opened Network
  import opened MeshInvariant
  import opened Flooding

  /** How many more times a frame can be heard, one relay after the other. */
  function Left(m: MeshKeys, f: bytes): (d: nat)
  {
    if Open(m, f).Err? then 0 else
    OpenedForm(m, f);
    9 - Open(m, f).value.mhdr.hopCount
  }

  function Reach(m: MeshKeys, n: nat, f: bytes): (w: nat)
  {
    Power(n + 1, Left(m, f))
  }

  /** The part of the o-th original in what is on the air. */
  function Share(m: MeshKeys, n: nat, air: seq<Reception>, o: nat): (w: nat)
  {
    if air == [] then 0 else
    var last := air[|air| - 1];
    Share(m, n, air[..|air| - 1], o) + if last.origin == o then Reach(m, n, last.frame) else 0
  }

  /** How often the o-th original was heard over a run, by whichever gateway. */
  function Receptions(confs: seq<Config>, steps: seq<NetStep>, o: nat): (k: nat)
  {
    if steps == [] then 0 else
    var init, last := steps[..|steps| - 1], steps[|steps| - 1];
    Receptions(confs, init, o) + if HearsOne(RunNet(confs, init), last, o) then 1 else 0
  }

  predicate HearsOne(s: Net, step: NetStep, o: nat) {
    step.Receive? && step.index < |s.air| && s.air[step.index].origin == o
  }

  /** How often the o-th original was passed on over a run. */
  function Relayings(confs: seq<Config>, steps: seq<NetStep>, o: nat): (k: nat)
    ensures k <= Receptions(confs, steps, o)
  {
    if steps == [] then 0 else
    var init, last := steps[..|steps| - 1], steps[|steps| - 1];
    Relayings(confs, init, o) + if PassesOn(confs, RunNet(confs, init), last, o) then 1 else 0
  }

  predicate PassesOn(confs: seq<Config>, s: Net, step: NetStep, o: nat)
    requires ShapeOk(confs, s)
  {
    && HearsOne(s, step, o)
    && var Reception(n, b, _) := s.air[step.index];
       && IsForeign(confs[n], b)
       && Frames(HandleMesh(confs[n], s.states[n], RxFrame(b, step.radio), step.env).1.out) != []
  }

  // ---------- Shares ----------

  lemma {:induction false} ShareAppend(m: MeshKeys, n: nat, a: seq<Reception>, b: seq<Reception>, o: nat)
    ensures Share(m, n, a + b, o) == Share(m, n, a, o) + Share(m, n, b, o)
  {
    hide Reach;
    if b == [] {
      EmptyUnit(a);
    } else {
      assert (a + b)[..|a + b| - 1] == a + b[..|b| - 1];
      ShareAppend(m, n, a, b[..|b| - 1], o);
    }
  }

  lemma ShareWithout(m: MeshKeys, n: nat, air: seq<Reception>, i: nat, o: nat)
    requires i < |air|
    ensures Share(m, n, Without(air, i), o) ==
            Share(m, n, air, o) - if air[i].origin == o then Reach(m, n, air[i].frame) else 0
  {
    hide Reach;
    var one := [air[i]];
    assert air == air[..i] + (one + air[i + 1..]);
    ShareAppend(m, n, air[..i], one + air[i + 1..], o);
    ShareAppend(m, n, one, air[i + 1..], o);
    ShareAppend(m, n, air[..i], air[i + 1..], o);
    assert one[..0] == [];
  }

  lemma {:induction false} ShareOfHeard(m: MeshKeys, n: nat, air: seq<Reception>, f: bytes, o: nat)
    requires forall i :: 0 <= i < |air| ==> air[i].frame == f && air[i].origin == o
    ensures Share(m, n, air, o) == |air| * Reach(m, n, f)
  {
    hide Reach;
    if air != [] {
      ShareOfHeard(m, n, air[..|air| - 1], f, o);
      Products(|air| - 1, 0, Reach(m, n, f));
    }
  }

  /** A frame that some of n gateways hear is worth less than one reception of a level above it. */
  lemma HeardShare(m: MeshKeys, n: nat, f: bytes, k: nat, hears: Hearers, o: nat)
    ensures Share(m, n, Heard(f, k, n, hears, o), o) <= n * Reach(m, n, f)
    ensures Share(m, n, Heard(f, k, n, hears, o), o) + 1 <= Power(n + 1, Left(m, f) + 1)
  {
    hide Power, Left, Share;
    ShareOfHeard(m, n, Heard(f, k, n, hears, o), f, o);
    FewOfOneLevel(n, |Heard(f, k, n, hears, o)|, Left(m, f));
    PowerGrows(n + 1, 0, Left(m, f));
  }

  lemma {:induction false} NoShare(m: MeshKeys, n: nat, air: seq<Reception>, o: nat)
    requires forall i :: 0 <= i < |air| ==> air[i].origin != o
    ensures Share(m, n, air, o) == 0
  {
    if air != [] {
      NoShare(m, n, air[..|air| - 1], o);
    }
  }

  /** Of all the frames that a step sends, an origin has the receptions of its own. */
  lemma {:induction false} ShareOfBroadcast(
    m: MeshKeys, n: nat, frames: seq<bytes>, hears: Hearers, first: nat, o: nat)
    ensures Share(m, n, Broadcast(frames, n, hears, first), o) ==
            if first <= o < first + |frames|
            then Share(m, n, Heard(frames[o - first], o - first, n, hears, o), o)
            else 0
  {
    hide Reach, Heard;
    if frames != [] {
      var k := |frames| - 1;
      ShareOfBroadcast(m, n, frames[..k], hears, first, o);
      var last := Heard(frames[k], k, n, hears, first + k);
      ShareAppend(m, n, Broadcast(frames[..k], n, hears, first), last, o);
      if o != first + k {
        NoShare(m, n, last, o);
      }
    }
  }

  // ---------- One step ----------

  /** What one original is worth when all of n gateways are about to hear it. */
  function Limit(n: nat): (w: nat) {
    n * Power(n + 1, 8)
  }

  /** All that the o-th original can still cause, and has caused, in a mesh of n gateways. */
  predicate Bounded(m: MeshKeys, n: nat, s: Net, o: nat, heard: nat) {
    if o < |s.originals| then heard + Share(m, n, s.air, o) <= Limit(n)
    else heard == 0 && Share(m, n, s.air, o) == 0
  }

  /** A first-hop frame that some of n gateways hear. */
  lemma FirstShare(m: MeshKeys, n: nat, f: bytes, k: nat, hears: Hearers, o: nat)
    requires FirstHop(m, f)
    ensures Share(m, n, Heard(f, k, n, hears, o), o) <= Limit(n)
  {
    hide Power, Share;
    HeardShare(m, n, f, k, hears, o);
  }

  lemma ActBounded(
    confs: seq<Config>, m: MeshKeys, s: Net, k: nat, st: NodeRuns.Step, hears: Hearers, o: nat, heard: nat)
    requires OneMesh(confs, m) && ShapeOk(confs, s) && k < |confs| && !st.op.Hear?
    requires Bounded(m, |confs|, s, o, heard)
    ensures Bounded(m, |confs|, AfterAct(confs, s, k, st, hears), o, heard)
  {
    var n, frames, first := |confs|, Frames(Apply(confs[k], s.states[k], st).1), |s.originals|;
    ActShare(confs[k], s.states[k], m, n, st, hears, first, o);
    hide Apply, FirstHop, Share, Broadcast, Limit, OneMesh, KeysOf, Frames;
    ShareAppend(m, n, s.air, Broadcast(frames, n, hears, first), o);
  }

  /** What a gateway sends of its own accord: an origin of these has the share of a first hop, any other has none. */
  lemma ActShare(
    conf: Config, state: NodeState, m: MeshKeys, n: nat, st: NodeRuns.Step, hears: Hearers, first: nat, o: nat)
    requires KeysOf(conf) == m && !st.op.Hear?
    ensures var frames := Frames(Apply(conf, state, st).1);
            var share := Share(m, n, Broadcast(frames, n, hears, first), o);
            if first <= o < first + |frames| then share <= Limit(n) else share == 0
  {
    hide Apply, FirstHop, Share, Broadcast, Limit, Frames;
    ActsAreFirstHop(conf, state, st);
    FramesShare(m, n, Frames(Apply(conf, state, st).1), hears, first, o);
  }

  lemma FramesShare(m: MeshKeys, n: nat, frames: seq<bytes>, hears: Hearers, first: nat, o: nat)
    requires forall f <- frames :: FirstHop(m, f)
    ensures var share := Share(m, n, Broadcast(frames, n, hears, first), o);
            if first <= o < first + |frames| then share <= Limit(n) else share == 0
  {
    hide FirstHop, Share, Broadcast, Limit, Heard;
    ShareOfBroadcast(m, n, frames, hears, first, o);
    if first <= o < first + |frames| {
      assert frames[o - first] in frames;
      FirstShare(m, n, frames[o - first], o - first, hears, o);
    }
  }

  lemma LoseBounded(m: MeshKeys, n: nat, s: Net, i: nat, o: nat, heard: nat)
    requires i < |s.air| && Bounded(m, n, s, o, heard)
    ensures Bounded(m, n, s.(air := Without(s.air, i)), o, heard)
  {
    hide Share, Limit, Reach;
    ShareWithout(m, n, s.air, i, o);
  }

  /** What a frame passed on can still cause, and its reception, is no more than the frame heard could cause. */
  lemma PassedOnIsLess(m: MeshKeys, n: nat, r: Relay, b: bytes, f: bytes, hears: Hearers, o: nat)
    requires Open(m, b).Ok? && RelayFrame(m, r, b) == Ok(f)
    ensures Share(m, n, Heard(f, 0, n, hears, o), o) + 1 <= Reach(m, n, b)
  {
    OneLeft(m, r, b, f);
    hide Share, Left, Open, RelayFrame, Power;
    HeardShare(m, n, f, 0, hears, o);
  }

  lemma OneLeft(m: MeshKeys, r: Relay, b: bytes, f: bytes)
    requires Open(m, b).Ok? && RelayFrame(m, r, b) == Ok(f)
    ensures Left(m, b) == Left(m, f) + 1
  {
    RelayedFrame(m, r, b);
    OpenedForm(m, f);
    hide Open, RelayFrame;
  }

  lemma ReachPositive(m: MeshKeys, n: nat, f: bytes)
    ensures Reach(m, n, f) >= 1
  {
    PowerGrows(n + 1, 0, Left(m, f));
  }

  /** What is on the air after a reception: one reception less, and those of the frame that it sends. */
  lemma ShareAfter(
    m: MeshKeys, n: nat, air: seq<Reception>, i: nat, frames: seq<bytes>, hears: Hearers, first: nat, o: nat)
    requires i < |air| && |frames| <= 1
    ensures Share(m, n, Without(air, i) + Broadcast(frames, n, hears, first), o) ==
            Share(m, n, air, o) - (if air[i].origin == o then Reach(m, n, air[i].frame) else 0)
            + if frames != [] && first == o then Share(m, n, Heard(frames[0], 0, n, hears, o), o) else 0
  {
    hide Share, Broadcast, Reach, Heard, Without;
    ShareWithout(m, n, air, i, o);
    ShareAppend(m, n, Without(air, i), Broadcast(frames, n, hears, first), o);
    ShareOfBroadcast(m, n, frames, hears, first, o);
  }

  lemma AirAfter(confs: seq<Config>, s: Net, i: nat, radio: Radio, env: Env, hears: Hearers)
    requires ShapeOk(confs, s) && i < |s.air|
    ensures var Reception(k, b, _) := s.air[i];
            var frames := Frames(HandleMesh(confs[k], s.states[k], RxFrame(b, radio), env).1.out);
            var s' := AfterReceive(confs, s, i, radio, env, hears);
            && s'.air == Without(s.air, i) + Broadcast(frames, |confs|, hears, OriginSent(confs[k], s, s.air[i]))
            && s'.originals == if IsForeign(confs[k], b) then s.originals else s.originals + frames
  {
    hide HandleMesh, Fresh, IsForeign, KeyOf, Open, Broadcast;
  }

  lemma ReceiveBounded(
    confs: seq<Config>, m: MeshKeys, s: Net, i: nat, radio: Radio, env: Env, hears: Hearers, o: nat, heard: nat)
    requires OneMesh(confs, m) && ShapeOk(confs, s) && i < |s.air| && s.air[i].origin < |s.originals|
    requires Bounded(m, |confs|, s, o, heard)
    ensures Bounded(m, |confs|, AfterReceive(confs, s, i, radio, env, hears), o,
                    heard + if s.air[i].origin == o then 1 else 0)
  {
    var n := |confs|;
    var Reception(k, b, _) := s.air[i];
    assert KeysOf(confs[k]) == m;
    hide HandleMesh, Share, Broadcast, Limit, Reach, Heard, IsForeign, AfterReceive, OneMesh, KeysOf, Frames, Without;
    var frames := Frames(HandleMesh(confs[k], s.states[k], RxFrame(b, radio), env).1.out);
    var first := OriginSent(confs[k], s, s.air[i]);
    AirAfter(confs, s, i, radio, env, hears);
    SentBounded(confs[k], s.states[k], m, n, RxFrame(b, radio), env, hears, o);
    ShareAfter(m, n, s.air, i, frames, hears, first, o);
    ReachPositive(m, n, b);
  }

  /** The frame that a reception sends: one passed on is worth less than the one heard, any other is a first hop. */
  lemma SentBounded(
    conf: Config, st: NodeState, m: MeshKeys, n: nat, rx: UplinkFrame, env: Env, hears: Hearers, o: nat)
    requires KeysOf(conf) == m
    ensures var frames := Frames(HandleMesh(conf, st, rx, env).1.out);
            && |frames| <= 1
            && (frames != [] && IsForeign(conf, rx.phyPayload) ==>
                  Share(m, n, Heard(frames[0], 0, n, hears, o), o) + 1 <= Reach(m, n, rx.phyPayload))
            && (frames != [] && !IsForeign(conf, rx.phyPayload) ==>
                  Share(m, n, Heard(frames[0], 0, n, hears, o), o) <= Limit(n))
  {
    hide HandleMesh, Share, Limit, Reach, Fresh, Open, RelayFrame, Seal, KeyOf, FirstHop, Heard;
    FramesOfReception(conf, st, rx, env);
    var frames := Frames(HandleMesh(conf, st, rx, env).1.out);
    if frames != [] {
      if IsForeign(conf, rx.phyPayload) {
        PassedOnIsLess(m, n, AsRelay(conf, rx.rxInfo.value), rx.phyPayload, frames[0], hears, o);
      } else {
        var items :| Seal(m, EventPacket(conf, env.now, items)) == Ok(frames[0]);
        SealedIsFirstHop(m, EventPacket(conf, env.now, items));
        FirstShare(m, n, frames[0], 0, hears, o);
      }
    }
  }

  // ---------- Runs ----------

  lemma {:induction false} RunBounded(confs: seq<Config>, m: MeshKeys, steps: seq<NetStep>, o: nat)
    requires OneMesh(confs, m)
    ensures Bounded(m, |confs|, RunNet(confs, steps), o, Receptions(confs, steps, o))
  {
    hide AfterAct, AfterReceive, Bounded, OneMesh;
    if steps == [] {
      StartBounded(confs, m, o);
    } else {
      var init, last := steps[..|steps| - 1], steps[|steps| - 1];
      RunBounded(confs, m, init, o);
      var s, heard := RunNet(confs, init), Receptions(confs, init, o);
      match last {
        case Act(k, st, hears) =>
          if Enabled(s, last) {
            ActBounded(confs, m, s, k, st, hears, o, heard);
          }
        case Receive(i, radio, env, hears) =>
          if Enabled(s, last) {
            OriginInRange(confs, m, init, i);
            ReceiveBounded(confs, m, s, i, radio, env, hears, o, heard);
          }
        case Lose(i) =>
          if Enabled(s, last) {
            LoseBounded(m, |confs|, s, i, o, heard);
          }
      }
    }
  }

  lemma StartBounded(confs: seq<Config>, m: MeshKeys, o: nat)
    ensures Bounded(m, |confs|, Start(confs), o, 0)
  {
  }

  lemma OriginInRange(confs: seq<Config>, m: MeshKeys, steps: seq<NetStep>, i: nat)
    requires OneMesh(confs, m) && i < |RunNet(confs, steps).air|
    ensures RunNet(confs, steps).air[i].origin < |RunNet(confs, steps).originals|
  {
    EveryRunKeepsInv(confs, m, steps);
    hide RunNet, LogOk, OneMesh, Open, PassedBy, AdvanceBy, KeyOf;
    var s := RunNet(confs, steps);
    assert Explained(confs, m, s, s.air[i].frame, s.air[i].origin);
  }

  /**
    In every run of a mesh of n gateways, whatever else they send and whatever their caches hold, every
    original is heard fewer than (n+1)^9 times and passed on no more often: the receptions so far and
    all those that its frames on the air can still cause stay below that number.
   */
  lemma EveryOriginalDiesOut(confs: seq<Config>, m: MeshKeys, steps: seq<NetStep>, o: nat)
    requires OneMesh(confs, m)
    ensures var n := |confs|;
            && Receptions(confs, steps, o) + Share(m, n, RunNet(confs, steps).air, o) < Power(n + 1, 9)
            && Relayings(confs, steps, o) < Power(n + 1, 9)
  {
    hide RunNet, Share, Receptions, Power, OneMesh;
    var n := |confs|;
    RunBounded(confs, m, steps, o);
    FewOfOneLevel(n, n, 8);
    PowerGrows(n + 1, 0, 9);
  }
}
