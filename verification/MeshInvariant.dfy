/** What every run of a mesh keeps: where each frame comes from, what it still says, and who passed it on. */
module MeshInvariant {
  import opened Wrappers
  import opened Bytes
  import opened Seqs
  import opened Tlv
  import opened Packets
  import opened PayloadCache
  import opened Relaying
  import opened Cache
  import opened Gateway
  import opened NodeRuns
  import opened Network

  function Ids(via: seq<Hop>): (ids: seq<Bytes4>)
    ensures |ids| == |via|
  {
    seq(|via|, i requires 0 <= i < |via| => via[i].relayId)
  }

  /**
    This hop is how a gateway heard the o-th original over i + 1 hops when it passed it on, which its
    limit allowed.
   */
  ghost predicate PassedBy(confs: seq<Config>, s: Net, o: nat, hop: Hop, i: nat)
    requires ShapeOk(confs, s)
  {
    exists n, j :: 0 <= n < |confs| && 0 <= j < |s.reports[n]| && ReportedAs(confs[n], s.reports[n][j], o, hop, i)
  }

  predicate ReportedAs(conf: Config, r: Report, o: nat, hop: Hop, i: nat) {
    && r.origin == o && r.hops == i + 1 && i + 2 <= conf.maxHopCount
    && hop.relayId == conf.relayId && hop.snr == r.rx.snr && (r.rx.rssi - hop.rssi) % 0x1_0000 == 0
  }

  /**
    The frame is the o-th original after the relays `via` have passed it on, in this order: it
    has as many hops more, the same key, and says the same, with exactly these relays on the path
    of its heartbeats, and their signals as they were reported. None of them is the gateway that the
    packet belongs to, and each of them has this packet in its log as often as it occurs in `via`.
   */
  ghost predicate Derived(confs: seq<Config>, m: MeshKeys, s: Net, f: bytes, o: nat, via: seq<Hop>)
    requires ShapeOk(confs, s)
  {
    && o < |s.originals| && FirstHop(m, s.originals[o]) && Open(m, f).Ok?
    && var p0, p := Open(m, s.originals[o]).value, Open(m, f).value;
       && p.mhdr.hopCount == 1 + |via| <= 8
       && KeyOf(p) == KeyOf(p0) && p.payload.relayId == p0.payload.relayId
       && (RoomFor(p0.payload, |via|) ==> Content(p) == Content(AdvanceBy(p0, via)))
       && (forall i :: 0 <= i < |via| ==> via[i].relayId != p0.payload.relayId && PassedBy(confs, s, o, via[i], i))
       && (forall n :: 0 <= n < |confs| ==>
             multiset(Ids(via))[confs[n].relayId] <= multiset(s.relayed[n])[KeyOf(p0)])
  }

  ghost predicate Explained(confs: seq<Config>, m: MeshKeys, s: Net, f: bytes, o: nat)
    requires ShapeOk(confs, s)
  {
    exists via :: Derived(confs, m, s, f, o, via)
  }

  ghost predicate AirExplained(confs: seq<Config>, m: MeshKeys, s: Net, air: seq<Reception>)
    requires ShapeOk(confs, s)
  {
    forall i :: 0 <= i < |air| ==> Explained(confs, m, s, air[i].frame, air[i].origin)
  }

  /** The picked elements of `all` stand at these places of it, in the same order. */
  predicate PicksAt(at: seq<nat>, all: seq<PayloadKey>, picked: seq<PayloadKey>) {
    && |at| == |picked|
    && (forall i :: 0 <= i < |at| ==> at[i] < |all| && all[at[i]] == picked[i])
    && forall i, j :: 0 <= i < j < |at| ==> at[i] < at[j]
  }

  ghost predicate Picks(all: seq<PayloadKey>, picked: seq<PayloadKey>) {
    exists at :: PicksAt(at, all, picked)
  }

  /** The cache is the tail of what was accepted, repeats lie far apart, and only what was accepted is passed on. */
  ghost predicate LogOk(seen: seq<PayloadKey>, accepted: seq<PayloadKey>, relayed: seq<PayloadKey>) {
    && seen == Last(CACHE_SIZE, accepted)
    && WellSpaced(CACHE_SIZE, accepted)
    && Picks(accepted, relayed)
  }

  lemma PicksAppend(all: seq<PayloadKey>, picked: seq<PayloadKey>, k: PayloadKey)
    requires Picks(all, picked)
    ensures Picks(all + [k], picked) && Picks(all + [k], picked + [k])
  {
    var at: seq<nat> :| PicksAt(at, all, picked);
    assert PicksAt(at, all + [k], picked);
    assert PicksAt(at + [|all|], all + [k], picked + [k]);
  }

  ghost predicate Inv(confs: seq<Config>, m: MeshKeys, s: Net) {
    && ShapeOk(confs, s)
    && (forall o :: 0 <= o < |s.originals| ==> FirstHop(m, s.originals[o]))
    && AirExplained(confs, m, s, s.air)
    && (forall n :: 0 <= n < |confs| ==> LogOk(s.states[n].seen, s.accepted[n], s.relayed[n]))
  }

  /** Later: more originals, and more in the logs. */
  ghost predicate Grows(confs: seq<Config>, s: Net, s': Net)
    requires ShapeOk(confs, s) && ShapeOk(confs, s')
  {
    && s.originals <= s'.originals
    && forall n :: 0 <= n < |confs| ==>
                     multiset(s.relayed[n]) <= multiset(s'.relayed[n]) && s.reports[n] <= s'.reports[n]
  }

  lemma StillPassed(confs: seq<Config>, s: Net, s': Net, o: nat, hop: Hop, i: nat)
    requires ShapeOk(confs, s) && ShapeOk(confs, s') && Grows(confs, s, s')
    requires PassedBy(confs, s, o, hop, i)
    ensures PassedBy(confs, s', o, hop, i)
  {
    hide ReportedAs;
    var n, j :| 0 <= n < |confs| && 0 <= j < |s.reports[n]| && ReportedAs(confs[n], s.reports[n][j], o, hop, i);
    assert s'.reports[n][j] == s.reports[n][j];
  }

  lemma StillExplained(confs: seq<Config>, m: MeshKeys, s: Net, s': Net, f: bytes, o: nat)
    requires ShapeOk(confs, s) && ShapeOk(confs, s') && Grows(confs, s, s')
    requires Explained(confs, m, s, f, o)
    ensures Explained(confs, m, s', f, o)
  {
    hide Open, AdvanceBy, KeyOf, RoomFor, PassedBy;
    var via :| Derived(confs, m, s, f, o, via);
    forall i | 0 <= i < |via| ensures PassedBy(confs, s', o, via[i], i) {
      StillPassed(confs, s, s', o, via[i], i);
    }
    var p0 := Open(m, s.originals[o]).value;
    assert s'.originals[o] == s.originals[o];
    forall n | 0 <= n < |confs|
      ensures multiset(Ids(via))[confs[n].relayId] <= multiset(s'.relayed[n])[KeyOf(p0)]
    {
      assert multiset(s.relayed[n]) <= multiset(s'.relayed[n]);
    }
    assert Derived(confs, m, s', f, o, via);
  }

  lemma OriginalExplained(confs: seq<Config>, m: MeshKeys, s: Net, f: bytes, o: nat)
    requires ShapeOk(confs, s) && o < |s.originals| && s.originals[o] == f && FirstHop(m, f)
    ensures Explained(confs, m, s, f, o)
  {
    hide Open, KeyOf, RoomFor, PassedBy;
    AdvanceNone(Open(m, f).value);
    assert Derived(confs, m, s, f, o, []);
  }

  lemma IdsAppend(via: seq<Hop>, h: Hop)
    ensures Ids(via + [h]) == Ids(via) + [h.relayId]
  {
  }

  /** Content after one more relay, whatever the path so far. */
  lemma OneMoreRelay(m: MeshKeys, r: Relay, b: bytes, p0: Packet, via: seq<Hop>)
    requires Open(m, b).Ok? && RelayFrame(m, r, b).Ok? && p0.mhdr.hopCount == 1
    requires Open(m, b).value.mhdr.hopCount == 1 + |via|
    requires RoomFor(p0.payload, |via|) ==> Content(Open(m, b).value) == Content(AdvanceBy(p0, via))
    ensures |via| < 7 && Open(m, RelayFrame(m, r, b).value).Ok?
    ensures var p, q := Open(m, b).value, Open(m, RelayFrame(m, r, b).value).value;
            && q.mhdr.hopCount == 2 + |via| && q.mhdr.hopCount <= r.maxHopCount
            && q.payload.relayId == p.payload.relayId && KeyOf(q) == KeyOf(p)
            && (RoomFor(p0.payload, |via| + 1) ==> Content(q) == Content(AdvanceBy(p0, via + [r.hop])))
  {
    RelayedFrame(m, r, b);
    RelaysExactly(m, r, b);
    hide Open, RelayFrame;
    if RoomFor(p0.payload, |via| + 1) {
      var p := Open(m, b).value;
      AdvancedKeepsShape(p0, via);
      AdvanceAppend(p0, via, r.hop);
      assert p.payload == Content(p).payload && p.mhdr == Content(p).mhdr;
      assert Content(AdvanceBy(p, [r.hop])) == Content(AdvanceBy(AdvanceBy(p0, via), [r.hop]));
    }
  }

  /** A frame passed on is explained by the frame it was, with the relay added to the path. */
  lemma RelayedExplained(
    confs: seq<Config>, m: MeshKeys, s: Net, s': Net, n: nat, rx: RxInfo, b: bytes, f: bytes, o: nat)
    requires OneMesh(confs, m) && ShapeOk(confs, s) && ShapeOk(confs, s') && Grows(confs, s, s')
    requires n < |confs| && Explained(confs, m, s, b, o)
    requires Open(m, b).Ok? && Open(m, b).value.payload.relayId != confs[n].relayId
    requires RelayFrame(m, AsRelay(confs[n], rx), b) == Ok(f)
    requires s'.relayed[n] == s.relayed[n] + [KeyOf(Open(m, b).value)]
    requires s'.reports[n] == s.reports[n] + [Report(o, Open(m, b).value.mhdr.hopCount, rx)]
    ensures Explained(confs, m, s', f, o)
  {
    hide Open, KeyOf, RelayFrame, AdvanceBy, RoomFor, Content, PassedBy;
    var via :| Derived(confs, m, s, b, o, via);
    var p0, r := Open(m, s.originals[o]).value, AsRelay(confs[n], rx);
    OneMoreRelay(m, r, b, p0, via);
    assert s'.originals[o] == s.originals[o];
    CountsGrow(confs, m, s, s', n, via, r.hop, KeyOf(p0));
    HopsPassed(confs, s, s', n, via, rx, o, p0.payload.relayId);
    assert Derived(confs, m, s', f, o, via + [r.hop]);
  }

  lemma CountsGrow(
    confs: seq<Config>, m: MeshKeys, s: Net, s': Net, n: nat, via: seq<Hop>, h: Hop, key: PayloadKey)
    requires OneMesh(confs, m) && ShapeOk(confs, s) && ShapeOk(confs, s') && Grows(confs, s, s')
    requires n < |confs| && h.relayId == confs[n].relayId && s'.relayed[n] == s.relayed[n] + [key]
    requires forall k :: 0 <= k < |confs| ==>
                           multiset(Ids(via))[confs[k].relayId] <= multiset(s.relayed[k])[key]
    ensures forall k :: 0 <= k < |confs| ==>
                          multiset(Ids(via + [h]))[confs[k].relayId] <= multiset(s'.relayed[k])[key]
  {
    IdsAppend(via, h);
    forall k | 0 <= k < |confs|
      ensures multiset(Ids(via + [h]))[confs[k].relayId] <= multiset(s'.relayed[k])[key]
    {
      assert multiset(s.relayed[k]) <= multiset(s'.relayed[k]);
      assert k != n ==> confs[k].relayId != h.relayId;
    }
  }

  lemma HopsPassed(confs: seq<Config>, s: Net, s': Net, n: nat, via: seq<Hop>, rx: RxInfo, o: nat, owner: Bytes4)
    requires ShapeOk(confs, s) && ShapeOk(confs, s') && Grows(confs, s, s') && |via| < 7
    requires n < |confs| && confs[n].relayId != owner && |via| + 2 <= confs[n].maxHopCount
    requires s'.reports[n] == s.reports[n] + [Report(o, |via| + 1, rx)]
    requires forall i :: 0 <= i < |via| ==> via[i].relayId != owner && PassedBy(confs, s, o, via[i], i)
    ensures var all := via + [AsRelay(confs[n], rx).hop];
            forall i :: 0 <= i < |all| ==> all[i].relayId != owner && PassedBy(confs, s', o, all[i], i)
  {
    var h := AsRelay(confs[n], rx).hop;
    assert ReportedAs(confs[n], s'.reports[n][|s.reports[n]|], o, h, |via|);
    assert PassedBy(confs, s', o, h, |via|);
    hide PassedBy;
    forall i | 0 <= i < |via| ensures PassedBy(confs, s', o, via[i], i) {
      StillPassed(confs, s, s', o, via[i], i);
    }
  }

  // ---------- One step ----------

  lemma AirStillExplained(confs: seq<Config>, m: MeshKeys, s: Net, s': Net, air: seq<Reception>)
    requires ShapeOk(confs, s) && ShapeOk(confs, s') && Grows(confs, s, s')
    requires AirExplained(confs, m, s, air)
    ensures AirExplained(confs, m, s', air)
  {
    hide Explained, Grows;
    forall i | 0 <= i < |air| ensures Explained(confs, m, s', air[i].frame, air[i].origin) {
      StillExplained(confs, m, s, s', air[i].frame, air[i].origin);
    }
  }

  lemma ActLogs(confs: seq<Config>, s: Net, n: nat, st: NodeRuns.Step, hears: Hearers)
    requires ShapeOk(confs, s) && n < |confs| && !st.op.Hear?
    requires forall k :: 0 <= k < |confs| ==> LogOk(s.states[k].seen, s.accepted[k], s.relayed[k])
    ensures var s' := AfterAct(confs, s, n, st, hears);
            && Grows(confs, s, s')
            && forall k :: 0 <= k < |confs| ==> LogOk(s'.states[k].seen, s'.accepted[k], s'.relayed[k])
  {
    hide Apply, LogOk, Broadcast, Frames;
    SeenAfter(confs[n], s.states[n], st);
  }

  lemma ActAir(confs: seq<Config>, m: MeshKeys, s: Net, n: nat, st: NodeRuns.Step, hears: Hearers)
    requires ShapeOk(confs, s) && n < |confs| && !st.op.Hear? && KeysOf(confs[n]) == m
    requires AirExplained(confs, m, s, s.air) && Grows(confs, s, AfterAct(confs, s, n, st, hears))
    ensures var s' := AfterAct(confs, s, n, st, hears);
            && AirExplained(confs, m, s', s'.air)
            && forall f <- Frames(Apply(confs[n], s.states[n], st).1) :: FirstHop(m, f)
  {
    hide Apply, Explained, FirstHop, Broadcast, Frames, KeysOf, Grows;
    ActsAreFirstHop(confs[n], s.states[n], st);
    var s' := AfterAct(confs, s, n, st, hears);
    var frames := Frames(Apply(confs[n], s.states[n], st).1);
    AirStillExplained(confs, m, s, s', s.air);
    OriginalsExplained(confs, m, s', s.originals, frames, Broadcast(frames, |confs|, hears, |s.originals|));
  }

  lemma ActKeepsInv(
    confs: seq<Config>, m: MeshKeys, s: Net, n: nat, st: NodeRuns.Step, hears: Hearers)
    requires OneMesh(confs, m) && Inv(confs, m, s) && n < |confs| && !st.op.Hear?
    ensures Inv(confs, m, AfterAct(confs, s, n, st, hears))
  {
    assert KeysOf(confs[n]) == m;
    hide Apply, AirExplained, LogOk, FirstHop, Broadcast, Frames, OneMesh, KeysOf, Grows;
    ActLogs(confs, s, n, st, hears);
    ActAir(confs, m, s, n, st, hears);
  }

  lemma OriginalsExplained(
    confs: seq<Config>, m: MeshKeys, s: Net, before: seq<bytes>, frames: seq<bytes>, air: seq<Reception>)
    requires ShapeOk(confs, s) && s.originals == before + frames && forall f <- frames :: FirstHop(m, f)
    requires forall i :: 0 <= i < |air| ==>
                           && |before| <= air[i].origin < |before| + |frames|
                           && air[i].frame == frames[air[i].origin - |before|]
    ensures AirExplained(confs, m, s, air)
  {
    hide Explained, FirstHop;
    forall i | 0 <= i < |air| ensures Explained(confs, m, s, air[i].frame, air[i].origin) {
      OriginalExplained(confs, m, s, air[i].frame, air[i].origin);
    }
  }

  lemma LogStep(conf: Config, st: NodeState, b: bytes, radio: Radio, env: Env,
                accepted: seq<PayloadKey>, relayed: seq<PayloadKey>, passed: bool)
    requires LogOk(st.seen, accepted, relayed)
    ensures var st' := HandleMesh(conf, st, RxFrame(b, radio), env).0;
            var key := NewKey(conf, st, b);
            LogOk(st'.seen, accepted + key, if passed then relayed + key else relayed)
  {
    hide HandleMesh, Open, KeyOf;
    var s := NodeRuns.Step(Hear(RxFrame(b, radio)), env);
    SeenAfter(conf, st, s);
    HandleMeshExactly(conf, st, RxFrame(b, radio), env);
    if Fresh(conf, st, b) {
      var k := KeyOf(Open(KeysOf(conf), b).value);
      LastAppend(CACHE_SIZE, accepted, k);
      WellSpacedAppend(CACHE_SIZE, accepted, k);
      PicksAppend(accepted, relayed, k);
    } else {
      EmptyUnit(accepted);
      EmptyUnit(relayed);
    }
  }

  lemma ReceiveKeepsInv(
    confs: seq<Config>, m: MeshKeys, s: Net, i: nat, radio: Radio, env: Env, hears: Hearers)
    requires OneMesh(confs, m) && Inv(confs, m, s) && i < |s.air|
    ensures Inv(confs, m, AfterReceive(confs, s, i, radio, env, hears))
  {
    hide HandleMesh, Fresh, IsForeign, KeyOf, Open, LogOk, FirstHop, AirExplained;
    var Reception(n, b, _) := s.air[i];
    var frames := Frames(HandleMesh(confs[n], s.states[n], RxFrame(b, radio), env).1.out);
    LogStep(confs[n], s.states[n], b, radio, env, s.accepted[n], s.relayed[n],
            IsForeign(confs[n], b) && frames != []);
    ReceivedAirExplained(confs, m, s, i, radio, env, hears);
  }

  /** The part of a reception that is about frames: those still on the air, and the one it sends. */
  lemma ReceivedAirExplained(
    confs: seq<Config>, m: MeshKeys, s: Net, i: nat, radio: Radio, env: Env, hears: Hearers)
    requires OneMesh(confs, m) && Inv(confs, m, s) && i < |s.air|
    ensures var s' := AfterReceive(confs, s, i, radio, env, hears);
            && AirExplained(confs, m, s', s'.air)
            && forall o :: 0 <= o < |s'.originals| ==> FirstHop(m, s'.originals[o])
  {
    hide HandleMesh, Fresh, IsForeign, KeyOf, Open, LogOk, Explained, FirstHop;
    var Reception(n, b, _) := s.air[i];
    var s' := AfterReceive(confs, s, i, radio, env, hears);
    var frames := Frames(HandleMesh(confs[n], s.states[n], RxFrame(b, radio), env).1.out);
    ReceiveGrows(confs, s, i, radio, env, hears);
    AirStillExplained(confs, m, s, s', s.air);
    SentFrameExplained(confs, m, s, i, radio, env, hears);
    var first := OriginSent(confs[n], s, s.air[i]);
    AirOfReception(confs, m, s', s.air, i, frames, first, Broadcast(frames, |confs|, hears, first));
  }

  lemma AirOfReception(
    confs: seq<Config>, m: MeshKeys, s: Net, air: seq<Reception>, i: nat, frames: seq<bytes>, first: nat,
    heard: seq<Reception>)
    requires ShapeOk(confs, s) && i < |air| && AirExplained(confs, m, s, air)
    requires |frames| <= 1 && (frames != [] ==> Explained(confs, m, s, frames[0], first))
    requires forall k :: 0 <= k < |heard| ==>
                           && first <= heard[k].origin < first + |frames|
                           && heard[k].frame == frames[heard[k].origin - first]
    ensures AirExplained(confs, m, s, Without(air, i) + heard)
  {
    hide Explained;
  }

  /** What a reception sends is explained: passed on, or an original of its own. */
  lemma SentFrameExplained(
    confs: seq<Config>, m: MeshKeys, s: Net, i: nat, radio: Radio, env: Env, hears: Hearers)
    requires OneMesh(confs, m) && Inv(confs, m, s) && i < |s.air|
    ensures var Reception(n, b, _) := s.air[i];
            var s' := AfterReceive(confs, s, i, radio, env, hears);
            var frames := Frames(HandleMesh(confs[n], s.states[n], RxFrame(b, radio), env).1.out);
            && |frames| <= 1
            && (frames != [] ==> Explained(confs, m, s', frames[0], OriginSent(confs[n], s, s.air[i])))
            && (frames != [] && !IsForeign(confs[n], b) ==> FirstHop(m, frames[0]))
  {
    hide HandleMesh, Explained, LogOk, Open, RelayFrame, Seal, KeyOf, FirstHop;
    var Reception(n, b, _) := s.air[i];
    var s' := AfterReceive(confs, s, i, radio, env, hears);
    var frames := Frames(HandleMesh(confs[n], s.states[n], RxFrame(b, radio), env).1.out);
    FramesOfReception(confs[n], s.states[n], RxFrame(b, radio), env);
    ReceiveGrows(confs, s, i, radio, env, hears);
    if frames != [] {
      if IsForeign(confs[n], b) {
        RelayedExplained(confs, m, s, s', n, radio.rxInfo.value, b, frames[0], s.air[i].origin);
      } else {
        var items :| Seal(m, EventPacket(confs[n], env.now, items)) == Ok(frames[0]);
        SealedIsFirstHop(m, EventPacket(confs[n], env.now, items));
        OriginalExplained(confs, m, s', frames[0], |s.originals|);
      }
    }
  }

  lemma ReceiveGrows(confs: seq<Config>, s: Net, i: nat, radio: Radio, env: Env, hears: Hearers)
    requires ShapeOk(confs, s) && i < |s.air|
    ensures Grows(confs, s, AfterReceive(confs, s, i, radio, env, hears))
  {
    hide HandleMesh, Fresh, IsForeign, KeyOf;
  }

  lemma {:induction false} EveryRunKeepsInv(confs: seq<Config>, m: MeshKeys, steps: seq<NetStep>)
    requires OneMesh(confs, m)
    ensures Inv(confs, m, RunNet(confs, steps))
  {
    hide LogOk, Explained, FirstHop, AfterAct, AfterReceive;
    if steps == [] {
      StartInv(confs, m);
    } else {
      EveryRunKeepsInv(confs, m, steps[..|steps| - 1]);
      var before := RunNet(confs, steps[..|steps| - 1]);
      if Enabled(before, steps[|steps| - 1]) {
        match steps[|steps| - 1] {
          case Act(n, st, hears) => ActKeepsInv(confs, m, before, n, st, hears);
          case Receive(i, radio, env, hears) => ReceiveKeepsInv(confs, m, before, i, radio, env, hears);
          case Lose(i) => AirStillExplained(confs, m, before, before.(air := Without(before.air, i)), before.air);
        }
      }
    }
  }

  lemma StartInv(confs: seq<Config>, m: MeshKeys)
    ensures Inv(confs, m, Start(confs))
  {
    assert PicksAt([], [], []);
  }
}
