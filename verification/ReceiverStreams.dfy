/**
  The streams of module UplinkStream are those of real gateways: the numbers are those that relays
  count, the keys those that receivers look up, and what is taken is what their handlers dispatch.
 */
module ReceiverStreams {
  import opened Bytes
  import opened Seqs
  import opened PayloadCache
  import opened Relaying
  import opened Cache
  import opened Gateway
  import opened NodeRuns
  import opened UplinkStream
  import opened Network
  import opened MeshInvariant
  import opened MeshRuns
  import opened MeshTheorems
  import opened EndToEnd
  import opened MeshEndToEnd

  // ---------- The relay's side ----------

  /** The uplink that a relay sends after a run is the next one by its count of stored contexts. */
  lemma UplinkIsNumbered(
    relay: Config, before: seq<NodeRuns.Step>, up: UplinkFrame, env: Env, f: bytes, freq: u32)
    requires !relay.borderGateway && RelayUplink(relay, Run(relay, before).0, up, env).1.out == [MeshFrame(f, freq)]
    ensures Open(KeysOf(relay), f).Ok?
    ensures KeyOf(Open(KeysOf(relay), f).value) ==
            ArrivalKey(Original(relay.relayId, |Stored(relay, before)| + 1))
  {
    hide Run, RelayUplink, Open, Stored;
    var n := |Stored(relay, before)|;
    UplinkContent(relay, Run(relay, before).0, up, env, f, freq);
    ContextsOverRun(relay, before);
    StoredExactly(Stored(relay, before), 0);
    NextId(n);
    var p := Open(KeysOf(relay), f).value;
    assert p.payload == Content(p).payload && p.mhdr == Content(p).mhdr;
  }

  // ---------- The receiver's side ----------

  /** The keys of the packets that a gateway dispatched over a run, in order. */
  function Handled(conf: Config, steps: seq<NodeRuns.Step>): (keys: seq<PayloadKey>)
  {
    if steps == [] then [] else
    var init, last := steps[..|steps| - 1], steps[|steps| - 1];
    Handled(conf, init) +
    if last.op.Hear? && Fresh(conf, Run(conf, init).0, last.op.rx.phyPayload)
    then [KeyOf(Open(KeysOf(conf), last.op.rx.phyPayload).value)] else []
  }

  lemma HandledOne(conf: Config, steps: seq<NodeRuns.Step>, st: NodeRuns.Step)
    ensures Handled(conf, steps + [st]) ==
            Handled(conf, steps) +
            if st.op.Hear? && Fresh(conf, Run(conf, steps).0, st.op.rx.phyPayload)
            then [KeyOf(Open(KeysOf(conf), st.op.rx.phyPayload).value)] else []
  {
    hide Run, Fresh, Open, KeyOf;
    assert (steps + [st])[..|steps|] == steps;
  }

  /** What a gateway dispatches is what the cache lets through of all it hears. */
  lemma {:induction false} HandledIsAccepted(conf: Config, steps: seq<NodeRuns.Step>)
    ensures Handled(conf, steps) == Accepted(CACHE_SIZE, Arrivals(conf, steps))
  {
    hide Run, Open, KeyOf;
    if steps == [] {
      NoArrivals(conf);
    } else {
      var init, last := steps[..|steps| - 1], steps[|steps| - 1];
      HandledIsAccepted(conf, init);
      SplitLast(steps);
      CacheOverRun(conf, init);
      hide Handled, Arrivals, Accepted, Last;
      HandledOne(conf, init, last);
      ArrivalsOne(conf, init, last);
      var before := Arrivals(conf, init);
      EmptyUnit(before);
      EmptyUnit(Accepted(CACHE_SIZE, before));
      if last.op.Hear? && Open(KeysOf(conf), last.op.rx.phyPayload).Ok? {
        AcceptedAppend(CACHE_SIZE, before, KeyOf(Open(KeysOf(conf), last.op.rx.phyPayload).value));
      }
    }
  }

  /**
    No false drops over any run: if what a gateway heard over a run is a stream in which each relay's
    uplinks are first heard in order, with at most 62 missed in a row, and copies come while their key
    is in the cache, then the uplinks that it dispatched are the originals, each of them once.
   */
  lemma EveryUplinkIsHandledOnce(conf: Config, steps: seq<NodeRuns.Step>, arrivals: seq<Arrival>, gap: nat)
    requires Keys(arrivals) == Arrivals(conf, steps) && InOrder(arrivals, gap) && gap <= 63
    ensures Uplinks(Handled(conf, steps)) == OriginalKeys(arrivals)
  {
    hide Arrivals, Handled, InOrder, Uplinks, OriginalKeys;
    HandledIsAccepted(conf, steps);
    NoFalseDrops(arrivals, gap);
  }

  /** And the next original is dispatched, too. */
  lemma NextUplinkIsFresh(
    conf: Config, steps: seq<NodeRuns.Step>, arrivals: seq<Arrival>, gap: nat, a: Arrival, b: bytes)
    requires Keys(arrivals) == Arrivals(conf, steps) && InOrder(arrivals + [a], gap) && gap <= 63 && a.Original?
    requires Open(KeysOf(conf), b).Ok? && KeyOf(Open(KeysOf(conf), b).value) == ArrivalKey(a)
    ensures Fresh(conf, Run(conf, steps).0, b)
  {
    hide Run, Open, KeyOf, Arrivals, TakenArrivals, Accepted, Last, Spread;
    InOrderPrefix(arrivals, a, gap);
    hide InOrder;
    CacheOverRun(conf, steps);
    TakenStaySpread(arrivals, gap);
    TakenArrivalsKeys(arrivals);
    OriginalIsNew(TakenArrivals(arrivals), arrivals, gap, a);
  }

  lemma InOrderPrefix(arrivals: seq<Arrival>, a: Arrival, gap: nat)
    requires InOrder(arrivals + [a], gap)
    ensures InOrder(arrivals, gap)
    ensures a.Original? && LastNumber(arrivals, a.relayId).Some? ==>
              LastNumber(arrivals, a.relayId).value < a.number <= LastNumber(arrivals, a.relayId).value + gap
  {
    assert (arrivals + [a])[..|arrivals|] == arrivals;
  }

  // ---------- Both sides, over a mesh ----------

  /**
    In any run of a mesh: relay r takes an uplink of a device after the steps `before`. Whenever a
    gateway hears a copy of it for the first time, and has missed at most 62 uplinks of r in a row so
    far, it takes it for new: however long both have been running, and over whatever relays it came.
   */
  lemma NewUplinkIsTaken(
    confs: seq<Config>, m: MeshKeys, u: Outward, later: seq<NetStep>, i: nat,
    arrivals: seq<Arrival>, gap: nat)
    requires OneMesh(confs, m) && u.r < |confs| && !confs[u.r].borderGateway
    requires RelayUplink(confs[u.r], RunNet(confs, u.before).states[u.r], u.up, u.env).1.out == [MeshFrame(u.f, u.freq)]
    requires var s := RunNet(confs, Sent(u) + later);
             i < |s.air| && s.air[i].origin == |RunNet(confs, u.before).originals|
    requires var n := RunNet(confs, Sent(u) + later).air[i].node;
             Keys(arrivals) == Arrivals(confs[n], Projection(confs, Sent(u) + later, n))
    requires var number := |Stored(confs[u.r], Projection(confs, u.before, u.r))| + 1;
             InOrder(arrivals + [Original(confs[u.r].relayId, number)], gap) && gap <= 63
    ensures var s := RunNet(confs, Sent(u) + later);
            Fresh(confs[s.air[i].node], s.states[s.air[i].node], s.air[i].frame)
  {
    hide RunNet, RelayUplink, Open, Stored, Projection, Arrivals, InOrder, Run, Fresh, AdvanceBy, RoomFor, PassedBy,
         KeyOf;
    var s := RunNet(confs, Sent(u) + later);
    var Reception(n, g, _) := s.air[i];
    var via := EveryFrameIsDerived(confs, m, Sent(u) + later, i);
    NodeOfNet(confs, u.before, u.r);
    UplinkIsNumbered(confs[u.r], Projection(confs, u.before, u.r), u.up, u.env, u.f, u.freq);
    UplinkOriginal(confs, u.before, u.r, u.up, u.env, u.hears, u.f, u.freq, later);
    NodeOfNet(confs, Sent(u) + later, n);
    NextUplinkIsFresh(
      confs[n], Projection(confs, Sent(u) + later, n), arrivals, gap,
      Original(confs[u.r].relayId, |Stored(confs[u.r], Projection(confs, u.before, u.r))| + 1), g);
  }
}
