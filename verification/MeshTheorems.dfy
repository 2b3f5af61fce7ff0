/** Safety of a mesh over whole runs, read off the invariant. */
module MeshTheorems {
  import opened Wrappers
  import opened Bytes
  import opened Seqs
  import opened Tlv
  import opened PayloadCache
  import opened Relaying
  import opened Cache
  import opened Gateway
  import opened Network
  import opened MeshInvariant

  /** Every frame on the air, in every run, is an original passed on by some relays, and still says what it said. */
  lemma EveryFrameIsDerived(confs: seq<Config>, m: MeshKeys, steps: seq<NetStep>, i: nat) returns (via: seq<Hop>)
    requires OneMesh(confs, m) && i < |RunNet(confs, steps).air|
    ensures var s := RunNet(confs, steps);
            Derived(confs, m, s, s.air[i].frame, s.air[i].origin, via)
  {
    EveryRunKeepsInv(confs, m, steps);
    hide RunNet, Derived, LogOk;
    var s := RunNet(confs, steps);
    assert Explained(confs, m, s, s.air[i].frame, s.air[i].origin);
    via :| Derived(confs, m, s, s.air[i].frame, s.air[i].origin, via);
  }

  /**
    What a gateway passes on stands in the log of what it accepted, in order; and whenever it passes
    a packet on a second time, the 64 packets that it accepted after the first time are all
    different from that one and from each other.
   */
  lemma RelayedFarApart(confs: seq<Config>, m: MeshKeys, steps: seq<NetStep>, n: nat) returns (at: seq<nat>)
    requires OneMesh(confs, m) && n < |confs|
    ensures var accepted, relayed := RunNet(confs, steps).accepted[n], RunNet(confs, steps).relayed[n];
            && PicksAt(at, accepted, relayed)
            && forall i, j :: 0 <= i < j < |relayed| && relayed[i] == relayed[j] ==>
                 at[i] + CACHE_SIZE < at[j] && NoDuplicates(accepted[at[i]..at[i] + CACHE_SIZE + 1])
  {
    EveryRunKeepsInv(confs, m, steps);
    hide RunNet, AirExplained, FirstHop;
    var s := RunNet(confs, steps);
    assert LogOk(s.states[n].seen, s.accepted[n], s.relayed[n]);
    var accepted, relayed := s.accepted[n], s.relayed[n];
    at :| PicksAt(at, accepted, relayed);
    forall i, j | 0 <= i < j < |relayed| && relayed[i] == relayed[j]
      ensures at[i] + CACHE_SIZE < at[j] && NoDuplicates(accepted[at[i]..at[i] + CACHE_SIZE + 1])
    {
      RepeatsFarApart(CACHE_SIZE, accepted, at[i], at[j]);
    }
  }

  /** A gateway that has accepted at most 64 different packets has therefore passed each of them on at most once. */
  lemma RelayedAtMostOnce(confs: seq<Config>, m: MeshKeys, steps: seq<NetStep>, n: nat, k: PayloadKey)
    requires OneMesh(confs, m) && n < |confs|
    requires |Values(RunNet(confs, steps).accepted[n])| <= CACHE_SIZE
    ensures multiset(RunNet(confs, steps).relayed[n])[k] <= 1
  {
    var at := RelayedFarApart(confs, m, steps, n);
    EveryRunKeepsInv(confs, m, steps);
    hide RunNet, AirExplained, FirstHop;
    var s := RunNet(confs, steps);
    assert LogOk(s.states[n].seen, s.accepted[n], s.relayed[n]);
    FewValuesAcceptedOnce(CACHE_SIZE, s.accepted[n]);
    DistinctCountsOne(s.relayed[n], k);
  }

  lemma {:induction false} DistinctCountsOne<T>(s: seq<T>, x: T)
    requires NoDuplicates(s)
    ensures multiset(s)[x] <= 1
  {
    if s != [] {
      SplitLast(s);
      DistinctCountsOne(s[..|s| - 1], x);
    }
  }

  lemma {:induction false} CountsOneDistinct<T>(s: seq<T>)
    requires forall x :: x in s ==> multiset(s)[x] <= 1
    ensures NoDuplicates(s)
  {
    if s != [] {
      var init, last := s[..|s| - 1], s[|s| - 1];
      SplitLast(s);
      assert multiset(s) == multiset(init) + multiset{last};
      assert last in s && multiset(init)[last] == 0;
      forall x | x in init ensures multiset(init)[x] <= 1 {
        assert x in s;
      }
      CountsOneDistinct(init);
      assert last !in multiset(init);
    }
  }

  /**
    No loops: while no gateway has accepted more than 64 different packets, no frame passes a
    relay twice, and none passes the gateway that the packet belongs to.
   */
  lemma NoLoops(confs: seq<Config>, m: MeshKeys, steps: seq<NetStep>, f: bytes, o: nat, via: seq<Hop>)
    requires OneMesh(confs, m)
    requires forall n :: 0 <= n < |confs| ==> |Values(RunNet(confs, steps).accepted[n])| <= CACHE_SIZE
    requires Derived(confs, m, RunNet(confs, steps), f, o, via)
    ensures NoDuplicates(Ids(via)) && Open(m, f).Ok? && Open(m, f).value.payload.relayId !in Ids(via)
  {
    hide RunNet, Open, AdvanceBy, RoomFor, KeyOf;
    var s := RunNet(confs, steps);
    var key := KeyOf(Open(m, s.originals[o]).value);
    forall x | x in Ids(via) ensures multiset(Ids(via))[x] <= 1 {
      var i :| 0 <= i < |via| && Ids(via)[i] == x;
      assert PassedBy(confs, s, o, via[i], i);
      var n :| 0 <= n < |confs| && confs[n].relayId == x;
      RelayedAtMostOnce(confs, m, steps, n, key);
    }
    CountsOneDistinct(Ids(via));
  }

  /** A heartbeat starts with an empty path: what report_heartbeat sends. */
  lemma HeartbeatOriginal(conf: Config, now: int, f: bytes)
    requires Seal(KeysOf(conf), EventPacket(conf, now, [Heartbeat([])])) == Ok(f)
    ensures Open(KeysOf(conf), f).Ok?
    ensures var p := Open(KeysOf(conf), f).value;
            p.payload.Event? && p.payload.items == [Heartbeat([])] && p.payload.relayId == conf.relayId
  {
    hide Open, Seal;
    var p := EventPacket(conf, now, [Heartbeat([])]);
    SealedOpens(KeysOf(conf), p);
    assert WellFormed(false, Heartbeat([]));
    ItemsRoundTrip(false, [Heartbeat([])]);
    var q := Open(KeysOf(conf), f).value;
    assert Content(q).payload == q.payload;
  }

  /**
    Wherever a heartbeat is heard, its path is exactly the relays it came through, one for each
    hop after the first; seven at most, so that its length always fits the length byte.
   */
  lemma HeartbeatPathIsRoute(confs: seq<Config>, m: MeshKeys, steps: seq<NetStep>, f: bytes, o: nat, via: seq<Hop>)
    requires OneMesh(confs, m) && Derived(confs, m, RunNet(confs, steps), f, o, via)
    requires var p0 := Open(m, RunNet(confs, steps).originals[o]).value;
             p0.payload.Event? && p0.payload.items == [Heartbeat([])]
    ensures Open(m, f).Ok?
    ensures var p := Open(m, f).value;
            && p.payload.Event? && p.payload.items == [Heartbeat(via)]
            && |via| == p.mhdr.hopCount - 1 && |via| <= 7
            && EncodePath(via).Ok? && |EncodePath(via).value| == 6 * |via| <= 42
  {
    hide RunNet, Open, PassedBy, KeyOf;
    var p0, p := Open(m, RunNet(confs, steps).originals[o]).value, Open(m, f).value;
    assert RoomFor(p0.payload, |via|);
    assert p.payload == Content(p).payload == AdvanceBy(p0, via).payload;
    EmptyUnit(via);
    assert p.payload.items == [Heartbeat(via)];
    HeardPathInRange(m, f);
    assert WellFormed(false, p.payload.items[0]);
    PathRoundTrip(via);
  }

  lemma HeardPathInRange(m: MeshKeys, f: bytes)
    requires Open(m, f).Ok? && Open(m, f).value.payload.Event?
    ensures AllWellFormed(false, Open(m, f).value.payload.items)
  {
    OpenedForm(m, f);
  }
}
