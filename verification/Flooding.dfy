/**
  Flooding ends. Each reception still to come is worth a number that covers everything it can
  cause, and hearing it or losing it always leaves less: for any states of the gateways, even
  ones whose caches forget everything.
 */
module Flooding {
  import opened Wrappers
  import opened Bytes
  import opened Seqs
  import opened Relaying
  import opened Gateway
  import opened NodeRuns
  import opened Network

  function Power(base: nat, e: nat): (p: nat)
  {
    if e == 0 then 1 else base * Power(base, e - 1)
  }

  lemma {:induction false} PowerGrows(base: nat, a: nat, b: nat)
    requires base >= 1 && a <= b
    ensures 1 <= Power(base, a) <= Power(base, b)
  {
    if b > 0 {
      PowerGrows(base, if a == 0 then 0 else a - 1, b - 1);
      if a == 0 {
        AtLeastOnce(base, Power(base, b - 1));
      } else {
        Monotone(base, Power(base, a - 1), Power(base, b - 1));
        AtLeastOnce(base, Power(base, a - 1));
      }
    }
  }

  lemma AtLeastOnce(base: nat, p: nat)
    requires base >= 1 && p >= 1
    ensures base * p >= 1
  {
  }

  lemma Monotone(n: nat, a: nat, b: nat)
    requires a <= b
    ensures n * a <= n * b
  {
  }

  /** How many more times a frame can be passed on, the responses to a command included. */
  function Depth(m: MeshKeys, f: bytes): (d: nat)
    ensures d <= 17
  {
    if Open(m, f).Err? then 0 else
    var p := Open(m, f).value;
    OpenedForm(m, f);
    (8 - p.mhdr.hopCount) + if p.payload.Command? then 10 else 1
  }

  /** The worth of one reception among n gateways, and of all of them. */
  function Worth(m: MeshKeys, n: nat, f: bytes): (w: nat)
  {
    Power(n + 1, Depth(m, f))
  }

  function Work(m: MeshKeys, n: nat, air: seq<Reception>): (w: nat)
  {
    if air == [] then 0 else
    Work(m, n, air[..|air| - 1]) + Worth(m, n, air[|air| - 1].frame)
  }

  lemma {:induction false} WorkAppend(m: MeshKeys, n: nat, a: seq<Reception>, b: seq<Reception>)
    ensures Work(m, n, a + b) == Work(m, n, a) + Work(m, n, b)
  {
    if b == [] {
      EmptyUnit(a);
    } else {
      assert (a + b)[..|a + b| - 1] == a + b[..|b| - 1];
      WorkAppend(m, n, a, b[..|b| - 1]);
    }
  }

  lemma WorkWithout(m: MeshKeys, n: nat, air: seq<Reception>, i: nat)
    requires i < |air|
    ensures Work(m, n, Without(air, i)) == Work(m, n, air) - Worth(m, n, air[i].frame)
  {
    var one := [air[i]];
    assert air == air[..i] + (one + air[i + 1..]);
    WorkAppend(m, n, air[..i], one + air[i + 1..]);
    WorkAppend(m, n, one, air[i + 1..]);
    WorkAppend(m, n, air[..i], air[i + 1..]);
    assert one[..0] == [];
  }

  lemma {:induction false} WorkOfHeard(m: MeshKeys, n: nat, air: seq<Reception>, f: bytes)
    requires forall i :: 0 <= i < |air| ==> air[i].frame == f
    ensures Work(m, n, air) == |air| * Worth(m, n, f)
  {
    if air != [] {
      WorkOfHeard(m, n, air[..|air| - 1], f);
      Products(|air| - 1, 0, Worth(m, n, f));
    }
  }

  /** Fewer than n + 1 receptions of one level are worth less than one of the next. */
  lemma FewOfOneLevel(n: nat, k: nat, e: nat)
    requires k <= n
    ensures k * Power(n + 1, e) <= n * Power(n + 1, e) < Power(n + 1, e + 1)
    ensures k * Power(n + 1, e) + Power(n + 1, e) <= Power(n + 1, e + 1)
  {
    hide Power;
    PowerGrows(n + 1, 0, e);
    PowerNext(n + 1, e);
    Products(n, k, Power(n + 1, e));
  }

  lemma PowerNext(base: nat, e: nat)
    ensures Power(base, e + 1) == base * Power(base, e)
  {
  }

  lemma Products(n: nat, k: nat, w: nat)
    requires k <= n
    ensures k * w <= n * w && (n + 1) * w == n * w + w
  {
  }

  /** A frame that is heard once by each of n gateways is worth less than one reception a level above it. */
  lemma BroadcastIsWorthLess(m: MeshKeys, n: nat, f: bytes, depth: nat, hears: Hearers, first: nat)
    requires Depth(m, f) < depth
    ensures Work(m, n, Broadcast([f], n, hears, first)) < Power(n + 1, depth)
  {
    hide Depth, Work, Power;
    var heard := Heard(f, 0, n, hears, first);
    OneBroadcast(f, n, hears, first);
    WorkOfHeard(m, n, heard, f);
    PowerGrows(n + 1, Depth(m, f) + 1, depth);
    FewOfOneLevel(n, |heard|, Depth(m, f));
  }

  lemma OneBroadcast(f: bytes, n: nat, hears: Hearers, first: nat)
    ensures Broadcast([f], n, hears, first) == Heard(f, 0, n, hears, first)
  {
    assert [f][..0] == [];
    assert Broadcast([], n, hears, first) == [];
    EmptyUnit(Heard(f, 0, n, hears, first));
  }

  /** What a reception sends has further to go down: a hop more, or the end of a command. */
  lemma SentIsShallower(conf: Config, st: NodeState, rx: UplinkFrame, env: Env)
    ensures var m, frames := KeysOf(conf), Frames(HandleMesh(conf, st, rx, env).1.out);
            |frames| <= 1 && (frames != [] ==> Depth(m, frames[0]) < Depth(m, rx.phyPayload))
  {
    hide HandleMesh, Open, RelayFrame, Seal;
    var m, frames := KeysOf(conf), Frames(HandleMesh(conf, st, rx, env).1.out);
    FramesOfReception(conf, st, rx, env);
    if frames != [] {
      OpenedForm(m, rx.phyPayload);
      if IsForeign(conf, rx.phyPayload) {
        RelayedFrame(m, AsRelay(conf, rx.rxInfo.value), rx.phyPayload);
        RelayedKind(m, AsRelay(conf, rx.rxInfo.value), rx.phyPayload);
      } else {
        var items :| Seal(m, EventPacket(conf, env.now, items)) == Ok(frames[0]);
        SealedHeader(m, EventPacket(conf, env.now, items));
        OpenedForm(m, frames[0]);
      }
    }
  }

  lemma RelayedKind(m: MeshKeys, r: Relay, b: bytes)
    requires Open(m, b).Ok? && RelayFrame(m, r, b).Ok? && Open(m, RelayFrame(m, r, b).value).Ok?
    ensures Open(m, RelayFrame(m, r, b).value).value.payload.Command? <==> Open(m, b).value.payload.Command?
  {
    RelayedFrame(m, r, b);
    OpenedForm(m, b);
    OpenedForm(m, RelayFrame(m, r, b).value);
  }

  /** A step in which a frame is heard or lost, and nothing new is sent by a gateway of its own accord. */
  predicate IsQuiet(step: NetStep) {
    !step.Act?
  }

  lemma QuietStepLowersWork(confs: seq<Config>, m: MeshKeys, s: Net, step: NetStep)
    requires OneMesh(confs, m) && ShapeOk(confs, s) && Enabled(s, step) && IsQuiet(step)
    ensures Work(m, |confs|, Next(confs, s, step).air) < Work(m, |confs|, s.air)
  {
    hide HandleMesh, Work, Worth;
    match step {
      case Act(_, _, _) =>
      case Lose(i) =>
        WorkWithout(m, |confs|, s.air, i);
        WorthPositive(m, |confs|, s.air[i].frame);
      case Receive(i, radio, env, hears) =>
        ReceiveLowersWork(confs, m, s, i, radio, env, hears);
    }
  }

  lemma WorthPositive(m: MeshKeys, n: nat, f: bytes)
    ensures Worth(m, n, f) >= 1
  {
    PowerGrows(n + 1, 0, Depth(m, f));
  }

  lemma ReceiveLowersWork(
    confs: seq<Config>, m: MeshKeys, s: Net, i: nat, radio: Radio, env: Env, hears: Hearers)
    requires OneMesh(confs, m) && ShapeOk(confs, s) && i < |s.air|
    ensures Work(m, |confs|, AfterReceive(confs, s, i, radio, env, hears).air) < Work(m, |confs|, s.air)
  {
    hide HandleMesh, Depth, Fresh, IsForeign, Work, Open, KeysOf, Broadcast;
    var Reception(k, b, _) := s.air[i];
    var n, first := |confs|, OriginSent(confs[k], s, s.air[i]);
    var frames := Frames(HandleMesh(confs[k], s.states[k], RxFrame(b, radio), env).1.out);
    SentIsShallower(confs[k], s.states[k], RxFrame(b, radio), env);
    WorkWithout(m, n, s.air, i);
    WorkAppend(m, n, Without(s.air, i), Broadcast(frames, n, hears, first));
    WorthPositive(m, n, b);
    if frames == [] {
      NoWork(m, n, hears, first);
    } else {
      assert frames == [frames[0]];
      BroadcastIsWorthLess(m, n, frames[0], Depth(m, b), hears, first);
    }
  }

  lemma NoWork(m: MeshKeys, n: nat, hears: Hearers, first: nat)
    ensures Work(m, n, Broadcast([], n, hears, first)) == 0
  {
  }

  /**
    Between originals, frames are heard or lost only so often: in every sequence of nets whose air
    changes by such steps, whatever happens to the gateways' states in between, there are at most
    as many steps as the air of the first is worth.
   */
  lemma {:induction false} FloodingEnds(confs: seq<Config>, m: MeshKeys, nets: seq<Net>, steps: seq<NetStep>)
    requires OneMesh(confs, m) && |nets| == |steps| + 1
    requires forall i :: 0 <= i < |nets| ==> ShapeOk(confs, nets[i])
    requires forall i :: 0 <= i < |steps| ==> IsQuiet(steps[i]) && Enabled(nets[i], steps[i])
    requires forall i :: 0 <= i < |steps| ==> nets[i + 1].air == Next(confs, nets[i], steps[i]).air
    ensures |steps| + Work(m, |confs|, nets[|steps|].air) <= Work(m, |confs|, nets[0].air)
  {
    hide Next, Work, Enabled;
    if steps != [] {
      var k := |steps| - 1;
      FloodingEnds(confs, m, nets[..k + 1], steps[..k]);
      QuietStepLowersWork(confs, m, nets[k], steps[k]);
    }
  }

  /** The receptions of an uplink, downlink or event by n gateways are worth less than (n+1)^9 when it is sent. */
  lemma OriginalIsWorth(m: MeshKeys, n: nat, f: bytes, hears: Hearers, first: nat)
    requires FirstHop(m, f) && !Open(m, f).value.payload.Command?
    ensures Work(m, n, Broadcast([f], n, hears, first)) < Power(n + 1, 9)
  {
    BroadcastIsWorthLess(m, n, f, 9, hears, first);
  }

  /** Those of a command, the responses of all relays to it included, less than (n+1)^18. */
  lemma CommandIsWorth(m: MeshKeys, n: nat, f: bytes, hears: Hearers, first: nat)
    requires FirstHop(m, f)
    ensures Work(m, n, Broadcast([f], n, hears, first)) < Power(n + 1, 18)
  {
    BroadcastIsWorthLess(m, n, f, 18, hears, first);
  }
}
