/** The mesh frequencies over a run: strictly in turn, whatever is sent and whether or not it is acknowledged. */
module ChannelRuns {
  import opened Wrappers
  import opened Bytes
  import opened Seqs
  import opened Numbers
  import opened Tlv
  import opened Packets
  import opened Relaying
  import opened Gateway
  import opened NodeRuns
  import opened Hex
  import opened Cache
  import opened PayloadCache
  import opened Network

  /** The frequencies of the mesh frames among some effects, in order. */
  function Used(out: seq<Output>): (frequencies: seq<u32>)
  {
    if out == [] then [] else
    var last := out[|out| - 1];
    Used(out[..|out| - 1]) + if last.MeshFrame? then [last.frequency] else []
  }

  /** The entry that is reached from entry c of n after k turns. */
  function Turn(n: nat, c: nat, k: nat): (e: nat)
    requires c < n
    ensures e < n
  {
    if k == 0 then c else
    var e := Turn(n, c, k - 1);
    if e + 1 == n then 0 else e + 1
  }

  /** The next `count` frequencies after entry `channel`, in turn. */
  function InTurn(frequencies: seq<u32>, channel: nat, count: nat): (used: seq<u32>)
    requires channel < |frequencies|
    ensures |used| == count
  {
    seq(count, j requires 0 <= j < count => frequencies[Turn(|frequencies|, channel, j + 1)])
  }

  lemma {:induction false} UsedAppend(a: seq<Output>, b: seq<Output>)
    ensures Used(a + b) == Used(a) + Used(b)
  {
    if b == [] {
      EmptyUnit(a);
      EmptyUnit(Used(a));
    } else {
      var init, last := b[..|b| - 1], b[|b| - 1];
      assert (a + b)[..|a + b| - 1] == a + init;
      UsedAppend(a, init);
      Associative(Used(a), Used(init), if last.MeshFrame? then [last.frequency] else []);
    }
  }

  lemma {:induction false} NothingUsed(out: seq<Output>)
    requires forall i :: 0 <= i < |out| ==> !out[i].MeshFrame?
    ensures Used(out) == []
  {
    if out != [] {
      NothingUsed(out[..|out| - 1]);
    }
  }

  lemma OneUsed(out: seq<Output>)
    requires |out| == 1
    ensures Used(out) == if out[0].MeshFrame? then [out[0].frequency] else []
  {
    assert out[..0] == [];
    assert Used([]) == [];
  }

  /** From one state to another, these effects used the frequencies in turn, and the channel moved with them. */
  predicate TurnTaken(conf: Config, st: NodeState, st': NodeState, out: seq<Output>) {
    && st.channel < |conf.frequencies|
    && st'.channel == Turn(|conf.frequencies|, st.channel, |Used(out)|)
    && Used(out) == InTurn(conf.frequencies, st.channel, |Used(out)|)
  }

  lemma NoTurn(conf: Config, st: NodeState, st': NodeState, out: seq<Output>)
    requires st.channel < |conf.frequencies| && st'.channel == st.channel
    requires forall i :: 0 <= i < |out| ==> !out[i].MeshFrame?
    ensures TurnTaken(conf, st, st', out)
  {
    NothingUsed(out);
  }

  lemma OneTurn(conf: Config, st: NodeState, frame: bytes)
    requires st.channel < |conf.frequencies|
    ensures NextFrequency(conf, st).1.Ok?
    ensures TurnTaken(conf, st, NextFrequency(conf, st).0, [MeshFrame(frame, NextFrequency(conf, st).1.value)])
  {
    OneUsed([MeshFrame(frame, NextFrequency(conf, st).1.value)]);
    assert Turn(|conf.frequencies|, st.channel, 0) == st.channel;
  }

  lemma {:induction false} TurnAgain(n: nat, c: nat, a: nat, b: nat)
    requires c < n
    ensures Turn(n, Turn(n, c, a), b) == Turn(n, c, a + b)
    decreases b
  {
    if b > 0 {
      TurnAgain(n, c, a, b - 1);
    }
  }

  lemma TurnsCompose(conf: Config, st: NodeState, a: seq<Output>, st': NodeState, b: seq<Output>, st'': NodeState)
    requires TurnTaken(conf, st, st', a) && TurnTaken(conf, st', st'', b)
    ensures TurnTaken(conf, st, st'', a + b)
  {
    UsedAppend(a, b);
    hide Used, Turn;
    var n, x, y := |conf.frequencies|, Used(a), Used(b);
    TurnAgain(n, st.channel, |x|, |y|);
    forall j | 0 <= j < |y| ensures y[j] == conf.frequencies[Turn(n, st.channel, |x| + j + 1)] {
      TurnAgain(n, st.channel, |x|, j + 1);
    }
    assert x + y == InTurn(conf.frequencies, st.channel, |x + y|);
  }

  // ---------- One step ----------

  lemma TransmitTurn(conf: Config, st: NodeState, frame: bytes, ok: bool)
    requires st.channel < |conf.frequencies|
    ensures TurnTaken(conf, st, Transmit(conf, st, frame, ok).0, Transmit(conf, st, frame, ok).1.out)
  {
    OneTurn(conf, st, frame);
  }

  lemma SealTurn(conf: Config, st: NodeState, p: Packet, ok: bool)
    requires st.channel < |conf.frequencies|
    ensures TurnTaken(conf, st, SealAndTransmit(conf, st, p, ok).0, SealAndTransmit(conf, st, p, ok).1.out)
  {
    hide Seal, Transmit, TurnTaken;
    match Seal(KeysOf(conf), p) {
      case Err(_) => NoTurn(conf, st, st, []);
      case Ok(frame) => TransmitTurn(conf, st, frame, ok);
    }
  }

  lemma {:induction false} AttemptsTurn(conf: Config, st: NodeState, items: seq<DownlinkItem>, env: Env, i: nat)
    requires i <= |items| && st.channel < |conf.frequencies|
    ensures TurnTaken(conf, st, Attempts(conf, st, items, env, i).0, Attempts(conf, st, items, env, i).1.out)
    decreases |items| - i
  {
    hide TurnTaken, DownlinkMeshFrame;
    if i == |items| {
      NoTurn(conf, st, st, []);
    } else {
      match DownlinkMeshFrame(conf, items[i]) {
        case Err(_) => NoTurn(conf, st, st, []);
        case Ok(frame) =>
          OneTurn(conf, st, frame);
          hide NextFrequency;
          if !env.meshOk(i) {
            var (st', sent) := PrepareDownlink(conf, st, items[i]);
            ChannelInRange(conf, st, st', [sent.value]);
            AttemptsTurn(conf, st', items, env, i + 1);
            TurnsCompose(
              conf, st, [sent.value], st', Attempts(conf, st', items, env, i + 1).1.out,
              Attempts(conf, st', items, env, i + 1).0);
          }
      }
    }
  }

  lemma ChannelInRange(conf: Config, st: NodeState, st': NodeState, out: seq<Output>)
    requires TurnTaken(conf, st, st', out)
    ensures st'.channel < |conf.frequencies|
  {
  }

  lemma SameChannel(conf: Config, st: NodeState, mid: NodeState, st': NodeState, out: seq<Output>)
    requires TurnTaken(conf, mid, st', out) && mid.channel == st.channel
    ensures TurnTaken(conf, st, st', out)
  {
  }

  lemma HearTurn(conf: Config, st: NodeState, rx: UplinkFrame, env: Env)
    requires st.channel < |conf.frequencies|
    ensures TurnTaken(conf, st, HandleMesh(conf, st, rx, env).0, HandleMesh(conf, st, rx, env).1.out)
  {
    hide TurnTaken, HandleMesh, Dispatch, Open, KeyOf;
    HandleMeshExactly(conf, st, rx, env);
    if Fresh(conf, st, rx.phyPayload) {
      var p := Open(KeysOf(conf), rx.phyPayload).value;
      var mid := st.(seen := AddSpec(CACHE_SIZE, st.seen, KeyOf(p)).0);
      DispatchTurn(conf, mid, rx, p, env);
      SameChannel(conf, st, mid, HandleMesh(conf, st, rx, env).0, HandleMesh(conf, st, rx, env).1.out);
    } else {
      NoTurn(conf, st, st, []);
    }
  }

  lemma DispatchTurn(conf: Config, st: NodeState, rx: UplinkFrame, p: Packet, env: Env)
    requires OpenForm(p) && st.channel < |conf.frequencies|
    ensures TurnTaken(conf, st, Dispatch(conf, st, rx, p, env).0, Dispatch(conf, st, rx, p, env).1.out)
  {
    hide TurnTaken, ForwardPacket, ExecuteCommands, ProxyUplink, DeliverDownlink;
    if !conf.borderGateway && rx.rxInfo.Some? && p.payload.relayId != conf.relayId {
      ForwardTurn(conf, st, rx.rxInfo.value, p, env);
    } else if !conf.borderGateway && rx.rxInfo.Some? && p.payload.Command? {
      CommandTurn(conf, st, p.payload, env);
    } else {
      OthersSendNothing(conf, rx, p, st, env);
      NoTurn(conf, st, Dispatch(conf, st, rx, p, env).0, Dispatch(conf, st, rx, p, env).1.out);
    }
  }

  lemma ForwardTurn(conf: Config, st: NodeState, rx: RxInfo, p: Packet, env: Env)
    requires p.mhdr.hopCount < 0xff && st.channel < |conf.frequencies|
    ensures TurnTaken(conf, st, ForwardPacket(conf, st, rx, p, env).0, ForwardPacket(conf, st, rx, p, env).1.out)
  {
    hide TurnTaken, Forward, Transmit;
    match Forward(KeysOf(conf), Relay(Hop(conf.relayId, AsI16(rx.rssi), rx.snr), conf.maxHopCount), p) {
      case Err(_) => NoTurn(conf, st, st, []);
      case Ok(frame) => TransmitTurn(conf, st, frame, env.meshOk(0));
    }
  }

  lemma CommandTurn(conf: Config, st: NodeState, pl: Payload, env: Env)
    requires pl.Command? && AllWellFormed(true, pl.items) && st.channel < |conf.frequencies|
    ensures TurnTaken(conf, st, ExecuteCommands(conf, st, pl, env).0, ExecuteCommands(conf, st, pl, env).1.out)
  {
    hide TurnTaken, SealAndTransmit, Responses, Runs;
    if !CommandIsNew(st, pl.timestamp) {
      NoTurn(conf, st, st, []);
    } else {
      var st' := st.(lastCommand := Some(pl.timestamp));
      var events := Responses(pl.items, env);
      NoTurn(conf, st, st', Runs(pl.items));
      if events != [] {
        SealTurn(conf, st', EventPacket(conf, env.now, events), env.meshOk(0));
        var (st'', sent) := SendEvents(conf, st', events, env);
        TurnsCompose(conf, st, Runs(pl.items), st', sent.out, st'');
      }
    }
  }

  lemma UplinkTurn(conf: Config, st: NodeState, up: UplinkFrame, env: Env)
    requires st.channel < |conf.frequencies|
    ensures TurnTaken(conf, st, HandleUplink(conf, st, up, env).0, HandleUplink(conf, st, up, env).1.out)
  {
    hide TurnTaken, SealAndTransmit;
    var (st', o) := HandleUplink(conf, st, up, env);
    if conf.borderGateway || up.rxInfo.None? || up.txInfo.None? || up.txInfo.value.modulation.None? {
      NoTurn(conf, st, st', o.out);
    } else {
      var mid := StoreContext(st, up.rxInfo.value.context);
      match UplinkPacket(conf, mid.uplinkId, up) {
        case Err(_) => NoTurn(conf, st, st', o.out);
        case Ok(p) =>
          SealTurn(conf, mid, p, env.meshOk(0));
          SameChannel(conf, st, mid, st', o.out);
      }
    }
  }

  lemma StepTurn(conf: Config, st: NodeState, s: Step)
    requires st.channel < |conf.frequencies|
    ensures TurnTaken(conf, st, Apply(conf, st, s).0, Apply(conf, st, s).1)
  {
    hide TurnTaken, SealAndTransmit, HandleMesh, HandleUplink, Attempts;
    match s.op {
      case Hear(rx) => HearTurn(conf, st, rx, s.env);
      case DeviceUplink(up) => UplinkTurn(conf, st, up, s.env);
      case ReportEvents(items) => SealTurn(conf, st, EventPacket(conf, s.env.now, items), s.env.meshOk(0));
      case ServerDownlink(items) =>
        AttemptsTurn(conf, st, items, s.env, 0);
        NoTurn(conf, st, st, ProxyDirectDownlink(conf, items, s.env).out);
        NoTurn(conf, st, st, []);
      case MeshCommand(relayId, commands) =>
        NoTurn(conf, st, st, []);
        var id := DecodeRelayId(relayId);
        if id.Ok? {
          SealTurn(conf, st, CommandPacket(s.env.now, id.value, commands), s.env.meshOk(0));
        }
    }
  }

  // ---------- Runs ----------

  lemma {:induction false} RunTurns(conf: Config, steps: seq<Step>)
    requires conf.frequencies != []
    ensures TurnTaken(conf, INITIAL, Run(conf, steps).0, Run(conf, steps).1)
  {
    hide TurnTaken, Apply;
    if steps == [] {
      NoTurn(conf, INITIAL, INITIAL, []);
    } else {
      var init, last := steps[..|steps| - 1], steps[|steps| - 1];
      RunTurns(conf, init);
      var (st, out) := Run(conf, init);
      ChannelInRange(conf, INITIAL, st, out);
      StepTurn(conf, st, last);
      TurnsCompose(conf, INITIAL, out, st, Apply(conf, st, last).1, Apply(conf, st, last).0);
    }
  }

  /** Turns count modulo the number of entries. */
  lemma {:induction false} TurnIsRemainder(n: nat, k: nat)
    requires n > 0
    ensures Turn(n, 0, k) == k % n
  {
    if k == 0 {
      assert k % n == 0;
    } else {
      TurnIsRemainder(n, k - 1);
      NextRemainder(k - 1, n);
    }
  }

  /**
    Over any run the k-th mesh frame, counted from 1, leaves on the frequency k modulo their number:
    in turn, from the second one on, and from the first again after the last.
   */
  lemma FrequenciesInTurn(conf: Config, steps: seq<Step>, k: nat)
    requires conf.frequencies != [] && 1 <= k <= |Used(Run(conf, steps).1)|
    ensures Used(Run(conf, steps).1)[k - 1] == conf.frequencies[k % |conf.frequencies|]
  {
    hide Run, Used;
    RunTurns(conf, steps);
    TurnIsRemainder(|conf.frequencies|, k);
  }

  /** And any as many successive mesh frames as there are frequencies use each of them as often as it is listed. */
  lemma EachFrequencyOnce(conf: Config, steps: seq<Step>, a: nat)
    requires conf.frequencies != [] && a + |conf.frequencies| <= |Used(Run(conf, steps).1)|
    ensures multiset(Used(Run(conf, steps).1)[a..a + |conf.frequencies|]) == multiset(conf.frequencies)
  {
    hide Run, Used;
    RunTurns(conf, steps);
    var n, fs := |conf.frequencies|, conf.frequencies;
    var c := Turn(n, 0, a + 1);
    var window := Used(Run(conf, steps).1)[a..a + n];
    forall j | 0 <= j < n ensures window[j] == (fs[c..] + fs[..c])[j] {
      TurnAgain(n, 0, a + 1, j);
      TurnFrom(n, c, j);
    }
    assert window == fs[c..] + fs[..c];
    assert fs == fs[..c] + fs[c..];
  }

  lemma {:induction false} TurnFrom(n: nat, c: nat, j: nat)
    requires c < n && j < n
    ensures Turn(n, c, j) == if c + j < n then c + j else c + j - n
  {
    if j > 0 {
      TurnFrom(n, c, j - 1);
    }
  }
}
