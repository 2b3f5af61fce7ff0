/**
  Which commands a relay runs, told from the frames it hears alone: those of each command payload that
  is later than all it ran before, and of no other.
 */
module CommandRuns {
  import opened Wrappers
  import opened Bytes
  import opened Seqs
  import opened Cipher
  import opened Tlv
  import opened Packets
  import opened PayloadCache
  import opened Relaying
  import opened Cache
  import opened Gateway
  import opened NodeRuns
  import opened Network
  import opened MeshRuns

  /** The step is one in which a relay hears, as new, a command payload addressed to it. */
  predicate IsOrder(conf: Config, st: NodeState, s: NodeRuns.Step) {
    && s.op.Hear? && !conf.borderGateway && s.op.rx.rxInfo.Some? && Fresh(conf, st, s.op.rx.phyPayload)
    && var pl := Open(KeysOf(conf), s.op.rx.phyPayload).value.payload;
       pl.Command? && pl.relayId == conf.relayId
  }

  /** Later than every one of these. */
  predicate Later(pl: Payload, payloads: seq<Payload>)
    requires pl.Command? && forall i :: 0 <= i < |payloads| ==> payloads[i].Command?
  {
    forall i :: 0 <= i < |payloads| ==> payloads[i].timestamp < pl.timestamp
  }

  /** Over a run: the command payloads that were later, when they were heard, than all of these before. */
  function Due(conf: Config, steps: seq<NodeRuns.Step>): (payloads: seq<Payload>)
    ensures forall i :: 0 <= i < |payloads| ==> payloads[i].Command?
  {
    if steps == [] then [] else
    var init, last := steps[..|steps| - 1], steps[|steps| - 1];
    Due(conf, init) +
    if IsOrder(conf, Run(conf, init).0, last) &&
       Later(Open(KeysOf(conf), last.op.rx.phyPayload).value.payload, Due(conf, init))
    then [Open(KeysOf(conf), last.op.rx.phyPayload).value.payload] else []
  }

  /** These commands are run: one after the other, each with its own tag and value. */
  predicate RunsItems(out: seq<Output>, items: seq<Item>) {
    |out| == |items| &&
    forall i :: 0 <= i < |items| ==> items[i].Proprietary? && out[i] == RunCommand(items[i].tag, items[i].value)
  }

  /** The commands of all these payloads are run, payload after payload. */
  ghost predicate RunsPayloads(out: seq<Output>, payloads: seq<Payload>)
    requires forall i :: 0 <= i < |payloads| ==> payloads[i].Command?
    decreases |payloads|
  {
    if payloads == [] then out == [] else
    exists k :: 0 <= k <= |out| && RunsPayloads(out[..k], payloads[..|payloads| - 1]) &&
                RunsItems(out[k..], payloads[|payloads| - 1].items)
  }

  lemma RunsAreItems(items: seq<Item>)
    requires AllWellFormed(true, items)
    ensures RunsItems(Runs(items), items)
  {
    forall i | 0 <= i < |items| ensures items[i].Proprietary? {
      assert WellFormed(true, items[i]);
    }
  }

  lemma {:induction false} RunsOfArePayloads(payloads: seq<Payload>)
    requires forall i :: 0 <= i < |payloads| ==> payloads[i].Command? && AllWellFormed(true, payloads[i].items)
    ensures RunsPayloads(RunsOf(payloads), payloads)
  {
    hide RunsItems, Runs, AllWellFormed;
    if payloads != [] {
      var init, last := payloads[..|payloads| - 1], payloads[|payloads| - 1];
      RunsOfArePayloads(init);
      RunsAreItems(last.items);
      var out, k := RunsOf(init) + Runs(last.items), |RunsOf(init)|;
      assert out[..k] == RunsOf(init) && out[k..] == Runs(last.items);
    }
  }

  /** The gate of a gateway that remembers the time of the last of these payloads. */
  lemma GateIsLater(st: NodeState, pl: Payload, payloads: seq<Payload>)
    requires pl.Command? && forall i :: 0 <= i < |payloads| ==> payloads[i].Command?
    requires TimesIncrease(payloads) && st.lastCommand == LatestTime(payloads)
    ensures CommandIsNew(st, pl.timestamp) <==> Later(pl, payloads)
  {
    if payloads != [] && CommandIsNew(st, pl.timestamp) {
      forall i | 0 <= i < |payloads| ensures payloads[i].timestamp < pl.timestamp {
        assert i < |payloads| - 1 ==> payloads[i].timestamp < payloads[|payloads| - 1].timestamp;
      }
    }
  }

  lemma ExecutedIsOrder(conf: Config, st: NodeState, s: NodeRuns.Step)
    ensures Executed(conf, st, s) ==
            if IsOrder(conf, st, s) &&
               CommandIsNew(st, Open(KeysOf(conf), s.op.rx.phyPayload).value.payload.timestamp)
            then Some(Open(KeysOf(conf), s.op.rx.phyPayload).value.payload) else None
  {
    hide Open;
  }

  lemma {:induction false} DueIsExecuted(conf: Config, steps: seq<NodeRuns.Step>)
    ensures Due(conf, steps) == ExecutedOver(conf, steps)
  {
    hide Run, Open, Executed, IsOrder, Later, CommandIsNew, TimesIncrease;
    if steps != [] {
      var init, last := steps[..|steps| - 1], steps[|steps| - 1];
      DueIsExecuted(conf, init);
      CommandsRunAtMostOnce(conf, init);
      ExecutedIsOrder(conf, Run(conf, init).0, last);
      if IsOrder(conf, Run(conf, init).0, last) {
        OrderIsCommand(conf, Run(conf, init).0, last);
        GateIsLater(
          Run(conf, init).0, Open(KeysOf(conf), last.op.rx.phyPayload).value.payload, ExecutedOver(conf, init));
      }
    }
  }

  lemma OrderIsCommand(conf: Config, st: NodeState, s: NodeRuns.Step)
    requires IsOrder(conf, st, s)
    ensures s.op.Hear? && Open(KeysOf(conf), s.op.rx.phyPayload).Ok?
    ensures Open(KeysOf(conf), s.op.rx.phyPayload).value.payload.Command?
    ensures AllWellFormed(true, Open(KeysOf(conf), s.op.rx.phyPayload).value.payload.items)
  {
    OpenedForm(KeysOf(conf), s.op.rx.phyPayload);
    hide Open;
  }

  /**
    Over any run a relay runs exactly the commands of the payloads due, in order, and remembers the time of
    the last of them.
   */
  lemma CommandsRunExactly(conf: Config, steps: seq<NodeRuns.Step>)
    ensures var due, (st, out) := Due(conf, steps), Run(conf, steps);
            && RunsPayloads(CommandsRun(out), due)
            && st.lastCommand == (if due == [] then None else Some(due[|due| - 1].timestamp))
            && forall i, j :: 0 <= i < j < |due| ==> due[i].timestamp < due[j].timestamp
  {
    hide Run, Due, RunsOf, RunsPayloads, CommandsRun;
    DueIsExecuted(conf, steps);
    CommandsRunAtMostOnce(conf, steps);
    RunsOfArePayloads(ExecutedOver(conf, steps));
  }

  /**
    Command payload by command payload: it is executed exactly if it is later than all those executed
    before. Then all its commands are run, first of all, and its time is remembered; otherwise nothing
    happens, and an error is reported.
   */
  lemma OrderExecutedExactly(conf: Config, steps: seq<NodeRuns.Step>, rx: UplinkFrame, env: Env)
    requires IsOrder(conf, Run(conf, steps).0, NodeRuns.Step(Hear(rx), env))
    ensures Open(KeysOf(conf), rx.phyPayload).Ok? && Open(KeysOf(conf), rx.phyPayload).value.payload.Command?
    ensures var st, pl := Run(conf, steps).0, Open(KeysOf(conf), rx.phyPayload).value.payload;
            var (st', o) := HandleMesh(conf, st, rx, env);
            if Later(pl, Due(conf, steps)) then
              && st'.lastCommand == Some(pl.timestamp) && |o.out| >= |pl.items|
              && RunsItems(o.out[..|pl.items|], pl.items)
              && forall i :: |pl.items| <= i < |o.out| ==> o.out[i].MeshFrame?
            else
              st'.lastCommand == st.lastCommand && o.out == [] && o.result == Err(TimestampNotIncremented)
  {
    hide Run, Open, HandleMesh, Due, RunsItems, CommandIsNew, Later, ExecuteCommands, KeyOf;
    var st, pl := Run(conf, steps).0, Open(KeysOf(conf), rx.phyPayload).value.payload;
    OrderIsCommand(conf, st, NodeRuns.Step(Hear(rx), env));
    HandleMeshExactly(conf, st, rx, env);
    GateOfOrder(conf, steps, rx, env);
    PayloadExecuted(conf, Noted(conf, st, rx.phyPayload), pl, env);
  }

  /** The state in which a packet that is taken for new is handled. */
  function Noted(conf: Config, st: NodeState, b: bytes): (mid: NodeState)
    requires Open(KeysOf(conf), b).Ok?
  {
    st.(seen := AddSpec(CACHE_SIZE, st.seen, KeyOf(Open(KeysOf(conf), b).value)).0)
  }

  lemma GateOfOrder(conf: Config, steps: seq<NodeRuns.Step>, rx: UplinkFrame, env: Env)
    requires IsOrder(conf, Run(conf, steps).0, NodeRuns.Step(Hear(rx), env))
    ensures Open(KeysOf(conf), rx.phyPayload).Ok? && Open(KeysOf(conf), rx.phyPayload).value.payload.Command?
    ensures var pl := Open(KeysOf(conf), rx.phyPayload).value.payload;
            CommandIsNew(Noted(conf, Run(conf, steps).0, rx.phyPayload), pl.timestamp) <==> Later(pl, Due(conf, steps))
  {
    hide Run, Open, Due, CommandIsNew, Later, KeyOf;
    var st, pl := Run(conf, steps).0, Open(KeysOf(conf), rx.phyPayload).value.payload;
    OrderIsCommand(conf, st, NodeRuns.Step(Hear(rx), env));
    DueIsExecuted(conf, steps);
    CommandsRunAtMostOnce(conf, steps);
    GateIsLater(st, pl, ExecutedOver(conf, steps));
    GateOfState(st, Noted(conf, st, rx.phyPayload), pl.timestamp);
  }

  lemma GateOfState(st: NodeState, mid: NodeState, t: SystemTime)
    requires mid.lastCommand == st.lastCommand
    ensures CommandIsNew(mid, t) <==> CommandIsNew(st, t)
  {
  }

  lemma PayloadExecuted(conf: Config, st: NodeState, pl: Payload, env: Env)
    requires pl.Command? && AllWellFormed(true, pl.items)
    ensures var (st', o) := ExecuteCommands(conf, st, pl, env);
            if CommandIsNew(st, pl.timestamp) then
              && st'.lastCommand == Some(pl.timestamp) && |o.out| >= |pl.items|
              && RunsItems(o.out[..|pl.items|], pl.items)
              && forall i :: |pl.items| <= i < |o.out| ==> o.out[i].MeshFrame?
            else
              st' == st && o.out == [] && o.result == Err(TimestampNotIncremented)
  {
    hide RunsItems, Responses, CommandIsNew, SealAndTransmit, EventPacket;
    RunsAreItems(pl.items);
    if CommandIsNew(st, pl.timestamp) {
      var (st', o) := ExecuteCommands(conf, st, pl, env);
      assert o.out[..|pl.items|] == Runs(pl.items);
    }
  }

  /** In every run of a mesh, the same of each of its gateways. */
  lemma MeshCommandsRunExactly(confs: seq<Config>, steps: seq<NetStep>, n: nat)
    requires n < |confs|
    ensures var s, due := RunNet(confs, steps), Due(confs[n], Projection(confs, steps, n));
            && RunsPayloads(CommandsRun(s.outputs[n]), due)
            && s.states[n].lastCommand == (if due == [] then None else Some(due[|due| - 1].timestamp))
            && forall i, j :: 0 <= i < j < |due| ==> due[i].timestamp < due[j].timestamp
  {
    hide Run, Due, RunsPayloads, CommandsRun, RunNet, Projection;
    NodeOfNet(confs, steps, n);
    CommandsRunExactly(confs[n], Projection(confs, steps, n));
  }

  // ---------- Responses ----------

  predicate Prints(item: Item, k: nat, env: Env)
    requires item.Proprietary?
  {
    env.run(k, item.tag, item.value).Some?
  }

  /** The responses are those of the commands that printed something, in order, each under its command's tag. */
  predicate AreResponses(items: seq<Item>, env: Env, events: seq<Item>, at: seq<nat>) {
    && |at| == |events|
    && (forall j :: 0 <= j < |at| ==>
          && at[j] < |items| && items[at[j]].Proprietary?
          && var printed := env.run(at[j], items[at[j]].tag, items[at[j]].value);
             printed.Some? && events[j] == Proprietary(items[at[j]].tag, printed.value))
    && (forall i, j :: 0 <= i < j < |at| ==> at[i] < at[j])
    && forall k :: 0 <= k < |items| && items[k].Proprietary? && Prints(items[k], k, env) ==> k in at
  }

  lemma {:induction false} ResponsesExactly(items: seq<Item>, env: Env) returns (at: seq<nat>)
    requires AllWellFormed(true, items)
    ensures AreResponses(items, env, Responses(items, env), at)
  {
    if items == [] {
      at := [];
    } else {
      var n := |items| - 1;
      assert WellFormed(true, items[n]);
      at := ResponsesExactly(items[..n], env);
      var before, printed := Responses(items[..n], env), env.run(n, items[n].tag, items[n].value);
      EmptyUnit(before);
      at := OneMoreResponse(items, env, before, at);
    }
  }

  lemma OneMoreResponse(items: seq<Item>, env: Env, before: seq<Item>, at: seq<nat>) returns (all: seq<nat>)
    requires items != [] && items[|items| - 1].Proprietary?
    requires AreResponses(items[..|items| - 1], env, before, at)
    ensures var n := |items| - 1;
            var printed := env.run(n, items[n].tag, items[n].value);
            AreResponses(
              items, env,
              before + if printed.None? then [] else [Proprietary(items[n].tag, printed.value)], all)
  {
    var n := |items| - 1;
    var printed := env.run(n, items[n].tag, items[n].value);
    all := at + if printed.None? then [] else [n];
    forall k | 0 <= k < |items| && items[k].Proprietary? && Prints(items[k], k, env)
      ensures k in all
    {
      if k < n {
        assert items[..n][k] == items[k];
        assert k in at;
      } else {
        assert all[|at|] == n;
      }
    }
  }
}
