/** What holds of one gateway over any run of its handlers, from start-up. */
module NodeRuns {
  import opened Wrappers
  import opened Bytes
  import opened Seqs
  import opened Cipher
  import opened Tlv
  import opened Packets
  import opened PayloadCache
  import opened Relaying
  import opened Cache
  import opened Gateway

  datatype Op =
    | Hear(rx: UplinkFrame)
    | DeviceUplink(up: UplinkFrame)
    | ReportEvents(items: seq<Item>)
    | ServerDownlink(downlink: seq<DownlinkItem>)
    | MeshCommand(relayId: string, commands: seq<Option<(u32, bytes)>>)

  datatype Step = Step(op: Op, env: Env)

  function Apply(conf: Config, st: NodeState, s: Step): (r: (NodeState, seq<Output>))
  {
    match s.op
    case Hear(rx) => var (st', o) := HandleMesh(conf, st, rx, s.env); (st', o.out)
    case DeviceUplink(up) => var (st', o) := HandleUplink(conf, st, up, s.env); (st', o.out)
    case ReportEvents(items) => var (st', o) := SendEvents(conf, st, items, s.env); (st', o.out)
    case ServerDownlink(items) => var (st', o) := HandleDownlink(conf, st, items, s.env); (st', o.out)
    case MeshCommand(relayId, commands) => var (st', o) := SendCommand(conf, st, relayId, commands, s.env); (st', o.out)
  }

  function Run(conf: Config, steps: seq<Step>): (r: (NodeState, seq<Output>))
  {
    if steps == [] then (INITIAL, []) else
    var (st, out) := Run(conf, steps[..|steps| - 1]);
    var (st', more) := Apply(conf, st, steps[|steps| - 1]);
    (st', out + more)
  }

  // ---------- Receiving, in terms of what a frame says ----------

  /** The frame is for this gateway to handle: it opens, and it is not in the cache. */
  predicate Fresh(conf: Config, st: NodeState, b: bytes) {
    Open(KeysOf(conf), b).Ok? && KeyOf(Open(KeysOf(conf), b).value) !in st.seen
  }

  /** What a handler does with a packet it takes. */
  function Dispatch(conf: Config, st: NodeState, rx: UplinkFrame, p: Packet, env: Env): (r: (NodeState, Outcome<()>))
    requires OpenForm(p)
  {
    if conf.borderGateway then (st, BorderPacket(conf, rx, p, env)) else RelayPacket(conf, st, rx, p, env)
  }

  /**
    A frame that does not open, or that was seen before, changes nothing and causes nothing. Any
    other is put in the cache and dispatched, whatever becomes of it then.
   */
  lemma HandleMeshExactly(conf: Config, st: NodeState, rx: UplinkFrame, env: Env)
    ensures !Fresh(conf, st, rx.phyPayload) ==>
              HandleMesh(conf, st, rx, env).0 == st && HandleMesh(conf, st, rx, env).1.out == []
    ensures Fresh(conf, st, rx.phyPayload) ==>
              var p := Open(KeysOf(conf), rx.phyPayload).value;
              && OpenForm(p)
              && HandleMesh(conf, st, rx, env) ==
                 Dispatch(conf, st.(seen := AddSpec(CACHE_SIZE, st.seen, KeyOf(p)).0), rx, p, env)
  {
    var m := KeysOf(conf);
    if Parse(rx.phyPayload).Ok? {
      ParsedDecrypts(m.crypto, m.encryption, rx.phyPayload);
      if Open(m, rx.phyPayload).Ok? {
        OpenedForm(m, rx.phyPayload);
        DecryptKeepsKey(m, Parse(rx.phyPayload).value);
      }
    }
  }

  lemma DecryptKeepsKey(m: MeshKeys, p: Packet)
    requires Decrypt(m.crypto, m.encryption, p).Ok?
    ensures KeyOf(Decrypt(m.crypto, m.encryption, p).value) == KeyOf(p)
  {
  }

  // ---------- The cache over a run ----------

  /** The keys of the valid frames heard, in order, whether or not they were seen before. */
  function Arrivals(conf: Config, steps: seq<Step>): (keys: seq<PayloadKey>)
  {
    if steps == [] then [] else
    var last := steps[|steps| - 1];
    Arrivals(conf, steps[..|steps| - 1]) +
    if last.op.Hear? && Open(KeysOf(conf), last.op.rx.phyPayload).Ok?
    then [KeyOf(Open(KeysOf(conf), last.op.rx.phyPayload).value)] else []
  }

  /** The last 64 keys accepted over a run: what the cache holds at its end. */
  function RecentKeys(conf: Config, steps: seq<Step>): (keys: seq<PayloadKey>)
  {
    Last(CACHE_SIZE, Accepted(CACHE_SIZE, Arrivals(conf, steps)))
  }

  /** Only frames from the mesh touch the cache, and then it is exactly the bounded set of their keys. */
  lemma {:induction false} CacheOverRun(conf: Config, steps: seq<Step>)
    ensures Run(conf, steps).0.seen == AddAll(CACHE_SIZE, Arrivals(conf, steps))
    ensures Run(conf, steps).0.seen == RecentKeys(conf, steps)
  {
    CacheHoldsLastAccepted(CACHE_SIZE, Arrivals(conf, steps));
    if steps != [] {
      var init, last := steps[..|steps| - 1], steps[|steps| - 1];
      CacheOverRun(conf, init);
      SeenAfter(conf, Run(conf, init).0, last);
      var before := Arrivals(conf, init);
      if last.op.Hear? && Open(KeysOf(conf), last.op.rx.phyPayload).Ok? {
        var k := KeyOf(Open(KeysOf(conf), last.op.rx.phyPayload).value);
        assert (before + [k])[..|before|] == before;
      } else {
        EmptyUnit(before);
      }
    }
  }

  lemma SeenAfter(conf: Config, st: NodeState, s: Step)
    ensures Apply(conf, st, s).0.seen ==
            if s.op.Hear? && Open(KeysOf(conf), s.op.rx.phyPayload).Ok?
            then AddSpec(CACHE_SIZE, st.seen, KeyOf(Open(KeysOf(conf), s.op.rx.phyPayload).value)).0
            else st.seen
  {
    match s.op {
      case Hear(rx) => HandleMeshExactly(conf, st, rx, s.env);
      case DeviceUplink(_) =>
      case ReportEvents(_) =>
      case ServerDownlink(items) => DownlinkTouchesChannelOnly(conf, st, items, s.env);
      case MeshCommand(_, _) =>
    }
  }

  /**
    The next copy of a packet is dropped, whatever became of the one before: even if that one had
    come over too many hops to be passed on, and this one has not.
   */
  lemma CopyIsDropped(conf: Config, st: NodeState, rx: UplinkFrame, env: Env, copy: UplinkFrame, env': Env)
    requires Open(KeysOf(conf), rx.phyPayload).Ok? && Open(KeysOf(conf), copy.phyPayload).Ok?
    requires KeyOf(Open(KeysOf(conf), copy.phyPayload).value) == KeyOf(Open(KeysOf(conf), rx.phyPayload).value)
    ensures var st' := HandleMesh(conf, st, rx, env).0;
            HandleMesh(conf, st', copy, env').0 == st' && HandleMesh(conf, st', copy, env').1.out == []
  {
    SeenAfter(conf, st, Step(Hear(rx), env));
    hide HandleMesh, Open, KeyOf;
    HandleMeshExactly(conf, HandleMesh(conf, st, rx, env).0, copy, env');
  }

  /** How many packets a gateway has accepted over a run. */
  function AcceptedCount(conf: Config, steps: seq<Step>): (n: nat)
  {
    |Accepted(CACHE_SIZE, Arrivals(conf, steps))|
  }

  lemma ArrivalsAppend(conf: Config, steps: seq<Step>, more: seq<Step>)
    ensures Arrivals(conf, steps) <= Arrivals(conf, steps + more)
    decreases |more|
  {
    hide Open, KeyOf;
    if more == [] {
      EmptyUnit(steps);
    } else {
      var init := more[..|more| - 1];
      assert (steps + more)[..|steps + more| - 1] == steps + init;
      ArrivalsAppend(conf, steps, init);
    }
  }

  /** A packet accepted stays in the cache until 64 others have been accepted. */
  lemma KeyKept(conf: Config, before: seq<Step>, rx: UplinkFrame, env: Env, between: seq<Step>)
    requires Fresh(conf, Run(conf, before).0, rx.phyPayload)
    requires var first := before + [Step(Hear(rx), env)];
             AcceptedCount(conf, first + between) < AcceptedCount(conf, first) + CACHE_SIZE
    ensures KeyOf(Open(KeysOf(conf), rx.phyPayload).value) in
            RecentKeys(conf, before + [Step(Hear(rx), env)] + between)
  {
    var first, key := before + [Step(Hear(rx), env)], KeyOf(Open(KeysOf(conf), rx.phyPayload).value);
    CacheOverRun(conf, before);
    ArrivesLast(conf, before, rx, env);
    hide Run, Open, KeyOf, Accepted;
    var arrivals := Arrivals(conf, before);
    AcceptedAppend(CACHE_SIZE, arrivals, key);
    ArrivalsAppend(conf, first, between);
    AcceptedPrefix(CACHE_SIZE, Arrivals(conf, first), Arrivals(conf, first + between));
    hide Arrivals;
    var accepted := Accepted(CACHE_SIZE, Arrivals(conf, first + between));
    var at := AcceptedCount(conf, first) - 1;
    assert accepted[at] == key;
    StillAmongLast(CACHE_SIZE, accepted, at);
  }

  lemma ArrivesLast(conf: Config, before: seq<Step>, rx: UplinkFrame, env: Env)
    requires Open(KeysOf(conf), rx.phyPayload).Ok?
    ensures Arrivals(conf, before + [Step(Hear(rx), env)]) ==
            Arrivals(conf, before) + [KeyOf(Open(KeysOf(conf), rx.phyPayload).value)]
  {
    hide Open, KeyOf;
    assert (before + [Step(Hear(rx), env)])[..|before|] == before;
  }

  /** What the key of a packet tells apart besides its kind and its relay. */
  predicate SameNumber(a: Payload, b: Payload) {
    match a
    case Uplink(up, _, _) => b.Uplink? && up.uplinkId == b.up.uplinkId
    case Downlink(down, _, _) => b.Downlink? && down.uplinkId == b.down.uplinkId
    case Event(t, _, _) => b.Event? && SameSecond(t, b.timestamp)
    case Command(t, _, _) => b.Command? && SameSecond(t, b.timestamp)
  }

  predicate SameSecond(t: SystemTime, t': SystemTime) {
    t / SECOND % 0x1_0000_0000 == t' / SECOND % 0x1_0000_0000
  }

  /**
    Any two packets sent have the same key, so that the second is dropped by whoever heard the
    first, exactly when they are of one kind and one relay and have the same id or second.
   */
  lemma SentKeysCollideExactly(m: MeshKeys, p: Packet, f: bytes, p': Packet, f': bytes)
    requires Seal(m, p) == Ok(f) && p.mhdr.payloadType == TypeOf(p.payload)
    requires Seal(m, p') == Ok(f') && p'.mhdr.payloadType == TypeOf(p'.payload)
    ensures Open(m, f).Ok? && Open(m, f').Ok?
    ensures KeyOf(Open(m, f).value) == KeyOf(Open(m, f').value)
            <==> p.payload.relayId == p'.payload.relayId && SameNumber(p.payload, p'.payload)
  {
    SealNeedsEncoding(m, p);
    SealNeedsEncoding(m, p');
    SealedHeader(m, p);
    SealedHeader(m, p');
    hide Seal, Open;
  }

  /** Two event packets of one relay have the same key exactly when they share a second. */
  lemma EventKeysCollideExactly(
    conf: Config, t: SystemTime, items: seq<Item>, f: bytes, t': SystemTime, items': seq<Item>, f': bytes)
    requires Seal(KeysOf(conf), EventPacket(conf, t, items)) == Ok(f)
    requires Seal(KeysOf(conf), EventPacket(conf, t', items')) == Ok(f')
    ensures Open(KeysOf(conf), f).Ok? && Open(KeysOf(conf), f').Ok?
    ensures KeyOf(Open(KeysOf(conf), f).value) == KeyOf(Open(KeysOf(conf), f').value) <==> SameSecond(t, t')
  {
    hide Seal, Open, KeyOf;
    SentKeysCollideExactly(KeysOf(conf), EventPacket(conf, t, items), f, EventPacket(conf, t', items'), f');
  }

  /** Two command packets have the same key exactly when they are for the same relay and share a second. */
  lemma CommandKeysCollideExactly(
    m: MeshKeys, t: SystemTime, id: Bytes4, commands: seq<Option<(u32, bytes)>>, f: bytes,
    t': SystemTime, id': Bytes4, commands': seq<Option<(u32, bytes)>>, f': bytes)
    requires Seal(m, CommandPacket(t, id, commands)) == Ok(f) && Seal(m, CommandPacket(t', id', commands')) == Ok(f')
    ensures Open(m, f).Ok? && Open(m, f').Ok?
    ensures KeyOf(Open(m, f).value) == KeyOf(Open(m, f').value) <==> id == id' && SameSecond(t, t')
  {
    hide Seal, Open, KeyOf;
    SentKeysCollideExactly(m, CommandPacket(t, id, commands), f, CommandPacket(t', id', commands'), f');
  }

  lemma DownlinkTouchesChannelOnly(conf: Config, st: NodeState, items: seq<DownlinkItem>, env: Env)
    ensures HandleDownlink(conf, st, items, env).0 == st.(channel := HandleDownlink(conf, st, items, env).0.channel)
  {
    AttemptsTouchChannelOnly(conf, st, items, env, 0);
  }

  lemma {:induction false} AttemptsTouchChannelOnly(
    conf: Config, st: NodeState, items: seq<DownlinkItem>, env: Env, i: nat)
    requires i <= |items|
    ensures Attempts(conf, st, items, env, i).0 == st.(channel := Attempts(conf, st, items, env, i).0.channel)
    decreases |items| - i
  {
    if i < |items| {
      AttemptsTouchChannelOnly(conf, PrepareDownlink(conf, st, items[i]).0, items, env, i + 1);
    }
  }

  // ---------- Uplink contexts over a run ----------

  /** The contexts stored so far, oldest first: those of the uplinks that a relay took from its devices. */
  function Stored(conf: Config, steps: seq<Step>): (contexts: seq<bytes>)
  {
    if steps == [] then [] else
    Stored(conf, steps[..|steps| - 1]) + StoredBy(conf, steps[|steps| - 1])
  }

  function StoredBy(conf: Config, s: Step): (contexts: seq<bytes>)
  {
    if s.op.DeviceUplink? && !conf.borderGateway && s.op.up.rxInfo.Some? && s.op.up.txInfo.Some? &&
       s.op.up.txInfo.value.modulation.Some?
    then [s.op.up.rxInfo.value.context]
    else []
  }

  lemma ContextsAfter(conf: Config, st: NodeState, s: Step)
    ensures var st' := Apply(conf, st, s).0;
            if StoredBy(conf, s) == [] then st'.uplinkId == st.uplinkId && st'.contexts == st.contexts
            else
              && st'.uplinkId == NextUplinkId(st.uplinkId)
              && st'.contexts == st.contexts[st'.uplinkId := s.op.up.rxInfo.value.context]
  {
    hide Open, SealAndTransmit, UplinkPacket, HandleMesh, HandleDownlink, SetCommands, FormatUplink, KeyOf, AddSpec,
         ForwardPacket, Responses, DeliverDownlink, BorderPacket;
    match s.op {
      case Hear(rx) =>
        HandleMeshExactly(conf, st, rx, s.env);
      case DeviceUplink(_) =>
      case ReportEvents(_) =>
      case ServerDownlink(items) =>
        DownlinkTouchesChannelOnly(conf, st, items, s.env);
      case MeshCommand(_, _) =>
    }
  }

  /** The id counter and the lookup table after these contexts, oldest first, have been stored. */
  function StoreAll(contexts: seq<bytes>): (r: (u16, map<u16, bytes>))
  {
    if contexts == [] then (0, map[]) else
    var (id, table) := StoreAll(contexts[..|contexts| - 1]);
    (NextUplinkId(id), table[NextUplinkId(id) := contexts[|contexts| - 1]])
  }

  /** The latest of the numbers 1 to n that has this id, or 0. */
  function LatestWithId(n: nat, id: u16): (k: nat)
    ensures k <= n && (k >= 1 ==> k % 4096 == id)
    ensures forall j :: k < j <= n ==> j % 4096 != id
  {
    if n == 0 || n % 4096 == id then n else LatestWithId(n - 1, id)
  }

  /**
    The n-th context stored gets id n mod 4096, and the table holds, under each id, the latest
    one that got it: for every id, present and missing ones alike.
   */
  lemma {:induction false} StoredExactly(contexts: seq<bytes>, id: u16)
    ensures StoreAll(contexts).0 == |contexts| % 4096
    ensures var k := LatestWithId(|contexts|, id);
            if k >= 1 then id in StoreAll(contexts).1 && StoreAll(contexts).1[id] == contexts[k - 1]
            else id !in StoreAll(contexts).1
  {
    if contexts != [] {
      StoredExactly(contexts[..|contexts| - 1], id);
      NextId(|contexts| - 1);
    }
  }

  /** Whatever else a gateway does, its contexts are those of the uplinks it took from devices. */
  lemma {:induction false} ContextsOverRun(conf: Config, steps: seq<Step>)
    ensures (Run(conf, steps).0.uplinkId, Run(conf, steps).0.contexts) == StoreAll(Stored(conf, steps))
  {
    if steps != [] {
      var init, last := steps[..|steps| - 1], steps[|steps| - 1];
      ContextsOverRun(conf, init);
      ContextsAfter(conf, Run(conf, init).0, last);
      StoreOne(Stored(conf, init), StoredBy(conf, last));
    }
  }

  lemma StoreOne(before: seq<bytes>, more: seq<bytes>)
    requires |more| <= 1
    ensures more == [] ==> before + more == before
    ensures more != [] ==>
              var (id, table) := StoreAll(before);
              StoreAll(before + more) == (NextUplinkId(id), table[NextUplinkId(id) := more[0]])
  {
    assert (before + more)[..|before|] == before;
  }

  lemma NextId(n: nat)
    ensures NextUplinkId(n % 4096) == (n + 1) % 4096
  {
    var q, r := n / 4096, n % 4096;
    assert n == 4096 * q + r;
    if r == 4095 {
      assert n + 1 == 4096 * (q + 1);
    } else {
      assert n + 1 == 4096 * q + (r + 1);
    }
  }

  /** A context is found under its id exactly until 4096 more have been stored. */
  lemma StoredKept(contexts: seq<bytes>, k: nat)
    requires 1 <= k <= |contexts|
    ensures |contexts| < k + 4096 ==>
              k % 4096 in StoreAll(contexts).1 && StoreAll(contexts).1[k % 4096] == contexts[k - 1]
    ensures |contexts| == k + 4096 ==>
              k % 4096 in StoreAll(contexts).1 && StoreAll(contexts).1[k % 4096] == contexts[k + 4095]
  {
    StoredExactly(contexts, k % 4096);
    LatestOfNumber(|contexts|, k);
  }

  lemma ContextKept(conf: Config, steps: seq<Step>, k: nat)
    requires 1 <= k <= |Stored(conf, steps)|
    ensures |Stored(conf, steps)| < k + 4096 ==>
              ContextOf(Run(conf, steps).0, k % 4096) == Ok(Stored(conf, steps)[k - 1])
    ensures |Stored(conf, steps)| == k + 4096 ==>
              ContextOf(Run(conf, steps).0, k % 4096) == Ok(Stored(conf, steps)[k + 4095])
  {
    hide Run, Stored;
    ContextsOverRun(conf, steps);
    StoredKept(Stored(conf, steps), k);
  }

  lemma LatestOfNumber(n: nat, k: nat)
    requires 1 <= k <= n
    ensures n < k + 4096 ==> LatestWithId(n, k % 4096) == k
    ensures n == k + 4096 ==> LatestWithId(n, k % 4096) == n
  {
    var latest := LatestWithId(n, k % 4096);
    if n < k + 4096 && k < latest {
      SameIdFarApart(k, latest);
    }
  }

  lemma {:induction false} StoredAppend(conf: Config, a: seq<Step>, b: seq<Step>)
    ensures Stored(conf, a + b) == Stored(conf, a) + Stored(conf, b)
    decreases |b|
  {
    if b == [] {
      EmptyUnit(a);
      EmptyUnit(Stored(conf, a));
    } else {
      var init, last := b[..|b| - 1], b[|b| - 1];
      assert (a + b)[..|a + b| - 1] == a + init;
      StoredAppend(conf, a, init);
      Associative(Stored(conf, a), Stored(conf, init), StoredBy(conf, last));
    }
  }

  /** Ids repeat exactly every 4096 uplinks. */
  lemma UplinkIdsRepeatExactly(conf: Config, steps: seq<Step>, more: seq<Step>)
    ensures Run(conf, steps + more).0.uplinkId == Run(conf, steps).0.uplinkId <==> |Stored(conf, more)| % 4096 == 0
  {
    hide Run, Stored;
    ContextsOverRun(conf, steps);
    ContextsOverRun(conf, steps + more);
    StoredAppend(conf, steps, more);
    StoredExactly(Stored(conf, steps), 0);
    StoredExactly(Stored(conf, steps + more), 0);
    SameRemainder(|Stored(conf, steps)|, |Stored(conf, more)|);
  }

  lemma SameRemainder(n: nat, more: nat)
    ensures (n + more) % 4096 == n % 4096 <==> more % 4096 == 0
  {
    var q, r := n / 4096, more / 4096;
    assert n + more == 4096 * (q + r) + (n % 4096 + more % 4096);
    if n % 4096 + more % 4096 >= 4096 {
      assert n + more == 4096 * (q + r + 1) + (n % 4096 + more % 4096 - 4096);
    }
  }

  // ---------- Commands over a run ----------

  /** The command payload that a step executes: fresh, addressed to this relay, and later than the last one. */
  function Executed(conf: Config, st: NodeState, s: Step): (r: Option<Payload>)
    ensures r.Some? ==>
              r.value.Command? && AllWellFormed(true, r.value.items) && CommandIsNew(st, r.value.timestamp)
  {
    if s.op.Hear? && !conf.borderGateway && s.op.rx.rxInfo.Some? && Fresh(conf, st, s.op.rx.phyPayload) then
      var p := Open(KeysOf(conf), s.op.rx.phyPayload).value;
      OpenedForm(KeysOf(conf), s.op.rx.phyPayload);
      if p.payload.Command? && p.payload.relayId == conf.relayId && CommandIsNew(st, p.payload.timestamp)
      then Some(p.payload) else None
    else None
  }

  /** The payloads executed over a run, in order. */
  function ExecutedOver(conf: Config, steps: seq<Step>): (payloads: seq<Payload>)
    ensures forall i :: 0 <= i < |payloads| ==> payloads[i].Command? && AllWellFormed(true, payloads[i].items)
  {
    if steps == [] then [] else
    var init, last := steps[..|steps| - 1], steps[|steps| - 1];
    var pl := Executed(conf, Run(conf, init).0, last);
    ExecutedOver(conf, init) + if pl.Some? then [pl.value] else []
  }

  /** The commands that were handed to the system, among all effects. */
  function CommandsRun(out: seq<Output>): (runs: seq<Output>)
  {
    if out == [] then [] else
    CommandsRun(out[..|out| - 1]) + if out[|out| - 1].RunCommand? then [out[|out| - 1]] else []
  }

  lemma {:induction false} CommandsRunAppend(a: seq<Output>, b: seq<Output>)
    ensures CommandsRun(a + b) == CommandsRun(a) + CommandsRun(b)
  {
    if b == [] {
      EmptyUnit(a);
      EmptyUnit(CommandsRun(a));
    } else {
      var init, last := b[..|b| - 1], b[|b| - 1];
      assert (a + b)[..|a + b| - 1] == a + init;
      CommandsRunAppend(a, init);
      Associative(CommandsRun(a), CommandsRun(init), if last.RunCommand? then [last] else []);
    }
  }

  lemma {:induction false} AllCommands(out: seq<Output>)
    requires forall i :: 0 <= i < |out| ==> out[i].RunCommand?
    ensures CommandsRun(out) == out
  {
    if out != [] {
      AllCommands(out[..|out| - 1]);
      SplitLast(out);
    }
  }

  lemma {:induction false} NoCommands(out: seq<Output>)
    requires forall i :: 0 <= i < |out| ==> !out[i].RunCommand?
    ensures CommandsRun(out) == []
  {
    if out != [] {
      NoCommands(out[..|out| - 1]);
    }
  }

  lemma {:induction false} AttemptsSendOnly(conf: Config, st: NodeState, items: seq<DownlinkItem>, env: Env, i: nat)
    requires i <= |items|
    ensures forall k :: 0 <= k < |Attempts(conf, st, items, env, i).1.out| ==>
                          Attempts(conf, st, items, env, i).1.out[k].MeshFrame?
    decreases |items| - i
  {
    if i < |items| {
      AttemptsSendOnly(conf, PrepareDownlink(conf, st, items[i]).0, items, env, i + 1);
    }
  }

  /** An executed payload runs its commands, one after the other, and then sends their responses. */
  lemma CommandsOfPayload(conf: Config, st: NodeState, pl: Payload, env: Env)
    requires pl.Command? && AllWellFormed(true, pl.items)
    ensures var (st', o) := ExecuteCommands(conf, st, pl, env);
            if CommandIsNew(st, pl.timestamp)
            then CommandsRun(o.out) == Runs(pl.items) && st'.lastCommand == Some(pl.timestamp)
            else CommandsRun(o.out) == [] && st' == st
  {
    hide SealAndTransmit, Responses;
    if CommandIsNew(st, pl.timestamp) {
      var runs := Runs(pl.items);
      AllCommands(runs);
      EmptyUnit(runs);
      var sent := SendEvents(conf, st.(lastCommand := Some(pl.timestamp)), Responses(pl.items, env), env).1.out;
      NoCommands(sent);
      CommandsRunAppend(runs, sent);
    }
  }

  lemma CommandsOfPacket(conf: Config, st: NodeState, rx: UplinkFrame, p: Packet, env: Env)
    requires OpenForm(p)
    ensures var (st', o) := Dispatch(conf, st, rx, p, env);
            if !conf.borderGateway && rx.rxInfo.Some? && p.payload.Command? && p.payload.relayId == conf.relayId &&
               CommandIsNew(st, p.payload.timestamp)
            then CommandsRun(o.out) == Runs(p.payload.items) && st'.lastCommand == Some(p.payload.timestamp)
            else CommandsRun(o.out) == [] && st'.lastCommand == st.lastCommand
  {
    if !conf.borderGateway && rx.rxInfo.Some? && p.payload.Command? && p.payload.relayId == conf.relayId {
      CommandsOfPayload(conf, st, p.payload, env);
    } else {
      NoCommands(Dispatch(conf, st, rx, p, env).1.out);
    }
  }

  /** A step runs the commands of the payload it executes, all of them and no others, and remembers its time. */
  lemma CommandsOfStep(conf: Config, st: NodeState, s: Step)
    ensures var pl := Executed(conf, st, s);
            var (st', out) := Apply(conf, st, s);
            if pl.Some? then CommandsRun(out) == Runs(pl.value.items) && st'.lastCommand == Some(pl.value.timestamp)
            else CommandsRun(out) == [] && st'.lastCommand == st.lastCommand
  {
    hide HandleMesh, Dispatch, Open, SealAndTransmit, PrepareDownlink, FormatDownlink, FormatUplink, SetCommands,
         UplinkPacket, Runs, KeyOf, AddSpec;
    match s.op {
      case Hear(rx) =>
        HandleMeshExactly(conf, st, rx, s.env);
        if Fresh(conf, st, rx.phyPayload) {
          var p := Open(KeysOf(conf), rx.phyPayload).value;
          CommandsOfPacket(conf, st.(seen := AddSpec(CACHE_SIZE, st.seen, KeyOf(p)).0), rx, p, s.env);
        }
      case DeviceUplink(_) =>
        NoCommands(Apply(conf, st, s).1);
      case ReportEvents(_) =>
        NoCommands(Apply(conf, st, s).1);
      case ServerDownlink(items) =>
        DownlinkTouchesChannelOnly(conf, st, items, s.env);
        AttemptsSendOnly(conf, st, items, s.env, 0);
        hide Attempts;
        NoCommands(Apply(conf, st, s).1);
      case MeshCommand(_, _) =>
        NoCommands(Apply(conf, st, s).1);
    }
  }

  function RunsOf(payloads: seq<Payload>): (out: seq<Output>)
    requires forall i :: 0 <= i < |payloads| ==> payloads[i].Command? && AllWellFormed(true, payloads[i].items)
  {
    if payloads == [] then [] else
    RunsOf(payloads[..|payloads| - 1]) + Runs(payloads[|payloads| - 1].items)
  }

  predicate TimesIncrease(payloads: seq<Payload>)
    requires forall i :: 0 <= i < |payloads| ==> payloads[i].Command?
  {
    forall i, j :: 0 <= i < j < |payloads| ==> payloads[i].timestamp < payloads[j].timestamp
  }

  function LatestTime(payloads: seq<Payload>): (t: Option<SystemTime>)
    requires forall i :: 0 <= i < |payloads| ==> payloads[i].Command?
  {
    if payloads == [] then None else Some(payloads[|payloads| - 1].timestamp)
  }

  /**
    Commands run at most once over any run: the payloads executed carry strictly increasing times,
    so that none of them is executed again, not even after the cache has forgotten it; and the
    commands run are exactly theirs, in order.
   */
  lemma {:induction false} CommandsRunAtMostOnce(conf: Config, steps: seq<Step>)
    ensures TimesIncrease(ExecutedOver(conf, steps))
    ensures Run(conf, steps).0.lastCommand == LatestTime(ExecutedOver(conf, steps))
    ensures CommandsRun(Run(conf, steps).1) == RunsOf(ExecutedOver(conf, steps))
  {
    hide Apply, Executed;
    if steps != [] {
      var init, last := steps[..|steps| - 1], steps[|steps| - 1];
      CommandsRunAtMostOnce(conf, init);
      var (st, out) := Run(conf, init);
      CommandsOfStep(conf, st, last);
      CommandsRunAppend(out, Apply(conf, st, last).1);
      var before, next := ExecutedOver(conf, init), Executed(conf, st, last);
      if next.Some? {
        RunsOfAppend(before, next.value);
        TimesAppend(before, next.value);
      } else {
        EmptyUnit(before);
        EmptyUnit(RunsOf(before));
      }
    }
  }

  lemma RunsOfAppend(before: seq<Payload>, next: Payload)
    requires forall i :: 0 <= i < |before| ==> before[i].Command? && AllWellFormed(true, before[i].items)
    requires next.Command? && AllWellFormed(true, next.items)
    ensures RunsOf(before + [next]) == RunsOf(before) + Runs(next.items)
  {
    hide AllWellFormed;
    assert (before + [next])[..|before|] == before;
  }

  lemma TimesAppend(before: seq<Payload>, next: Payload)
    requires forall i :: 0 <= i < |before| ==> before[i].Command?
    requires next.Command? && TimesIncrease(before)
    requires before != [] ==> LatestTime(before).value < next.timestamp
    ensures TimesIncrease(before + [next])
  {
  }
}
