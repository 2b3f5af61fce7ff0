/** One gateway: its counters, cache and contexts, and its handlers, each proved against module Gateway. */
module Node {
  import opened Wrappers
  import opened Bytes
  import opened Cipher
  import opened Tlv
  import opened Packets
  import opened PayloadCache
  import opened Relaying
  import opened Helpers
  import opened MeshPackets
  import opened Gateway
  import opened Hex
  import opened Seqs
  import Cache

  class Node {
    const conf: Config
    const payloadCache: Cache.Cache<PayloadKey>
    var uplinkId: u16
    var uplinkContexts: map<u16, bytes>
    var meshChannel: nat
    var lastTimestamp: Option<SystemTime>

    ghost predicate Valid() {
      payloadCache.size == CACHE_SIZE
    }

    ghost function State(): NodeState
      reads this, payloadCache
    {
      NodeState(payloadCache.deque, uplinkId, uplinkContexts, meshChannel, lastTimestamp)
    }

    constructor (conf: Config)
      ensures Valid() && fresh(payloadCache) && this.conf == conf && State() == INITIAL
    {
      this.conf := conf;
      payloadCache := new Cache.Cache<PayloadKey>(64);
      uplinkId := 0;
      uplinkContexts := map[];
      meshChannel := 0;
      lastTimestamp := None;
    }

    method GetMeshFrequency() returns (r: Result<u32>)
      modifies this
      ensures (State(), r) == NextFrequency(conf, old(State()))
    {
      if |conf.frequencies| == 0 {
        return Err(NoMeshFrequencies);
      }
      meshChannel := meshChannel + 1;
      if meshChannel >= |conf.frequencies| {
        meshChannel := 0;
      }
      return Ok(conf.frequencies[meshChannel]);
    }

    method GetUplinkId() returns (id: u16)
      modifies this
      ensures id == NextUplinkId(old(uplinkId)) && State() == old(State()).(uplinkId := id)
    {
      var next: int := uplinkId + 1;
      if next > 4095 {
        next := 0;
      }
      uplinkId := next;
      return uplinkId;
    }

    method StoreUplinkContext(context: bytes) returns (id: u16)
      modifies this
      ensures State() == StoreContext(old(State()), context) && id == State().uplinkId
    {
      id := GetUplinkId();
      uplinkContexts := uplinkContexts[id := context];
    }

    method GetUplinkContext(id: u16) returns (r: Result<bytes>)
      ensures r == ContextOf(State(), id)
    {
      if id in uplinkContexts {
        return Ok(uplinkContexts[id]);
      }
      return Err(NoUplinkContext);
    }

    /** backend::mesh, after the frame has been serialised. */
    method TransmitFrame(frame: bytes, ok: bool) returns (o: Outcome<()>)
      modifies this
      ensures (State(), o) == Transmit(conf, old(State()), frame, ok)
    {
      var freq := GetMeshFrequency();
      if freq.Err? {
        return Outcome(Err(freq.error), []);
      }
      return Outcome(Acknowledged(ok), [MeshFrame(frame, freq.value)]);
    }

    /** Encrypt, sign and serialise, in place. */
    method SealPacket(p: Packet) returns (r: Result<bytes>)
      ensures r == Seal(KeysOf(conf), p)
    {
      var m := KeysOf(conf);
      var packet := new MeshPacket(p.mhdr, p.payload, p.mic);
      var encrypted := packet.Encrypt(m.crypto, m.encryption);
      if encrypted.Err? {
        return Err(encrypted.error);
      }
      var signed := packet.SetMic(m.crypto, m.signing);
      if signed.Err? {
        return Err(signed.error);
      }
      r := packet.ToVec();
    }

    method SendPacket(p: Packet, ok: bool) returns (o: Outcome<()>)
      modifies this
      ensures (State(), o) == SealAndTransmit(conf, old(State()), p, ok)
    {
      var frame := SealPacket(p);
      if frame.Err? {
        return Outcome(Err(frame.error), []);
      }
      o := TransmitFrame(frame.value, ok);
    }

    method SendEvents(items: seq<Item>, env: Env) returns (o: Outcome<()>)
      modifies this
      ensures (State(), o) == Gateway.SendEvents(conf, old(State()), items, env)
    {
      o := SendPacket(EventPacket(conf, env.now, items), env.meshOk(0));
    }

    method SendMeshCommand(relayId: string, commands: seq<Option<(u32, bytes)>>, env: Env) returns (o: Outcome<()>)
      modifies this
      ensures (State(), o) == Gateway.SendCommand(conf, old(State()), relayId, commands, env)
    {
      var id := DecodeRelayId(relayId);
      if id.Err? {
        return Outcome(Err(id.error), []);
      }
      o := SendPacket(CommandPacket(env.now, id.value, commands), env.meshOk(0));
    }

    method RelayUplinkLoraPacket(up: UplinkFrame, env: Env) returns (o: Outcome<()>)
      modifies this
      ensures (State(), o) == RelayUplink(conf, old(State()), up, env)
    {
      if up.rxInfo.None? {
        return Outcome(Err(RxInfoMissing), []);
      }
      if up.txInfo.None? {
        return Outcome(Err(TxInfoMissing), []);
      }
      if up.txInfo.value.modulation.None? {
        return Outcome(Err(ModulationMissing), []);
      }
      var rx, tx := up.rxInfo.value, up.txInfo.value;
      var id := StoreUplinkContext(rx.context);
      var rate := ModulationToDataRate(tx.modulation.value);
      if rate.Err? {
        return Outcome(Err(rate.error), []);
      }
      var dr := FindIndex(conf.dataRates, rate.value);
      if dr.Err? {
        return Outcome(Err(dr.error), []);
      }
      var channel := FindIndex(conf.channels, tx.frequency);
      if channel.Err? {
        return Outcome(Err(channel.error), []);
      }
      var metadata := UplinkMetadata(id, dr.value, AsI16(rx.rssi), rx.snr, channel.value);
      o := SendPacket(
        Packet(Mhdr(UplinkType, 1), Uplink(metadata, conf.relayId, up.phyPayload), None), env.meshOk(0));
    }

    method HandleUplink(up: UplinkFrame, env: Env) returns (o: Outcome<()>)
      modifies this
      ensures (State(), o) == Gateway.HandleUplink(conf, old(State()), up, env)
    {
      if conf.borderGateway {
        return ProxyDirectUplink(conf, up, env);
      }
      o := RelayUplinkLoraPacket(up, env);
    }

    /** The gate on the timestamp, then the loop over the commands. */
    method ExecuteCommands(pl: Payload, env: Env) returns (r: Result<seq<Item>>, out: seq<Output>)
      requires pl.Command? && AllWellFormed(true, pl.items)
      modifies this
      ensures CommandIsNew(old(State()), pl.timestamp) ==>
                && State() == old(State()).(lastCommand := Some(pl.timestamp))
                && r == Ok(Responses(pl.items, env)) && out == Runs(pl.items)
      ensures !CommandIsNew(old(State()), pl.timestamp) ==>
                State() == old(State()) && r == Err(TimestampNotIncremented) && out == []
    {
      hide WellFormed;
      out := [];
      if lastTimestamp.Some? && lastTimestamp.value >= pl.timestamp {
        return Err(TimestampNotIncremented), [];
      }
      lastTimestamp := Some(pl.timestamp);
      var events: seq<Item> := [];
      for i := 0 to |pl.items|
        invariant State() == old(State()).(lastCommand := Some(pl.timestamp))
        invariant AllWellFormed(true, pl.items[..i])
        invariant events == Responses(pl.items[..i], env)
        invariant out == Runs(pl.items[..i])
      {
        NextCommand(pl.items, i, env);
        var cmd := pl.items[i];
        out := out + [RunCommand(cmd.tag, cmd.value)];
        var printed := env.run(i, cmd.tag, cmd.value);
        if printed.Some? {
          events := events + [Proprietary(cmd.tag, printed.value)];
        }
      }
      assert pl.items[..|pl.items|] == pl.items;
      return Ok(events), out;
    }

    method RunCommandPacket(pl: Payload, env: Env) returns (o: Outcome<()>)
      requires pl.Command? && AllWellFormed(true, pl.items)
      modifies this
      ensures (State(), o) == Gateway.ExecuteCommands(conf, old(State()), pl, env)
    {
      var events, out := ExecuteCommands(pl, env);
      if events.Err? {
        return Outcome(Err(events.error), []);
      }
      if events.value == [] {
        return Outcome(Ok(()), out);
      }
      var sent := SendEvents(events.value, env);
      return Outcome(sent.result, out + sent.out);
    }

    method SendToDevice(p: Packet, env: Env) returns (o: Outcome<()>)
      requires p.payload.Downlink?
      ensures o == DeliverDownlink(conf, State(), p, env)
    {
      var down := p.payload.down;
      var power := Lookup(conf.txPowers, down.txPower);
      if power.Err? {
        return Outcome(Err(power.error), []);
      }
      var modulation := DrToModulation(conf.dataRates, down.dr, true);
      if modulation.Err? {
        return Outcome(Err(modulation.error), []);
      }
      var context := GetUplinkContext(down.uplinkId);
      if context.Err? {
        return Outcome(Err(context.error), []);
      }
      var tx := DownlinkTxInfo(
        down.frequency, power.value, Some(modulation.value), Some(DelayTiming(Some(Duration(down.delay, 0)))),
        context.value);
      return Outcome(AcksToResult(env.deviceAcks), [DeviceDownlink(DownlinkItem(p.payload.phyPayload, Some(tx)))]);
    }

    /** Every heartbeat of the packet gets this relay appended to its path, in place. */
    method AppendToHeartbeats(packet: MeshPacket, hop: Hop)
      requires packet.payload.Event?
      modifies packet
      ensures packet.mhdr == old(packet.mhdr) && packet.mic == old(packet.mic)
      ensures packet.payload ==
              Event(old(packet.payload).timestamp, old(packet.payload).relayId,
                    Extend(old(packet.payload).items, [hop]))
    {
      ghost var items := packet.payload.items;
      ghost var extended := Extend(items, [hop]);
      for i := 0 to |packet.payload.items|
        invariant packet.mhdr == old(packet.mhdr) && packet.mic == old(packet.mic)
        invariant packet.payload ==
                  Event(old(packet.payload).timestamp, old(packet.payload).relayId, extended[..i] + items[i..])
      {
        ReplaceNext(extended, items, i);
        if packet.payload.items[i].Heartbeat? {
          var longer := Heartbeat(packet.payload.items[i].path + [hop]);
          packet.payload := Event(
            packet.payload.timestamp, packet.payload.relayId, packet.payload.items[i := longer]);
        }
      }
    }

    method RelayMeshPacket(rx: UplinkFrame, packet: MeshPacket, env: Env) returns (o: Outcome<()>)
      requires OpenForm(packet.View())
      modifies this, packet
      ensures (State(), o) == RelayPacket(conf, old(State()), rx, old(packet.View()), env)
    {
      if rx.rxInfo.None? {
        return Outcome(Err(RxInfoMissing), []);
      }
      ghost var p := packet.View();
      var hop := Hop(conf.relayId, AsI16(rx.rxInfo.value.rssi), rx.rxInfo.value.snr);
      if packet.payload.relayId == conf.relayId {
        match packet.payload {
          case Uplink(_, _, _) =>
            return Outcome(Ok(()), []);
          case Downlink(_, _, _) =>
            o := SendToDevice(Packet(packet.mhdr, packet.payload, packet.mic), env);
            return;
          case Event(_, _, _) =>
            return Outcome(Ok(()), []);
          case Command(_, _, _) =>
            o := RunCommandPacket(packet.payload, env);
            return;
        }
      }
      if packet.payload.Event? {
        AppendToHeartbeats(packet, hop);
      }
      packet.mhdr := packet.mhdr.(hopCount := packet.mhdr.hopCount + 1);
      assert packet.View() == AdvanceBy(p, [hop]);
      o := EncryptSignSend(packet, env);
    }

    /** The tail of the relay step: encrypt, sign, check the hop limit, serialise, transmit. */
    method EncryptSignSend(packet: MeshPacket, env: Env) returns (o: Outcome<()>)
      modifies this, packet
      ensures (State(), o) ==
              (match SealWithin(KeysOf(conf), conf.maxHopCount, old(packet.View()))
               case Err(e) => Failed(old(State()), e)
               case Ok(frame) => Transmit(conf, old(State()), frame, env.meshOk(0)))
    {
      var m := KeysOf(conf);
      var encrypted := packet.Encrypt(m.crypto, m.encryption);
      if encrypted.Err? {
        return Outcome(Err(encrypted.error), []);
      }
      var signed := packet.SetMic(m.crypto, m.signing);
      if signed.Err? {
        return Outcome(Err(signed.error), []);
      }
      if packet.mhdr.hopCount > conf.maxHopCount {
        return Outcome(Err(MaxHopCountExceeded), []);
      }
      var frame := packet.ToVec();
      if frame.Err? {
        return Outcome(Err(frame.error), []);
      }
      o := TransmitFrame(frame.value, env.meshOk(0));
    }

    method HandleMesh(rx: UplinkFrame, env: Env) returns (o: Outcome<()>)
      requires Valid()
      modifies this, payloadCache
      ensures Valid()
      ensures (State(), o) == Gateway.HandleMesh(conf, old(State()), rx, env)
    {
      var m := KeysOf(conf);
      var parsed := MeshPacket.FromSlice(rx.phyPayload);
      if parsed.Err? {
        return Outcome(Err(parsed.error), []);
      }
      var packet := parsed.value;
      var valid := packet.ValidateMic(m.crypto, m.signing);
      if valid.Err? {
        return Outcome(Err(valid.error), []);
      }
      if !valid.value {
        return Outcome(Ok(()), []);
      }
      var added := payloadCache.Add(KeyOf(Packet(packet.mhdr, packet.payload, packet.mic)));
      if !added {
        return Outcome(Ok(()), []);
      }
      var decrypted := packet.Decrypt(m.crypto, m.encryption);
      if decrypted.Err? {
        return Outcome(Err(decrypted.error), []);
      }
      OpenedForm(m, rx.phyPayload);
      if conf.borderGateway {
        o := BorderPacket(conf, rx, Packet(packet.mhdr, packet.payload, packet.mic), env);
      } else {
        o := RelayMeshPacket(rx, packet, env);
      }
    }

    method BuildDownlinkPacket(item: DownlinkItem) returns (r: Result<Packet>)
      ensures r == DownlinkPacket(conf, item)
    {
      if item.txInfo.None? {
        return Err(TxInfoMissing);
      }
      var tx := item.txInfo.value;
      if tx.modulation.None? {
        return Err(ModulationMissing);
      }
      if tx.timing.None? {
        return Err(TimingMissing);
      }
      if tx.timing.value.OtherTiming? {
        return Err(OnlyDelayTiming);
      }
      if |tx.context| < 9 {
        return Err(ContextTooShort);
      }
      var rate := ModulationToDataRate(tx.modulation.value);
      if rate.Err? {
        return Err(rate.error);
      }
      var dr := FindIndex(conf.dataRates, rate.value);
      if dr.Err? {
        return Err(dr.error);
      }
      var power := TxPowerToIndex(conf.txPowers, tx.power);
      if power.Err? {
        return Err(power.error);
      }
      var delay := WireDelay(tx.timing.value.delay);
      var metadata := DownlinkMetadata(U16(tx.context[7..9]), dr.value, tx.frequency, power.value, delay);
      return Ok(Packet(Mhdr(DownlinkType, 1), Downlink(metadata, tx.context[3..7], item.phyPayload), None));
    }

    method HandleDownlink(items: seq<DownlinkItem>, env: Env) returns (o: Outcome<seq<Ack>>)
      modifies this
      ensures (State(), o) == Gateway.HandleDownlink(conf, old(State()), items, env)
    {
      if |items| > 0 {
        if items[0].txInfo.None? {
          return Outcome(Err(TxInfoMissing), []);
        }
        if !ForMesh(items[0].txInfo.value.context) {
          return ProxyDirectDownlink(conf, items, env);
        }
      }
      o := RelayDownlinkLoraPacket(items, env);
    }

    method PrepareDownlinkItem(item: DownlinkItem) returns (r: Result<Output>)
      modifies this
      ensures (State(), r) == PrepareDownlink(conf, old(State()), item)
    {
      var p := BuildDownlinkPacket(item);
      if p.Err? {
        return Err(p.error);
      }
      var frame := SealPacket(p.value);
      if frame.Err? {
        return Err(frame.error);
      }
      var freq := GetMeshFrequency();
      if freq.Err? {
        return Err(freq.error);
      }
      return Ok(MeshFrame(frame.value, freq.value));
    }

    method RelayDownlinkLoraPacket(items: seq<DownlinkItem>, env: Env) returns (o: Outcome<seq<Ack>>)
      modifies this
      ensures (State(), o) == Attempts(conf, old(State()), items, env, 0)
    {
      var acks: seq<Ack> := Acks(|items|, Ignored);
      var out: seq<Output> := [];
      ghost var whole := Attempts(conf, State(), items, env, 0);
      NoFailures(whole.1);
      EmptyUnit(acks);
      var i := 0;
      while i < |items|
        invariant i <= |items|
        invariant acks == AcksSoFar(|items|, i)
        invariant whole.0 == Attempts(conf, State(), items, env, i).0
        invariant whole.1 == AfterFailures(i, out, Attempts(conf, State(), items, env, i).1)
      {
        ghost var before := State();
        var sent := PrepareDownlinkItem(items[i]);
        OneAttempt(conf, before, items, env, i, out, State(), sent);
        if sent.Err? {
          return Outcome(Err(sent.error), out);
        }
        out := out + [sent.value];
        if env.meshOk(i) {
          return Outcome(Ok(acks[i := AckOk]), out);
        }
        acks := acks[i := InternalError];
        i := i + 1;
      }
      EmptyUnit(out);
      return Outcome(Ok(acks), out);
    }
  }

  /** What one more command adds to the effects and to the responses. */
  lemma NextCommand(items: seq<Item>, i: nat, env: Env)
    requires i < |items| && AllWellFormed(true, items)
    ensures AllWellFormed(true, items[..i]) && AllWellFormed(true, items[..i + 1])
    ensures items[i].Proprietary?
    ensures Runs(items[..i + 1]) == Runs(items[..i]) + [RunCommand(items[i].tag, items[i].value)]
    ensures var printed := env.run(i, items[i].tag, items[i].value);
            Responses(items[..i + 1], env) ==
            if printed.None? then Responses(items[..i], env)
            else Responses(items[..i], env) + [Proprietary(items[i].tag, printed.value)]
  {
    assert WellFormed(true, items[i]);
    assert items[..i + 1][..i] == items[..i];
    EmptyUnit(Responses(items[..i], env));
  }

  /** What an attempt adds to the outcome of the loop, for each way it can go. */
  lemma OneAttempt(
    conf: Config, st: NodeState, items: seq<DownlinkItem>, env: Env, i: nat, out: seq<Output>,
    st': NodeState, sent: Result<Output>)
    requires i < |items| && PrepareDownlink(conf, st, items[i]) == (st', sent)
    ensures var rest, acks := Attempts(conf, st, items, env, i), AcksSoFar(|items|, i);
            if sent.Err? then
              rest.0 == st' && AfterFailures(i, out, rest.1) == Outcome(Err(sent.error), out)
            else if env.meshOk(i) then
              rest.0 == st' && AfterFailures(i, out, rest.1) == Outcome(Ok(acks[i := AckOk]), out + [sent.value])
            else
              var next := Attempts(conf, st', items, env, i + 1);
              && rest.0 == next.0
              && AfterFailures(i, out, rest.1) == AfterFailures(i + 1, out + [sent.value], next.1)
              && acks[i := InternalError] == AcksSoFar(|items|, i + 1)
  {
    NextAck(|items|, i);
    if sent.Err? {
      EmptyUnit(out);
    } else if !env.meshOk(i) {
      OneMoreFailure(i, out, sent.value, Attempts(conf, st', items, env, i + 1).1);
    }
  }

  ghost function AcksSoFar(n: nat, i: nat): (acks: seq<Ack>)
    requires i <= n
  {
    Acks(i, InternalError) + Acks(n - i, Ignored)
  }

  lemma NextAck(n: nat, i: nat)
    requires i < n
    ensures AcksSoFar(n, i)[i := AckOk] == Acks(i, InternalError) + ([AckOk] + Acks(n - i - 1, Ignored))
    ensures AcksSoFar(n, i)[i := InternalError] == AcksSoFar(n, i + 1)
  {
  }

  /** The outcome of the whole loop, given that of the rest of it after n failed attempts. */
  ghost function AfterFailures(n: nat, out: seq<Output>, rest: Outcome<seq<Ack>>): (o: Outcome<seq<Ack>>)
  {
    Outcome(if rest.result.Ok? then Ok(Acks(n, InternalError) + rest.result.value) else rest.result,
            out + rest.out)
  }

  lemma NoFailures(rest: Outcome<seq<Ack>>)
    ensures AfterFailures(0, [], rest) == rest
  {
    EmptyUnit(rest.out);
    if rest.result.Ok? {
      EmptyUnit(rest.result.value);
      assert Acks(0, InternalError) == [];
    }
  }

  lemma OneMoreFailure(n: nat, out: seq<Output>, sent: Output, rest: Outcome<seq<Ack>>)
    ensures AfterFailures(n, out, AfterFailure(sent, rest)) == AfterFailures(n + 1, out + [sent], rest)
  {
    Associative(out, [sent], rest.out);
    if rest.result.Ok? {
      assert Acks(n, InternalError) + [InternalError] == Acks(n + 1, InternalError);
      Associative(Acks(n, InternalError), [InternalError], rest.result.value);
    }
  }
}
