/** What a relay does to a frame it passes on, and what every frame still means after any path of relays. */
module Relaying {
  import opened Wrappers
  import opened Bytes
  import opened Seqs
  import opened Cipher
  import opened Tlv
  import opened Packets
  import opened PayloadCache

  /** The keys that all gateways of one mesh share. */
  datatype MeshKeys = MeshKeys(crypto: Crypto, signing: Key, encryption: Key)

  // ---------- Sending and receiving ----------

  /** Encrypt, then sign, then serialise. */
  function Seal(m: MeshKeys, p: Packet): (r: Result<bytes>)
  {
    var encrypted :- Encrypt(m.crypto, m.encryption, p);
    var signed :- SetMic(m.crypto, m.signing, encrypted);
    Serialise(signed)
  }

  /** Parse, check the integrity code, decrypt. */
  function Open(m: MeshKeys, b: bytes): (r: Result<Packet>)
  {
    var p :- Parse(b);
    var valid :- ValidateMic(m.crypto, m.signing, p);
    if !valid then Err(InvalidMic) else
    Decrypt(m.crypto, m.encryption, p)
  }

  /** A packet without its integrity code: what it says. */
  function Content(p: Packet): (q: Packet)
  {
    p.(mic := None)
  }

  /** The packets that a receiver ends up with. */
  predicate OpenForm(p: Packet) {
    && 1 <= p.mhdr.hopCount <= 8
    && p.mhdr.payloadType == TypeOf(p.payload)
    && OpenPayload(p.payload)
  }

  predicate OpenPayload(pl: Payload) {
    match pl
    case Uplink(_, _, _) => WirePayload(pl)
    case Downlink(_, _, _) => WirePayload(pl)
    case Event(t, _, items) => WireTime(t) && AllWellFormed(false, items)
    case Command(t, _, items) => WireTime(t) && AllWellFormed(true, items)
  }

  lemma SerialisedLayout(p: Packet)
    requires Serialise(p).Ok? && p.mhdr.payloadType == TypeOf(p.payload)
    ensures var b := Serialise(p).value;
            Acceptable(b) && Canonical(b) == b && MicBytes(p) == Ok(b[..|b| - 4]) && p.mic == Some(b[|b| - 4..])
  {
    var b := Serialise(p).value;
    var h, body := MhdrToByte(p.mhdr).value, PayloadToVec(p.payload).value;
    MhdrRoundTrip(0, p.mhdr);
    assert b[..|b| - 4] == [h] + body && b[|b| - 4..] == p.mic.value;
    if p.payload.Uplink? {
      assert body[3] == SnrToByte(p.payload.up.snr) && b[4] == body[3];
      assert b[4 := b[4] % 0x40] == b;
    }
  }

  /** The code is checked over the canonical bytes, not over those received: two bits of an uplink are not covered. */
  lemma MicCoversCanonicalBytes(c: Crypto, key: Key, b: bytes)
    requires Parse(b).Ok?
    ensures Acceptable(b)
    ensures ValidateMic(c, key, Parse(b).value) ==
            Ok(b[|b| - 4..] == c.cmac(key, Canonical(b)[..|b| - 4])[..4])
  {
    ParseAcceptsExactly(b);
    ParsedReencodes(b);
    SerialisedLayout(Parse(b).value);
  }

  /** Whatever a gateway signs and serialises is accepted by every gateway with the same key. */
  lemma SignedIsAccepted(c: Crypto, key: Key, p: Packet)
    requires SetMic(c, key, p).Ok? && p.mhdr.payloadType == TypeOf(p.payload)
    ensures var sent := Serialise(SetMic(c, key, p).value);
            sent.Ok? && Parse(sent.value).Ok? && ValidateMic(c, key, Parse(sent.value).value) == Ok(true)
  {
    var signed := SetMic(c, key, p).value;
    assert MicBytes(signed) == MicBytes(p);
    SerialisedLayout(signed);
    var b := Serialise(signed).value;
    ParseAcceptsExactly(b);
    ParsedReencodes(b);
    SerialisedLayout(Parse(b).value);
  }

  /** Whatever a gateway sends, this is what every gateway of the mesh that hears it ends up with. */
  function Delivered(pl: Payload): (r: Payload)
    requires PayloadToVec(pl).Ok?
    requires HasItems(pl) ==> EncodeItems(pl.items).Ok?
  {
    if HasItems(pl)
    then pl.(timestamp := ReceivedTime(pl.timestamp), items := DecodeItems(pl.Command?, EncodeItems(pl.items).value))
    else Received(pl)
  }

  lemma SealNeedsEncoding(m: MeshKeys, p: Packet)
    requires Seal(m, p).Ok?
    ensures PayloadToVec(p.payload).Ok?
    ensures HasItems(p.payload) ==> EncodeItems(p.payload.items).Ok?
  {
  }

  lemma SealedOpens(m: MeshKeys, p: Packet)
    requires Seal(m, p).Ok? && p.mhdr.payloadType == TypeOf(p.payload)
    ensures PayloadToVec(p.payload).Ok? && (HasItems(p.payload) ==> EncodeItems(p.payload.items).Ok?)
    ensures Open(m, Seal(m, p).value).Ok?
    ensures Content(Open(m, Seal(m, p).value).value) == Content(p.(payload := Delivered(p.payload)))
  {
    SealNeedsEncoding(m, p);
    var e := Encrypt(m.crypto, m.encryption, p).value;
    SignedIsAccepted(m.crypto, m.signing, e);
    var signed := SetMic(m.crypto, m.signing, e).value;
    SerialisedParses(signed);
    if HasItems(p.payload) {
      ItemsDecrypt(m, p, e);
    }
  }

  lemma ItemsDecrypt(m: MeshKeys, p: Packet, e: Packet)
    requires HasItems(p.payload) && Encrypt(m.crypto, m.encryption, p) == Ok(e)
    requires PayloadToVec(p.payload).Ok? && EncodeItems(p.payload.items).Ok? && PayloadToVec(e.payload).Ok?
    ensures Decrypt(m.crypto, m.encryption, e.(payload := Received(e.payload))) ==
            Ok(p.(payload := Delivered(p.payload)))
  {
    var pl := p.payload;
    var b := EncodeItems(pl.items).value;
    if pl.items != [] {
      var data := e.payload.items[0].data;
      assert e.payload.items == [Encrypted(data)];
      OneItemEncodes(data);
      if b != [] {
        var seconds := WireSeconds(pl.timestamp).value;
        CryptInvolutive(m.crypto, m.encryption, pl.Command?, pl.relayId, seconds, b);
      }
    }
  }

  lemma OneItemEncodes(data: bytes)
    ensures EncodeItems([Encrypted(data)]) == Ok(data)
  {
    assert [Encrypted(data)][..0] == [];
    assert EncodeItems([]) == Ok([]);
    EmptyUnit(data);
  }

  /** A received packet has open form, whatever bytes were heard. */
  lemma OpenedForm(m: MeshKeys, b: bytes)
    requires Open(m, b).Ok?
    ensures OpenForm(Open(m, b).value)
  {
    ParsedReencodes(b);
    var pl := Parse(b).value.payload;
    if HasItems(pl) && pl.items != [] {
      var data := CryptAt(m.crypto, m.encryption, pl.Command?, pl.relayId, pl.timestamp, pl.items[0].data).value;
      DecodedItemsWellFormed(pl.Command?, data);
    }
  }

  /** A packet arrives exactly as it was sent if and only if it has open form. */
  lemma ArrivesUnchangedExactly(m: MeshKeys, p: Packet)
    ensures Seal(m, p).Ok? && Open(m, Seal(m, p).value).Ok? && Content(Open(m, Seal(m, p).value).value) == Content(p)
            <==> OpenForm(p)
  {
    if Seal(m, p).Ok? && Open(m, Seal(m, p).value).Ok? {
      OpenedForm(m, Seal(m, p).value);
    }
    if OpenForm(p) {
      OpenFormSeals(m, p);
      SealedOpens(m, p);
    }
  }

  lemma OpenFormSeals(m: MeshKeys, p: Packet)
    requires OpenForm(p)
    ensures Seal(m, p).Ok?
    ensures PayloadToVec(p.payload).Ok? && (HasItems(p.payload) ==> EncodeItems(p.payload.items).Ok?)
    ensures Delivered(p.payload) == p.payload
  {
    if HasItems(p.payload) {
      ItemsRoundTrip(p.payload.Command?, p.payload.items);
      var e := Encrypt(m.crypto, m.encryption, p).value;
      OneItemEncodes(if e.payload.items == [] then [] else e.payload.items[0].data);
    } else {
      WireFormIsReceived(p.payload);
    }
  }

  /** Sealing fails only for a hop count or a value that has no encoding. */
  lemma SealsExactly(m: MeshKeys, p: Packet)
    requires HasItems(p.payload) ==> p.payload.timestamp >= 0
    requires !HasItems(p.payload) ==> PayloadToVec(p.payload).Ok?
    ensures Seal(m, p).Ok? <==>
            1 <= p.mhdr.hopCount <= 8 && (HasItems(p.payload) ==> EncodeItems(p.payload.items).Ok?)
  {
    if HasItems(p.payload) && EncodeItems(p.payload.items).Ok? {
      var e := Encrypt(m.crypto, m.encryption, p).value;
      OneItemEncodes(if e.payload.items == [] then [] else e.payload.items[0].data);
    }
  }

  /** The deduplication key is what all copies of a packet share: sending and receiving keep it. */
  lemma SealedHeader(m: MeshKeys, p: Packet)
    requires Seal(m, p).Ok? && p.mhdr.payloadType == TypeOf(p.payload)
    ensures Open(m, Seal(m, p).value).Ok?
    ensures var q := Open(m, Seal(m, p).value).value;
            q.mhdr == p.mhdr && q.payload.relayId == p.payload.relayId && KeyOf(q) == KeyOf(p)
  {
    SealedOpens(m, p);
    var q := Open(m, Seal(m, p).value).value;
    assert q.payload == Content(q).payload == Delivered(p.payload);
    assert q.mhdr == Content(q).mhdr;
    if HasItems(p.payload) {
      assert WireSeconds(p.payload.timestamp).Ok?;
      assert WireSeconds(q.payload.timestamp) == WireSeconds(p.payload.timestamp);
    }
  }

  // ---------- One relay ----------

  /** How a relay heard a frame, and the hop limit it is configured with. */
  datatype Relay = Relay(hop: Hop, maxHopCount: byte)

  function AddHops(e: Item, hops: seq<Hop>): (r: Item)
  {
    if e.Heartbeat? then Heartbeat(e.path + hops) else e
  }

  function Extend(items: seq<Item>, hops: seq<Hop>): (r: seq<Item>)
    ensures |r| == |items|
  {
    seq(|items|, i requires 0 <= i < |items| => AddHops(items[i], hops))
  }

  /** A packet after some relays: one hop more for each, and each of them on the path of every heartbeat. */
  function AdvanceBy(p: Packet, hops: seq<Hop>): (q: Packet)
    requires p.mhdr.hopCount + |hops| < 0x100
  {
    p.(mhdr := p.mhdr.(hopCount := p.mhdr.hopCount + |hops|),
       payload := match p.payload
                  case Event(t, relayId, items) => Event(t, relayId, Extend(items, hops))
                  case other => other)
  }

  /** Encrypt, sign, check the hop limit, serialise: in this order. */
  function SealWithin(m: MeshKeys, maxHopCount: byte, p: Packet): (out: Result<bytes>)
  {
    var encrypted :- Encrypt(m.crypto, m.encryption, p);
    var signed :- SetMic(m.crypto, m.signing, encrypted);
    if signed.mhdr.hopCount > maxHopCount then Err(MaxHopCountExceeded) else
    Serialise(signed)
  }

  /** Count the hop, add this relay to every heartbeat, and seal the result. */
  function Forward(m: MeshKeys, r: Relay, p: Packet): (out: Result<bytes>)
    requires p.mhdr.hopCount < 0xff
  {
    SealWithin(m, r.maxHopCount, AdvanceBy(p, [r.hop]))
  }

  function RelayFrame(m: MeshKeys, r: Relay, b: bytes): (out: Result<bytes>)
  {
    var p :- Open(m, b);
    OpenedForm(m, b);
    Forward(m, r, p)
  }

  predicate HasHeartbeat(pl: Payload) {
    pl.Event? && exists i :: 0 <= i < |pl.items| && pl.items[i].Heartbeat?
  }

  /** Every heartbeat still has room in its one-byte length for n more relays. */
  predicate RoomFor(pl: Payload, n: nat) {
    pl.Event? ==> forall i :: 0 <= i < |pl.items| && pl.items[i].Heartbeat? ==> |pl.items[i].path| + n <= 42
  }

  lemma ForwardIsSeal(m: MeshKeys, r: Relay, p: Packet)
    requires p.mhdr.hopCount < 0xff
    ensures Forward(m, r, p).Ok? <==> Seal(m, AdvanceBy(p, [r.hop])).Ok? && p.mhdr.hopCount + 1 <= r.maxHopCount
    ensures Forward(m, r, p).Ok? ==> Forward(m, r, p) == Seal(m, AdvanceBy(p, [r.hop]))
  {
  }

  lemma ExtendedEncodesExactly(items: seq<Item>, h: Hop)
    requires AllWellFormed(false, items)
    ensures EncodeItems(Extend(items, [h])).Ok? <==>
            ((exists i :: 0 <= i < |items| && items[i].Heartbeat?) ==> SignalInRange(h.rssi, h.snr))
  {
    var extended := Extend(items, [h]);
    ItemsEncodeExactly(extended);
    forall i | 0 <= i < |items| && items[i].Heartbeat?
      ensures extended[i].Heartbeat? && (PathInRange(extended[i].path) <==> SignalInRange(h.rssi, h.snr))
    {
      assert WellFormed(false, items[i]);
      var n := |items[i].path|;
      assert extended[i].path[n] == h;
      assert forall k :: 0 <= k < n ==> extended[i].path[k] == items[i].path[k];
    }
  }

  /** When a relay passes a frame on: below both hop limits, and with a signal that a heartbeat can record. */
  lemma RelaysExactly(m: MeshKeys, r: Relay, b: bytes)
    requires Open(m, b).Ok?
    ensures var p := Open(m, b).value;
            RelayFrame(m, r, b).Ok? <==>
            p.mhdr.hopCount < 8 && p.mhdr.hopCount < r.maxHopCount &&
            (HasHeartbeat(p.payload) ==> SignalInRange(r.hop.rssi, r.hop.snr))
  {
    var p := Open(m, b).value;
    OpenedForm(m, b);
    var q := AdvanceBy(p, [r.hop]);
    ForwardIsSeal(m, r, p);
    OpenFormSeals(m, p);
    SealsExactly(m, q);
    if p.payload.Event? {
      ExtendedEncodesExactly(p.payload.items, r.hop);
    }
  }

  lemma ExtendedWellFormedExactly(items: seq<Item>, h: Hop)
    requires AllWellFormed(false, items) && EncodeItems(Extend(items, [h])).Ok?
    ensures AllWellFormed(false, Extend(items, [h])) <==>
            forall i :: 0 <= i < |items| && items[i].Heartbeat? ==> |items[i].path| + 1 <= 42
  {
    var extended := Extend(items, [h]);
    ItemsEncodeExactly(extended);
    forall i | 0 <= i < |items|
      ensures WellFormed(false, extended[i]) <==> (items[i].Heartbeat? ==> |items[i].path| + 1 <= 42)
    {
      assert WellFormed(false, items[i]);
      if items[i].Heartbeat? {
        assert PathInRange(extended[i].path);
      }
    }
  }

  /**
    A relayed frame opens at every gateway of the mesh, one hop further and with the same key.
    It says the same as before, with this relay added to its heartbeats, exactly when no
    heartbeat was already full.
   */
  lemma RelayedFrame(m: MeshKeys, r: Relay, b: bytes)
    requires Open(m, b).Ok? && RelayFrame(m, r, b).Ok?
    ensures Open(m, RelayFrame(m, r, b).value).Ok?
    ensures var p, q := Open(m, b).value, Open(m, RelayFrame(m, r, b).value).value;
            && p.mhdr.hopCount < 8 && q.mhdr.hopCount == p.mhdr.hopCount + 1
            && q.payload.relayId == p.payload.relayId && KeyOf(q) == KeyOf(p)
            && (Content(q) == Content(AdvanceBy(p, [r.hop])) <==> RoomFor(p.payload, 1))
  {
    var p := Open(m, b).value;
    RelaysExactly(m, r, b);
    OpenedForm(m, b);
    var next := AdvanceBy(p, [r.hop]);
    ForwardIsSeal(m, r, p);
    SealedHeader(m, next);
    ArrivesUnchangedExactly(m, next);
    if p.payload.Event? {
      SealNeedsEncoding(m, next);
      ExtendedWellFormedExactly(p.payload.items, r.hop);
    }
  }

  // ---------- Any path of relays ----------

  function Hops(relays: seq<Relay>): (hops: seq<Hop>)
    ensures |hops| == |relays|
  {
    seq(|relays|, i requires 0 <= i < |relays| => relays[i].hop)
  }

  /** The frame after all the relays have passed it on, one after the other. */
  function RelayAll(m: MeshKeys, relays: seq<Relay>, b: bytes): (out: Result<bytes>)
  {
    if relays == [] then Ok(b) else
    var heard :- RelayAll(m, relays[..|relays| - 1], b);
    RelayFrame(m, relays[|relays| - 1], heard)
  }

  lemma AdvanceAppend(p: Packet, hops: seq<Hop>, h: Hop)
    requires p.mhdr.hopCount + |hops| + 1 < 0x100
    ensures AdvanceBy(AdvanceBy(p, hops), [h]) == AdvanceBy(p, hops + [h])
  {
    if p.payload.Event? {
      var once, both := Extend(Extend(p.payload.items, hops), [h]), Extend(p.payload.items, hops + [h]);
      forall i | 0 <= i < |once| ensures once[i] == both[i] {
        if p.payload.items[i].Heartbeat? {
          Associative(p.payload.items[i].path, hops, [h]);
        }
      }
      assert once == both;
    }
  }

  lemma AdvanceNone(p: Packet)
    requires p.mhdr.hopCount < 0x100
    ensures AdvanceBy(p, []) == p
  {
    if p.payload.Event? {
      forall i | 0 <= i < |p.payload.items| ensures AddHops(p.payload.items[i], []) == p.payload.items[i] {
        if p.payload.items[i].Heartbeat? {
          EmptyUnit(p.payload.items[i].path);
        }
      }
      assert Extend(p.payload.items, []) == p.payload.items;
    }
  }

  /** The relays of a path that pass a packet on: those before the hop limits and with a signal in range. */
  predicate Passes(p: Packet, relays: seq<Relay>) {
    && p.mhdr.hopCount + |relays| <= 8
    && (forall i :: 0 <= i < |relays| ==> p.mhdr.hopCount + i < relays[i].maxHopCount)
    && (HasHeartbeat(p.payload) ==>
          forall i :: 0 <= i < |relays| ==> SignalInRange(relays[i].hop.rssi, relays[i].hop.snr))
  }

  lemma AdvancedKeepsShape(p: Packet, hops: seq<Hop>)
    requires p.mhdr.hopCount + |hops| < 0x100
    ensures HasHeartbeat(AdvanceBy(p, hops).payload) <==> HasHeartbeat(p.payload)
    ensures RoomFor(AdvanceBy(p, hops).payload, 1) <==> RoomFor(p.payload, |hops| + 1)
  {
    if p.payload.Event? {
      var extended := AdvanceBy(p, hops).payload.items;
      assert forall i :: 0 <= i < |extended| ==> extended[i] == AddHops(p.payload.items[i], hops);
    }
  }

  /**
    Relaying preserves meaning over any path: the frame gets through exactly when every relay
    passes it on, and what the last receiver reads is the original packet, so many hops
    further, with exactly these relays, in order, on the path of every heartbeat.
   */
  lemma {:induction false} PathPreservesMeaning(m: MeshKeys, relays: seq<Relay>, b: bytes)
    requires Open(m, b).Ok? && RoomFor(Open(m, b).value.payload, |relays|)
    ensures RelayAll(m, relays, b).Ok? <==> Passes(Open(m, b).value, relays)
    ensures RelayAll(m, relays, b).Ok? ==>
              && Open(m, RelayAll(m, relays, b).value).Ok?
              && Content(Open(m, RelayAll(m, relays, b).value).value) ==
                 Content(AdvanceBy(Open(m, b).value, Hops(relays)))
  {
    var p := Open(m, b).value;
    OpenedForm(m, b);
    if relays == [] {
      AdvanceNone(p);
      assert Hops(relays) == [];
    } else {
      var init, last := relays[..|relays| - 1], relays[|relays| - 1];
      PathPreservesMeaning(m, init, b);
      if RelayAll(m, init, b).Ok? {
        LastRelay(m, init, last, b);
      }
      SplitLast(relays);
    }
  }

  /** And only then: a heartbeat that runs out of room on the way does not arrive as it should. */
  lemma MeaningNeedsRoom(m: MeshKeys, relays: seq<Relay>, b: bytes)
    requires Open(m, b).Ok? && RelayAll(m, relays, b).Ok? && Open(m, RelayAll(m, relays, b).value).Ok?
    requires Open(m, b).value.mhdr.hopCount + |relays| < 0x100
    requires Content(Open(m, RelayAll(m, relays, b).value).value) == Content(AdvanceBy(Open(m, b).value, Hops(relays)))
    ensures RoomFor(Open(m, b).value.payload, |relays|)
  {
    hide Open, RelayAll;
    var p, q := Open(m, b).value, Open(m, RelayAll(m, relays, b).value).value;
    OpenedForm(m, RelayAll(m, relays, b).value);
    var extended := AdvanceBy(p, Hops(relays)).payload;
    assert q.payload == Content(q).payload == extended;
    if p.payload.Event? {
      forall i | 0 <= i < |p.payload.items| && p.payload.items[i].Heartbeat?
        ensures |p.payload.items[i].path| + |relays| <= 42
      {
        assert WellFormed(false, extended.items[i]);
      }
    }
  }

  lemma LastRelay(m: MeshKeys, init: seq<Relay>, last: Relay, b: bytes)
    requires Open(m, b).Ok? && RoomFor(Open(m, b).value.payload, |init| + 1)
    requires RelayAll(m, init, b).Ok? && Passes(Open(m, b).value, init)
    requires Open(m, RelayAll(m, init, b).value).Ok?
    requires Content(Open(m, RelayAll(m, init, b).value).value) == Content(AdvanceBy(Open(m, b).value, Hops(init)))
    ensures var p, heard := Open(m, b).value, RelayAll(m, init, b).value;
            && (RelayFrame(m, last, heard).Ok? <==> Passes(p, init + [last]))
            && (RelayFrame(m, last, heard).Ok? ==>
                  && Open(m, RelayFrame(m, last, heard).value).Ok?
                  && Content(Open(m, RelayFrame(m, last, heard).value).value) ==
                     Content(AdvanceBy(p, Hops(init + [last]))))
  {
    hide Open, RelayAll, RelayFrame, RoomFor, HasHeartbeat, KeyOf;
    var p, heard := Open(m, b).value, RelayAll(m, init, b).value;
    var q := Open(m, heard).value;
    AdvancedKeepsShape(p, Hops(init));
    assert q.payload == Content(q).payload && q.mhdr == Content(q).mhdr;
    RelaysExactly(m, last, heard);
    PassesAppend(p, init, last);
    if RelayFrame(m, last, heard).Ok? {
      RelayedFrame(m, last, heard);
      AdvanceAppend(p, Hops(init), last.hop);
      assert Hops(init + [last]) == Hops(init) + [last.hop];
      assert Content(AdvanceBy(q, [last.hop])) == Content(AdvanceBy(AdvanceBy(p, Hops(init)), [last.hop]));
    }
  }

  lemma PassesAppend(p: Packet, init: seq<Relay>, last: Relay)
    ensures Passes(p, init + [last]) <==>
            && Passes(p, init) && p.mhdr.hopCount + |init| < 8 && p.mhdr.hopCount + |init| < last.maxHopCount
            && (HasHeartbeat(p.payload) ==> SignalInRange(last.hop.rssi, last.hop.snr))
  {
    var all := init + [last];
    if Passes(p, all) {
      assert all[|init|] == last;
      assert forall i :: 0 <= i < |init| ==> all[i] == init[i];
    }
  }
}
