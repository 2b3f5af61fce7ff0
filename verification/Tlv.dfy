/**
  Events and commands and their tag-length-value encoding. The two kinds of item differ in
  one place only: tag 0 of an event is a heartbeat. One datatype serves both, with a flag
  that says which decoder reads it.
 */
module Tlv {
  import opened Wrappers
  import opened Bytes
  import opened Seqs

  /** One relay on the path of a heartbeat. */
  datatype Hop = Hop(relayId: Bytes4, rssi: i16, snr: i8)

  datatype Item =
    | Encrypted(data: bytes)
    | Heartbeat(path: seq<Hop>)
    | Proprietary(tag: byte, value: bytes)

  // ---------- Signal quality bytes, shared with the uplink metadata ----------

  /** Six bits in two's complement; the top two bits of the byte are ignored. */
  function SnrFromByte(b: byte): (snr: i8)
    ensures -32 <= snr <= 31
  {
    var low := b % 0x40;
    if low > 31 then low - 64 else low
  }

  function SnrToByte(snr: i8): (b: byte)
    requires -32 <= snr <= 31
    ensures b < 0x40 && SnrFromByte(b) == snr
  {
    if snr < 0 then snr + 64 else snr
  }

  predicate SignalInRange(rssi: i16, snr: i8) {
    -255 <= rssi <= 0 && -32 <= snr <= 31
  }

  function CheckSignal(rssi: i16, snr: i8): (r: Result<()>)
    ensures r.Ok? <==> SignalInRange(rssi, snr)
  {
    if rssi > 0 || rssi < -255 then Err(RssiRange)
    else if snr < -32 || snr > 31 then Err(SnrRange)
    else Ok(())
  }

  // ---------- Relay paths ----------

  function EncodeHop(h: Hop): (r: Result<bytes>)
    ensures r.Ok? <==> SignalInRange(h.rssi, h.snr)
    ensures r.Ok? ==> |r.value| == 6 && DecodeHop(r.value) == h
  {
    var _ :- CheckSignal(h.rssi, h.snr);
    Ok(h.relayId + [-h.rssi, SnrToByte(h.snr)])
  }

  function DecodeHop(b: bytes): (h: Hop)
    requires |b| == 6
    ensures SignalInRange(h.rssi, h.snr)
  {
    Hop(b[..4], -(b[4] as int), SnrFromByte(b[5]))
  }

  function EncodePath(path: seq<Hop>): (r: Result<bytes>)
  {
    if path == [] then Ok([]) else
    var init :- EncodePath(path[..|path| - 1]);
    var last :- EncodeHop(path[|path| - 1]);
    Ok(init + last)
  }

  /** The chunks of six, in order. */
  function DecodePath(b: bytes): (path: seq<Hop>)
    requires |b| % 6 == 0
  {
    seq(|b| / 6, i requires 0 <= i < |b| / 6 => DecodeHop(b[6 * i..6 * i + 6]))
  }

  predicate PathInRange(path: seq<Hop>) {
    forall i :: 0 <= i < |path| ==> SignalInRange(path[i].rssi, path[i].snr)
  }

  lemma {:induction false} PathRoundTrip(path: seq<Hop>)
    ensures EncodePath(path).Ok? <==> PathInRange(path)
    ensures EncodePath(path).Ok? ==>
              |EncodePath(path).value| == 6 * |path| && DecodePath(EncodePath(path).value) == path
  {
    if path != [] {
      var init, last := path[..|path| - 1], path[|path| - 1];
      PathRoundTrip(init);
      assert path == init + [last];
      if EncodePath(path).Ok? {
        DecodePathAppend(EncodePath(init).value, EncodeHop(last).value);
      }
    }
  }

  lemma DecodePathAppend(a: bytes, z: bytes)
    requires |a| % 6 == 0 && |z| == 6
    ensures DecodePath(a + z) == DecodePath(a) + [DecodeHop(z)]
  {
    var n := |a| / 6;
    forall i | 0 <= i < n ensures DecodePath(a + z)[i] == DecodePath(a)[i] {
      assert (a + z)[6 * i..6 * i + 6] == a[6 * i..6 * i + 6];
    }
    assert (a + z)[6 * n..6 * n + 6] == z;
  }

  lemma {:induction false} PathErrorStays(path: seq<Hop>, n: nat)
    requires n <= |path| && EncodePath(path[..n]).Err?
    ensures EncodePath(path) == EncodePath(path[..n])
    decreases |path|
  {
    if n == |path| {
      assert path[..n] == path;
    } else {
      assert path[..|path| - 1][..n] == path[..n];
      PathErrorStays(path[..|path| - 1], n);
    }
  }

  method EncodePathLoop(path: seq<Hop>) returns (r: Result<bytes>)
    ensures r == EncodePath(path)
  {
    var b: bytes := [];
    for i := 0 to |path|
      invariant EncodePath(path[..i]) == Ok(b)
    {
      assert path[..i + 1][..i] == path[..i];
      var hop := EncodeHop(path[i]);
      if hop.Err? {
        PathErrorStays(path, i + 1);
        return Err(hop.error);
      }
      b := b + hop.value;
    }
    assert path[..|path|] == path;
    return Ok(b);
  }

  // ---------- Items ----------

  function EncodeItem(e: Item): (r: Result<bytes>)
  {
    match e
    case Encrypted(data) => Ok(data)
    case Heartbeat(path) =>
      var v :- EncodePath(path);
      Ok([0, |v| % 0x100] + v)
    case Proprietary(tag, v) => Ok([tag, |v| % 0x100] + v)
  }

  function EncodeItems(es: seq<Item>): (r: Result<bytes>)
  {
    if es == [] then Ok([]) else
    var init :- EncodeItems(es[..|es| - 1]);
    var last :- EncodeItem(es[|es| - 1]);
    Ok(init + last)
  }

  /** What one decoding step makes of the unread bytes: its result, and the bytes left unread. */
  function DecodeOne(isCommand: bool, b: bytes): (r: (Result<Item>, bytes))
    ensures b != [] ==> |r.1| < |b|
  {
    if |b| < 2 || |b| - 2 < b[1] then
      (Err(ShortRead), [])
    else
      var value, rest := b[2..2 + b[1]], b[2 + b[1]..];
      if !isCommand && b[0] == 0 then
        (if |value| % 6 == 0 then Ok(Heartbeat(DecodePath(value))) else Err(HeartbeatLength), rest)
      else
        (Ok(Proprietary(b[0], value)), rest)
  }

  /** The decode loop: items that fail to decode are logged and skipped. */
  function DecodeItems(isCommand: bool, b: bytes): (es: seq<Item>)
    decreases |b|
  {
    if b == [] then [] else
    var (item, rest) := DecodeOne(isCommand, b);
    Kept(item) + DecodeItems(isCommand, rest)
  }

  function Kept(item: Result<Item>): (es: seq<Item>)
  {
    if item.Ok? then [item.value] else []
  }

  /** The items that survive encoding: every length fits one byte and no tag is mistaken for another. */
  predicate WellFormed(isCommand: bool, e: Item) {
    match e
    case Encrypted(_) => false
    case Heartbeat(path) => !isCommand && |path| <= 42 && PathInRange(path)
    case Proprietary(tag, value) => |value| <= 255 && (isCommand || tag != 0)
  }

  predicate AllWellFormed(isCommand: bool, es: seq<Item>) {
    forall i :: 0 <= i < |es| ==> WellFormed(isCommand, es[i])
  }

  lemma EncodedItemDecodes(isCommand: bool, e: Item, tail: bytes)
    requires WellFormed(isCommand, e)
    ensures EncodeItem(e).Ok?
    ensures DecodeOne(isCommand, EncodeItem(e).value + tail) == (Ok(e), tail)
    ensures DecodeItems(isCommand, EncodeItem(e).value + tail) == [e] + DecodeItems(isCommand, tail)
  {
    var v: bytes := [];
    match e {
      case Heartbeat(path) =>
        PathRoundTrip(path);
        v := EncodePath(path).value;
      case Proprietary(_, value) =>
        v := value;
    }
    var b := EncodeItem(e).value + tail;
    assert b[2..2 + |v|] == v && b[2 + |v|..] == tail;
  }

  /** Decoding the encodings of well-formed items, followed by anything, gives those items first. */
  lemma {:induction false} EncodedItemsDecode(isCommand: bool, es: seq<Item>, tail: bytes)
    requires AllWellFormed(isCommand, es)
    ensures EncodeItems(es).Ok?
    ensures DecodeItems(isCommand, EncodeItems(es).value + tail) == es + DecodeItems(isCommand, tail)
    decreases |es|
  {
    if es == [] {
      EmptyUnit(tail);
      EmptyUnit(DecodeItems(isCommand, tail));
    } else {
      var init, last := es[..|es| - 1], es[|es| - 1];
      SplitLast(es);
      EncodedItemDecodes(isCommand, last, tail);
      var z := EncodeItem(last).value;
      EncodedItemsDecode(isCommand, init, z + tail);
      Associative(EncodeItems(init).value, z, tail);
      Associative(init, [last], DecodeItems(isCommand, tail));
    }
  }

  lemma ItemsRoundTrip(isCommand: bool, es: seq<Item>)
    requires AllWellFormed(isCommand, es)
    ensures EncodeItems(es).Ok?
    ensures DecodeItems(isCommand, EncodeItems(es).value) == es
  {
    EncodedItemsDecode(isCommand, es, []);
    EmptyUnit(EncodeItems(es).value);
    EmptyUnit(es);
  }

  /** A heartbeat of a bad length is dropped, and the items around it are kept. */
  lemma BadHeartbeatSkipped(before: seq<Item>, bad: bytes, after: seq<Item>)
    requires AllWellFormed(false, before) && AllWellFormed(false, after)
    requires |bad| >= 2 && bad[0] == 0 && |bad| - 2 == bad[1] && bad[1] % 6 != 0
    ensures EncodeItems(before).Ok? && EncodeItems(after).Ok?
    ensures DecodeItems(false, EncodeItems(before).value + (bad + EncodeItems(after).value)) == before + after
  {
    ItemsRoundTrip(false, after);
    var z := EncodeItems(after).value;
    BadHeartbeatStep(bad, z);
    EncodedItemsDecode(false, before, bad + z);
  }

  lemma BadHeartbeatStep(bad: bytes, rest: bytes)
    requires |bad| >= 2 && bad[0] == 0 && |bad| - 2 == bad[1] && bad[1] % 6 != 0
    ensures DecodeItems(false, bad + rest) == DecodeItems(false, rest)
  {
    var b := bad + rest;
    assert b[0] == bad[0] && b[1] == bad[1];
    assert b[2 + b[1]..] == rest;
    assert DecodeOne(false, b) == (Err(HeartbeatLength), rest);
    EmptyUnit(DecodeItems(false, rest));
  }

  /** A list cut off inside its last item gives exactly the items before the cut. */
  lemma TruncatedTail(isCommand: bool, es: seq<Item>, tail: bytes)
    requires AllWellFormed(isCommand, es)
    requires |tail| < 2 || |tail| - 2 < tail[1]
    ensures EncodeItems(es).Ok?
    ensures DecodeItems(isCommand, EncodeItems(es).value + tail) == es
  {
    EncodedItemsDecode(isCommand, es, tail);
    assert DecodeItems(isCommand, tail) == [];
  }

  /** Whatever the bytes, the decoder only yields well-formed items. */
  lemma {:induction false} DecodedItemsWellFormed(isCommand: bool, b: bytes)
    ensures AllWellFormed(isCommand, DecodeItems(isCommand, b))
    decreases |b|
  {
    if b != [] {
      DecodedItemsWellFormed(isCommand, DecodeOne(isCommand, b).1);
    }
  }

  /** A list of items survives encoding and decoding exactly when every item of it is well-formed. */
  lemma ItemsRoundTripExactly(isCommand: bool, es: seq<Item>)
    ensures EncodeItems(es).Ok? && DecodeItems(isCommand, EncodeItems(es).value) == es
            <==> AllWellFormed(isCommand, es)
  {
    if EncodeItems(es).Ok? {
      DecodedItemsWellFormed(isCommand, EncodeItems(es).value);
    }
    if AllWellFormed(isCommand, es) {
      ItemsRoundTrip(isCommand, es);
    }
  }

  /** Encoding fails for one reason only: a signal value on a relay path that does not fit its bits. */
  lemma {:induction false} ItemsEncodeExactly(es: seq<Item>)
    ensures EncodeItems(es).Ok? <==> forall i :: 0 <= i < |es| && es[i].Heartbeat? ==> PathInRange(es[i].path)
  {
    if es != [] {
      var init, last := es[..|es| - 1], es[|es| - 1];
      ItemsEncodeExactly(init);
      SplitLast(es);
      if last.Heartbeat? {
        PathRoundTrip(last.path);
      }
      assert EncodeItem(last).Ok? <==> last.Heartbeat? ==> PathInRange(last.path);
      assert forall i :: 0 <= i < |init| ==> es[i] == init[i];
    }
  }

  lemma {:induction false} ItemsErrorStays(es: seq<Item>, n: nat)
    requires n <= |es| && EncodeItems(es[..n]).Err?
    ensures EncodeItems(es) == EncodeItems(es[..n])
    decreases |es|
  {
    if n == |es| {
      assert es[..n] == es;
    } else {
      assert es[..|es| - 1][..n] == es[..n];
      ItemsErrorStays(es[..|es| - 1], n);
    }
  }

  method EncodeItemsLoop(es: seq<Item>) returns (r: Result<bytes>)
    ensures r == EncodeItems(es)
  {
    var b: bytes := [];
    for i := 0 to |es|
      invariant EncodeItems(es[..i]) == Ok(b)
    {
      assert es[..i + 1][..i] == es[..i];
      var item;
      if es[i].Heartbeat? {
        var v := EncodePathLoop(es[i].path);
        item := if v.Ok? then Ok([0, |v.value| % 0x100] + v.value) else Err(v.error);
      } else {
        item := EncodeItem(es[i]);
      }
      if item.Err? {
        ItemsErrorStays(es, i + 1);
        return Err(item.error);
      }
      b := b + item.value;
    }
    assert es[..|es|] == es;
    return Ok(b);
  }

  // ---------- The cursor ----------

  /** std::io::Cursor over a byte slice, as of Rust 1.85. */
  class Cursor {
    const buf: bytes
    var pos: nat

    ghost predicate Valid()
      reads this
    {
      pos <= |buf|
    }

    ghost function Rest(): bytes
      requires Valid()
      reads this
    {
      buf[pos..]
    }

    constructor (buf: bytes)
      ensures Valid() && Rest() == buf
    {
      this.buf := buf;
      pos := 0;
    }

    method AtEnd() returns (end: bool)
      requires Valid()
      ensures end <==> Rest() == []
    {
      end := pos >= |buf|;
    }

    /** A short read moves the cursor to the end: the decode loop terminates because of it. */
    method ReadExact(n: nat) returns (r: Result<bytes>)
      requires Valid()
      modifies this
      ensures Valid()
      ensures n <= |old(Rest())| ==> r == Ok(old(Rest())[..n]) && Rest() == old(Rest())[n..]
      ensures n > |old(Rest())| ==> r == Err(ShortRead) && Rest() == []
    {
      if |buf| - pos < n {
        pos := |buf|;
        return Err(ShortRead);
      }
      r := Ok(buf[pos..pos + n]);
      pos := pos + n;
      assert buf[old(pos)..][..n] == buf[old(pos)..old(pos) + n];
      assert buf[old(pos)..][n..] == buf[pos..];
    }
  }

  method DecodeItem(isCommand: bool, cur: Cursor) returns (r: Result<Item>)
    requires cur.Valid()
    modifies cur
    ensures cur.Valid()
    ensures (r, cur.Rest()) == DecodeOne(isCommand, old(cur.Rest()))
  {
    var tagLength := cur.ReadExact(2);
    if tagLength.Err? {
      return Err(tagLength.error);
    }
    ghost var b := old(cur.Rest());
    assert b[2..] == cur.Rest();
    var value := cur.ReadExact(tagLength.value[1]);
    assert value.Ok? ==> b[2..][..b[1]] == b[2..2 + b[1]] && b[2..][b[1]..] == b[2 + b[1]..];
    if value.Err? {
      return Err(value.error);
    }
    if !isCommand && tagLength.value[0] == 0 {
      return if |value.value| % 6 == 0 then Ok(Heartbeat(DecodePath(value.value))) else Err(HeartbeatLength);
    }
    return Ok(Proprietary(tagLength.value[0], value.value));
  }

  method DecodeItemsLoop(isCommand: bool, b: bytes) returns (es: seq<Item>)
    ensures es == DecodeItems(isCommand, b)
  {
    var cur := new Cursor(b);
    es := [];
    var end := cur.AtEnd();
    while !end
      invariant cur.Valid() && fresh(cur)
      invariant end <==> cur.Rest() == []
      invariant es + DecodeItems(isCommand, cur.Rest()) == DecodeItems(isCommand, b)
      decreases |cur.Rest()|
    {
      ghost var unread := cur.Rest();
      var item := DecodeItem(isCommand, cur);
      assert DecodeItems(isCommand, unread) == Kept(item) + DecodeItems(isCommand, cur.Rest());
      Associative(es, Kept(item), DecodeItems(isCommand, cur.Rest()));
      if item.Ok? {
        es := es + [item.value];
      } else {
        EmptyUnit(es);
      }
      end := cur.AtEnd();
    }
  }
}
