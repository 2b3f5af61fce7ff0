/** The packet object of the handlers: parsed, signed, encrypted and decrypted in place. */
module MeshPackets {
  import opened Wrappers
  import opened Bytes
  import opened Cipher
  import opened Tlv
  import opened Packets

  /** What a fallible in-place operation does: the whole step, or an error and no change. */
  ghost predicate Applied(r: Result<()>, step: Result<Packet>, before: Packet, after: Packet) {
    match step
    case Ok(q) => r.Ok? && after == q
    case Err(e) => r == Err(e) && after == before
  }

  class MeshPacket {
    var mhdr: Mhdr
    var payload: Payload
    var mic: Option<Bytes4>

    ghost function View(): Packet
      reads this
    {
      Packet(mhdr, payload, mic)
    }

    constructor (mhdr: Mhdr, payload: Payload, mic: Option<Bytes4>)
      ensures View() == Packet(mhdr, payload, mic)
    {
      this.mhdr := mhdr;
      this.payload := payload;
      this.mic := mic;
    }

    static method FromSlice(b: bytes) returns (r: Result<MeshPacket>)
      ensures match Parse(b)
              case Ok(p) => r.Ok? && fresh(r.value) && r.value.View() == p
              case Err(e) => r == Err(e)
    {
      if |b| == 0 {
        return Err(EmptyInput);
      } else if |b| < 5 {
        return Err(NotEnoughBytes);
      }
      var mhdr := MhdrFromByte(b[0]);
      if mhdr.Err? {
        return Err(mhdr.error);
      }
      var payload := PayloadFromSlice(mhdr.value.payloadType, b[1..|b| - 4]);
      if payload.Err? {
        return Err(payload.error);
      }
      var p := new MeshPacket(mhdr.value, payload.value, Some(b[|b| - 4..]));
      return Ok(p);
    }

    /** The payload's bytes; those of events and commands are collected in a loop. */
    method PayloadBytes() returns (r: Result<bytes>)
      ensures r == PayloadToVec(payload)
    {
      if !HasItems(payload) {
        return PayloadToVec(payload);
      }
      var seconds := WireSeconds(payload.timestamp);
      if seconds.Err? {
        return Err(seconds.error);
      }
      var b: bytes := U32Bytes(seconds.value);
      b := b + payload.relayId;
      var body := EncodeItemsLoop(payload.items);
      if body.Err? {
        return Err(body.error);
      }
      return Ok(b + body.value);
    }

    method SignedBytes() returns (r: Result<bytes>)
      ensures r == MicBytes(View())
    {
      var h := MhdrToByte(mhdr);
      if h.Err? {
        return Err(h.error);
      }
      var b: bytes := [h.value];
      var body := PayloadBytes();
      if body.Err? {
        return Err(body.error);
      }
      return Ok(b + body.value);
    }

    method ToVec() returns (r: Result<bytes>)
      ensures r == Serialise(View())
    {
      var b := SignedBytes();
      if b.Err? {
        return Err(b.error);
      }
      if mic.None? {
        return Err(MicMissing);
      }
      return Ok(b.value + mic.value);
    }

    method SetMic(c: Crypto, key: Key) returns (r: Result<()>)
      modifies this
      ensures Applied(r, Packets.SetMic(c, key, old(View())), old(View()), View())
    {
      var b := SignedBytes();
      if b.Err? {
        return Err(b.error);
      }
      mic := Some(c.cmac(key, b.value)[..4]);
      return Ok(());
    }

    method ValidateMic(c: Crypto, key: Key) returns (r: Result<bool>)
      ensures r == Packets.ValidateMic(c, key, View())
    {
      if mic.None? {
        return Err(MicMissing);
      }
      var b := SignedBytes();
      if b.Err? {
        return Err(b.error);
      }
      return Ok(mic.value == c.cmac(key, b.value)[..4]);
    }

    method Encrypt(c: Crypto, key: Key) returns (r: Result<()>)
      modifies this
      ensures Applied(r, Packets.Encrypt(c, key, old(View())), old(View()), View())
    {
      if !HasItems(payload) || payload.items == [] {
        return Ok(());
      }
      var b := EncodeItemsLoop(payload.items);
      if b.Err? {
        return Err(b.error);
      }
      var data := EncryptEventsCommands(c, key, payload.Command?, payload.relayId, payload.timestamp, b.value);
      if data.Err? {
        return Err(data.error);
      }
      payload := payload.(items := [Encrypted(data.value)]);
      return Ok(());
    }

    method Decrypt(c: Crypto, key: Key) returns (r: Result<()>)
      modifies this
      ensures Applied(r, Packets.Decrypt(c, key, old(View())), old(View()), View())
    {
      if !HasItems(payload) || payload.items == [] {
        return Ok(());
      }
      if |payload.items| != 1 {
        return Err(OneItemExpected);
      }
      if !payload.items[0].Encrypted? {
        return Err(EncryptedExpected);
      }
      var data := EncryptEventsCommands(
        c, key, payload.Command?, payload.relayId, payload.timestamp, payload.items[0].data);
      if data.Err? {
        return Err(data.error);
      }
      var items := DecodeItemsLoop(payload.Command?, data.value);
      payload := payload.(items := items);
      return Ok(());
    }
  }
}
