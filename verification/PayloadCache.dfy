/** The key by which a gateway recognises a packet it has handled before. */
module PayloadCache {
  import opened Bytes
  import opened Cipher
  import opened Packets

  datatype PayloadKey = PayloadKey(payloadType: PayloadType, uplinkId: u16, timestamp: u32, relayId: Bytes4)

  function KeyOf(p: Packet): (k: PayloadKey)
  {
    var t := p.mhdr.payloadType;
    match p.payload
    case Uplink(up, relayId, _) => PayloadKey(t, up.uplinkId, 0, relayId)
    case Downlink(down, relayId, _) => PayloadKey(t, down.uplinkId, 0, relayId)
    case Event(time, relayId, _) => PayloadKey(t, 0, KeySeconds(time), relayId)
    case Command(time, relayId, _) => PayloadKey(t, 0, KeySeconds(time), relayId)
  }

  /** Whole seconds, and the epoch itself for anything before it. */
  function KeySeconds(t: SystemTime): (seconds: u32)
  {
    if t < 0 then 0 else t / SECOND % 0x1_0000_0000
  }
}
