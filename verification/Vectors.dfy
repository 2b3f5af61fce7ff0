/** The byte strings of the repository's own unit tests: they pin the layout that round trips alone leave open. */
module Vectors {
  import opened Wrappers
  import opened Bytes
  import opened Seqs
  import opened Frequency
  import opened Cipher
  import opened Tlv
  import opened Packets

  lemma Headers()
    ensures MhdrFromByte(0xe2) == Ok(Mhdr(UplinkType, 3)) && MhdrToByte(Mhdr(UplinkType, 3)) == Ok(0xe2)
    ensures MhdrFromByte(0xef) == Ok(Mhdr(DownlinkType, 8)) && MhdrToByte(Mhdr(DownlinkType, 8)) == Ok(0xef)
    ensures MhdrFromByte(0x00) == Err(InvalidMType)
    ensures MhdrToByte(Mhdr(UplinkType, 9)).Err? && MhdrToByte(Mhdr(UplinkType, 0)).Err?
  {
  }

  /** Headers of events and commands have no vector there: the type bits are 10 and 11. */
  lemma OtherHeaders()
    ensures MhdrToByte(Mhdr(EventType, 3)) == Ok(0xf2) && MhdrFromByte(0xf2) == Ok(Mhdr(EventType, 3))
    ensures MhdrToByte(Mhdr(CommandType, 3)) == Ok(0xfa) && MhdrFromByte(0xfa) == Ok(Mhdr(CommandType, 3))
  {
  }

  /** Uplink id 1024 and data rate 3 share two bytes. */
  lemma IdDrVector()
    ensures IdDrBytes(1024, 3) == [0x40, 0x03]
  {
    assert 1024 * 16 == 0x40 * 0x100;
  }

  lemma UplinkMetadataBytes()
    ensures UplinkMetadataToBytes(UplinkMetadata(1024, 3, -120, -12, 64)) == Ok([0x40, 0x03, 0x78, 0x34, 0x40])
    ensures UplinkMetadataFromBytes([0x40, 0x03, 0x78, 0x34, 0x40]) == UplinkMetadata(1024, 3, -120, -12, 64)
  {
    var b: bytes := [0x40, 0x03, 0x78, 0x34, 0x40];
    var m := UplinkMetadata(1024, 3, -120, -12, 64);
    IdDrVector();
    assert SnrToByte(-12) == 0x34;
    assert UplinkMetadataToBytes(m) == Ok(IdDrBytes(1024, 3) + [0x78, 0x34, 0x40]);
    assert IdDrBytes(1024, 3) + [0x78, 0x34, 0x40] == b;
    UplinkMetadataRoundTrip(b, m);
  }

  lemma DownlinkMetadataBytes()
    ensures DownlinkMetadataToBytes(DownlinkMetadata(1024, 3, 868100000, 15, 16)) ==
            Ok([0x40, 0x03, 0x84, 0x76, 0x28, 0xff])
    ensures DownlinkMetadataFromBytes([0x40, 0x03, 0x84, 0x76, 0x28, 0xff]) ==
            DownlinkMetadata(1024, 3, 868100000, 15, 16)
  {
    var m := DownlinkMetadata(1024, 3, 868100000, 15, 16);
    var b: bytes := [0x40, 0x03, 0x84, 0x76, 0x28, 0xff];
    IdDrVector();
    assert U32Bytes(8681000) == [0x00, 0x84, 0x76, 0x28];
    assert EncodeFreq(868100000) == Ok([0x84, 0x76, 0x28]);
    assert IdDrBytes(1024, 3) + [0x84, 0x76, 0x28] + [0xff] == b;
    assert DownlinkMetadataToBytes(m) == Ok(b);
    DownlinkMetadataRoundTrip(b, m);
    HeardUnchangedExactly(868100000);
  }

  /** The relay path of a heartbeat with two hops. */
  lemma PathBytes()
    ensures EncodePath([Hop([5, 6, 7, 8], -120, -12), Hop([9, 10, 11, 12], -120, -12)]) ==
            Ok([5, 6, 7, 8, 120, 52, 9, 10, 11, 12, 120, 52])
  {
    HopBytes([5, 6, 7, 8]);
    HopBytes([9, 10, 11, 12]);
    PathOfTwo(Hop([5, 6, 7, 8], -120, -12), Hop([9, 10, 11, 12], -120, -12));
    hide EncodePath, EncodeHop;
    assert [5, 6, 7, 8, 120, 52] + [9, 10, 11, 12, 120, 52] == [5, 6, 7, 8, 120, 52, 9, 10, 11, 12, 120, 52];
  }

  lemma PathOfTwo(h0: Hop, h1: Hop)
    requires EncodeHop(h0).Ok? && EncodeHop(h1).Ok?
    ensures EncodePath([h0, h1]) == Ok(EncodeHop(h0).value + EncodeHop(h1).value)
  {
    hide EncodeHop;
    assert [h0][..0] == [] && [h0, h1][..1] == [h0];
    assert EncodePath([]) == Ok([]);
    EmptyUnit(EncodeHop(h0).value);
    assert EncodePath([h0]) == EncodeHop(h0);
  }

  lemma HopBytes(id: Bytes4)
    ensures EncodeHop(Hop(id, -120, -12)) == Ok([id[0], id[1], id[2], id[3], 120, 52])
  {
    assert SnrToByte(-12) == 52;
    assert id + [120, 52] == [id[0], id[1], id[2], id[3], 120, 52];
  }

  lemma Concatenated(v: bytes)
    requires v == [5, 6, 7, 8, 120, 52, 9, 10, 11, 12, 120, 52]
    ensures [59, 154, 202, 0] + [1, 2, 3, 4] + ([0, 12] + v) ==
            [59, 154, 202, 0, 1, 2, 3, 4, 0, 12, 5, 6, 7, 8, 120, 52, 9, 10, 11, 12, 120, 52]
  {
  }

  /** The same heartbeat as the body of an event packet: 22 bytes in all. */
  lemma HeartbeatBytes(path: seq<Hop>)
    requires path == [Hop([5, 6, 7, 8], -120, -12), Hop([9, 10, 11, 12], -120, -12)]
    ensures ItemsToVec(1_000_000_000 * SECOND, [1, 2, 3, 4], [Heartbeat(path)]) ==
            Ok([59, 154, 202, 0, 1, 2, 3, 4, 0, 12, 5, 6, 7, 8, 120, 52, 9, 10, 11, 12, 120, 52])
  {
    hide EncodePath, EncodeItems;
    var v: bytes := [5, 6, 7, 8, 120, 52, 9, 10, 11, 12, 120, 52];
    PathBytes();
    OneItem(Heartbeat(path));
    assert |v| == 12;
    assert EncodeItem(Heartbeat(path)) == Ok([0, 12] + v);
    assert U32Bytes(1_000_000_000) == [59, 154, 202, 0];
    Concatenated(v);
  }

  /** A proprietary command as the body of a command packet. */
  lemma ProprietaryBytes()
    ensures ItemsToVec(1_000_000_000 * SECOND, [1, 2, 3, 4], [Proprietary(128, [4, 3, 2, 1])]) ==
            Ok([59, 154, 202, 0, 1, 2, 3, 4, 128, 4, 4, 3, 2, 1])
  {
    hide EncodeItems;
    var v: bytes := [4, 3, 2, 1];
    OneItem(Proprietary(128, v));
    assert |v| == 4;
    assert EncodeItem(Proprietary(128, v)) == Ok([128, 4] + v);
    assert U32Bytes(1_000_000_000) == [59, 154, 202, 0];
    assert [59, 154, 202, 0] + [1, 2, 3, 4] + ([128, 4] + v) == [59, 154, 202, 0, 1, 2, 3, 4, 128, 4, 4, 3, 2, 1];
  }

  lemma OneItem(e: Item)
    ensures EncodeItems([e]) == EncodeItem(e)
  {
    assert [e][..0] == [];
    assert EncodeItems([]) == Ok([]);
    if EncodeItem(e).Ok? {
      EmptyUnit(EncodeItem(e).value);
    }
  }
}
