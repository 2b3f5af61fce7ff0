# ChirpStack Gateway Mesh: a verified model

The ChirpStack Gateway Mesh lets LoRa gateways without an internet connection (relays) reach the
network server through other gateways. A relay wraps what it hears from end devices into mesh
packets, any relay passes packets on, and a border gateway unwraps them. This project models that
protocol in Dafny, from the bits of the wire format to whole runs of a mesh, and proves what the
protocol promises.

## The layers

| files | what they hold |
|---|---|
| `Frequency`, `Tlv`, `Cipher`, `Packets`, `MeshPackets` | the wire format: packed headers, 24-bit frequencies, tag-length-value items, the payload cipher and the packet object that is parsed, signed, encrypted and decrypted in place |
| `WireFormat` | the same read off the bytes alone: every field, every bit of the cipher, which frames are accepted, and which key serves what |
| `PayloadCache`, `Cache` | the deduplication key and the bounded first-in first-out set of keys |
| `Helpers` | the mapping tables for channels, data rates and transmit power |
| `Relaying` | what one relay, and any path of relays, does to a frame |
| `Gateway`, `Node` | one gateway: its state and every handler, as functions and as the methods of a class proved equal to them |
| `Handlers` | what each handler does with each kind of frame, field by field, and who does what at all |
| `NodeRuns`, `ChannelRuns`, `CommandRuns`, `UplinkStream` | what one gateway keeps over any run |
| `Network`, `MeshInvariant`, `MeshTheorems`, `Flooding`, `FloodingRuns` | a mesh of gateways and the frames between them, in any order, heard by anyone or no one |
| `MeshRuns` | a gateway in a mesh is a gateway: its part of any run is a run of its own |
| `EndToEnd` | from an end device to the network server and back, over given relays |
| `MeshDeliveries`, `NodeDeliveries`, `MeshEndToEnd` | the same over whole runs of a mesh: what devices and the server get, and what commands run |
| `MeshEvents` | events and commands, item by item, from the gateway that sends them to those who get them |
| `ReceiverStreams`, `MeshStreams`, `MeshStreamBound` | which uplinks are taken for new, over runs of a gateway and of a mesh |
| `Vectors` | the byte strings of the repository's unit tests, which pin the layout |
| `Wrappers`, `Bytes`, `Numbers`, `Seqs`, `Hex` | results and errors, machine integers and their bits, facts about division and about sequences, hexadecimal relay ids |

Code that works step by step is imperative here too: the cursor, the codec loops, the in-place
cipher, the cache, the table searches, the packet object and the gateway are methods and classes.
Each of them is proved equal to a function (`EncodeItemsLoop` to `EncodeItems`, `Cache.Add` to
`AddSpec`, `Node.HandleMesh` to `Gateway.HandleMesh`, and so on), and the theorems are about these
functions.

## How to read the theorems

- `Open` is what a receiver does first (parse, check the integrity code, decrypt), `Seal` is what a
  sender does last (encrypt, sign, serialise), and `RelayFrame` is the relay step between the two.
  `Content` of a packet is the packet without its integrity code.
- `PathPreservesMeaning` and `MeaningNeedsRoom` are the centre of the codec half. A frame gets
  through a path of relays exactly when all of them pass it on, and then says what it said, with
  the hops counted and exactly these relays on its heartbeats. The exact condition is that no
  heartbeat runs out of its one-byte length (42 hops).
- `EveryRunKeepsInv` is the centre of the network half: in every run of a mesh, every frame on the
  air is an original, passed on by some relays in some order, and says what that original said.
- `EveryOriginalDiesOut` bounds how often each original is heard and passed on, in every run and
  whatever the caches hold; `FloodingEnds` bounds all receptions between two originals.
  `RelayedFarApart`, `RelayedAtMostOnce` and `NoLoops` add what the caches give.
- `UplinksTakenOnce` and `UplinksDispatchedOnce` say that no uplink is dropped or handled twice; the
  labels that their condition is about are computed from what happened in the run.
- `CommandsRunExactly` says which commands a relay runs, told from the frames that it hears;
  `MeshEventsReachServer` says what the server gets for an event packet, item by item.
- The layouts in `WireFormat`, `Helpers.LoraRateFound` and the lemmas of `Handlers` are stated on
  bytes, tables and fields: they do not go through the functions that the handlers are made of.
- `NodeOfNet` joins the two halves: in any run of a mesh, state and effects of a gateway are those of
  its own run, so that what `NodeRuns` proves of one gateway holds in every mesh.
- `MeshContextRoundTrip` runs from a device's uplink to the answer that the relay hands back to the
  device, while everything else in the mesh goes on; `OnlyAnswersAreDelivered` and
  `OnlyOneRelayDelivers` say that devices get nothing else, and from no one else.

## Where a simple claim is false

Each of these comes with its exact condition, as an equivalence.

- *Frequencies round-trip.* From 1.2 GHz up to the limit of the code the receiver reads twice the
  frequency, and from 2.4 GHz up an odd hertz is lost (`Frequency.FreqRoundTripExactly`).
- *Items round-trip.* Lengths are truncated to one byte and an event with tag 0 is read as a
  heartbeat (`Tlv.ItemsRoundTripExactly`).
- *Accepted bytes re-encode to themselves.* The two unused bits of an uplink's SNR byte are
  cleared (`Packets.ReencodesUnchangedExactly`). The integrity code is computed over the re-encoded
  bytes, so that it does not cover these two bits (`Relaying.MicCoversCanonicalBytes`).
- *A device gets the delay asked for.* Fractions of a second are dropped and whole seconds are cut to
  a byte, so that 257 seconds are sent as 1 (`EndToEnd.DelayKeptExactly`, `EndToEnd.LongDelayIsCut`).
- *The server gets the signal and the modulation that the relay heard.* The signal strength is cut to
  16 bits, a spreading factor to a byte, and an FSK deviation becomes half the bitrate
  (`EndToEnd.ServerFrameSaysExactly`, `Helpers.ModulationRoundTrip`).
- *The chosen power is the closest one below the request*, says the comment on `tx_power_to_index`
  (`src/helpers.rs:123-126`). It holds exactly when an index can name the power itself in the table,
  or no index is cut to that of an entry above the request and the last entry below the request is
  the greatest one below it, as in ascending tables of up to 256 entries
  (`Helpers.ClosestPowerExactly`); `[27, 16]` with a request of 30 is an example where it fails.
- *The cache is bounded.* A cache of size 0 is not (`Cache.BoundedExactly`).
- *A relay drops no new uplink.* Ids are 12 bits and the cache is 64 keys long: it holds exactly as
  long as fewer than 63 uplinks of a relay are missed in a row (`UplinkStream.NoFalseDropsExactly`
  for the cache, `MeshStreamBound.MeshBoundExactly` for every mesh).
- *Different packets are different to the cache.* Event packets of one relay in one second are not,
  nor are commands for one relay in one second, nor are two answers to one uplink, of which the
  relay handles one (`NodeRuns.SentKeysCollideExactly`, `EndToEnd.DownlinkKeysCollideExactly`,
  `EndToEnd.SecondAnswerIsDropped`).

The configuration template (`src/cmd/configfile.rs:71-72`) says that mesh frequencies are chosen
randomly. The code goes round the list, starting with its second entry if there is one, and so does
the model (`ChannelRuns.FrequenciesInTurn`).

## Conventions

- AES-128 and AES-CMAC (RFC 4493, section 2.4) are arbitrary total functions, the two fields of a
  `Crypto`. All theorems hold for any two such functions.
- A `SystemTime` is the number of nanoseconds since the Unix epoch; casts that truncate are written
  as remainders. An integer of the Rust program that never leaves its range is a subset type.
- `std::io::Cursor::read_exact` is modelled as in the toolchain that is pinned
  (`rust-toolchain.toml:2`): a short read moves to the end. The decode loops end because of it.
- `Event` and `Command` share the datatype `Item`; a flag says which decoder reads it. The code
  rates of the configuration and of the gateway API are identified, `None` being the undefined one.
- The SNR of a received frame is the integer that it is cast to.
- What comes from outside is a parameter: the clock, whether a transmission is acknowledged, what a
  command prints, and in the network who hears a frame. A frame counts as sent whether or not the
  concentrator acknowledges it.
- The origins of frames and the logs of a `Net` (outputs, originals, accepted and relayed keys, radio
  reports) are history for the theorems; no gateway reads them.
- Log arguments are computed only where the log level lets them through; a configuration says whether
  it does, because formatting can fail.
- `hide` statements only take definitions away from the solver.

## Model

| member | source | states |
|---|---|---|
| `Frequency.FreqAcceptedAndDecoded` | `src/packets.rs:874-911` | which frequencies the encoder takes, and what the receiver reads for each of them |
| `Frequency.FreqRoundTripExactly` | `src/packets.rs:874-911` | a frequency is read back unchanged if and only if it is below 1.2 GHz in steps of 100 Hz, or from 2.4 GHz up to the limit in steps of 200 Hz |
| `Frequency.FreqCodeCanonical` | `src/packets.rs:874-911` | every 3-byte code is the code of the frequency it stands for, without overflow |
| `Cipher.EncryptEventsCommands` | `src/packets.rs:913-960` | the padded in-place loops compute the byte-by-byte cipher, or fail for times before the epoch unless the payload is empty |
| `Cipher.XorBlock` | `src/packets.rs:954-956` | one pass changes exactly the bytes of its block |
| `Cipher.CryptBlock` | `src/packets.rs:948-957` | one pass of the outer loop applies the keystream to its block and to nothing else |
| `Cipher.CounterBuffer` | `src/packets.rs:939-949` | the buffer with its last byte set is the counter block of that index |
| `Cipher.CryptInvolutive` | `src/packets.rs:913-960` | decryption is encryption: the cipher undoes itself for every payload |
| `Cipher.CounterBlocksDistinctExactly` | `src/packets.rs:939-952` | two counter blocks are equal if and only if direction, relay, second and block number modulo 256 are |
| `Cipher.CounterBlocksOfPayload` | `src/packets.rs:947-952` | no two blocks of a payload of up to 4096 bytes share a counter block |
| `Cipher.KeystreamRepeats` | `src/packets.rs:947-952` | from byte 4096 on the keystream starts again |
| `Bytes.XorBitsExactly` | `src/packets.rs:954-956` | each bit of an exclusive or is set exactly when it is set in one operand and not in the other |
| `Bytes.XorExactly` | `src/packets.rs:954-956` | the same of the eight bits of a byte |
| `WireFormat.CounterBlockLayout` | `src/packets.rs:939-952` | the sixteen bytes of a counter block |
| `WireFormat.CipherBit` | `src/packets.rs:913-960` | every bit of every enciphered byte, from the payload and the encrypted counter block |
| `Tlv.PathRoundTrip` | `src/packets.rs:627-706` | a relay path encodes if and only if its signals are in range, in six bytes for each hop, and decodes to itself |
| `Tlv.EncodePathLoop` | `src/packets.rs:644-650` | the loop computes the encoding of the path, or its first error |
| `Tlv.Cursor.constructor` | `src/packets.rs:541` | a new cursor has everything still to read |
| `Tlv.Cursor.AtEnd` | `src/packets.rs:544` | the loop condition holds exactly while bytes are unread |
| `Tlv.Cursor.ReadExact` | `src/packets.rs:592-597` | a full read takes exactly the next bytes, a short one fails and leaves nothing to read |
| `Tlv.DecodeItem` | `src/packets.rs:592-603` | one step reads tag, length and value; a value of a bad length is consumed before it is refused |
| `Tlv.DecodeItemsLoop` | `src/packets.rs:539-551` | the loop ends on every byte string and yields the items that decode, in order |
| `Tlv.EncodeItemsLoop` | `src/packets.rs:511-515` | the loop computes the concatenated encodings, or the first error |
| `Tlv.ItemsRoundTripExactly` | `src/packets.rs:584-651` | a list of events survives encoding and decoding if and only if no length exceeds its byte, no signal its bits, and no proprietary tag is 0 |
| `Tlv.EncodedItemsDecode` | `src/packets.rs:511-515` | well-formed items, followed by any bytes, decode to these items and then what the bytes decode to |
| `Tlv.BadHeartbeatSkipped` | `src/packets.rs:544-549` | a heartbeat whose length is no multiple of six is dropped, and all items around it are kept |
| `Tlv.TruncatedTail` | `src/packets.rs:544-549` | a list cut off inside an item yields exactly the items before it |
| `Tlv.DecodedItemsWellFormed` | `src/packets.rs:592-603` | whatever the bytes, decoded items are well-formed |
| `Tlv.ItemsEncodeExactly` | `src/packets.rs:605-618` | items encode if and only if the signals on all relay paths are in range |
| `WireFormat.FirstItemLayout` | `src/packets.rs:584-642` | what a tag, a length and a value are decoded to, down to the bytes of each hop of a heartbeat |
| `Packets.MhdrRoundTrip` | `src/packets.rs:207-259` | header byte and header determine each other wherever either is valid |
| `WireFormat.HeaderLayout` | `src/packets.rs:219-259` | the header byte of each kind of payload and each hop count |
| `WireFormat.OpensExactly` | `src/mesh.rs:41-51` | a frame is accepted if and only if it has the form of one and ends with the first four bytes of the code of what comes before them, but for two bits of an uplink |
| `WireFormat.OpenedHeader` | `src/packets.rs:207-217` | kind and hop count of what is read, from the first byte |
| `WireFormat.OpenedUplink` | `src/packets.rs:277-327` | every field of an uplink that is read, from its bytes |
| `WireFormat.OpenedDownlink` | `src/packets.rs:377-420` | every field of a downlink that is read, from its bytes |
| `WireFormat.OpenedItems` | `src/packets.rs:465-557` | time, relay and items of an event or command packet that is read, from its bytes |
| `WireFormat.KeysAtWork` | `src/aes128.rs:103-126` | the configured signing key, unless it is all zeros, and which derived key serves what |
| `Packets.UplinkMetadataRoundTrip` | `src/packets.rs:311-367` | bytes come back with the two unused SNR bits cleared, metadata in range comes back unchanged |
| `Packets.DownlinkMetadataRoundTrip` | `src/packets.rs:411-455` | bytes come back unchanged, metadata with at most its frequency changed; and exactly which metadata encodes |
| `Packets.ParseAcceptsExactly` | `src/packets.rs:51-78` | which byte strings are accepted: by their first three bits and their length |
| `Packets.ParsedReencodes` | `src/packets.rs:51-96` | every accepted byte string re-encodes without error to its canonical bytes, and the packet has wire form |
| `Packets.ReencodesUnchangedExactly` | `src/packets.rs:51-96` | it re-encodes to itself if and only if it is no uplink or leaves the two unused SNR bits clear |
| `Packets.CanonicalParsesTheSame` | `src/packets.rs:311-327` | a frame and its canonical bytes are the same packet |
| `Packets.SerialisedParses` | `src/packets.rs:51-96` | what every receiver parses from any serialised packet: time in whole seconds, the frequency heard, the items as one encrypted one |
| `Packets.PacketRoundTripExactly` | `src/packets.rs:51-96` | a packet is read back unchanged if and only if it has wire form |
| `Packets.ParsedDecrypts` | `src/packets.rs:528-557` | a parsed packet always decrypts, whatever its bytes |
| `MeshPackets.MeshPacket.FromSlice` | `src/packets.rs:51-78` | the new packet object is what the bytes parse to, or the same error |
| `MeshPackets.MeshPacket.PayloadBytes` | `src/packets.rs:82-87` | the payload bytes of each kind; loops for events and commands |
| `MeshPackets.MeshPacket.SignedBytes` | `src/packets.rs:98-108` | the bytes under the integrity code: header and payload |
| `MeshPackets.MeshPacket.ToVec` | `src/packets.rs:80-96` | the bytes on the wire, or an error without an integrity code |
| `MeshPackets.MeshPacket.SetMic` | `src/packets.rs:126-131` | sets the integrity code and nothing else, or fails without a change |
| `MeshPackets.MeshPacket.ValidateMic` | `src/packets.rs:133-157` | whether the code is that of the re-serialised packet |
| `MeshPackets.MeshPacket.Encrypt` | `src/packets.rs:110-116` | replaces the items by one encrypted item, or fails without a change |
| `MeshPackets.MeshPacket.Decrypt` | `src/packets.rs:118-124` | replaces the encrypted item by the decoded ones, or fails without a change |
| `Vectors.Headers` | `src/packets.rs:966-1072` | the header bytes of the unit tests |
| `Vectors.UplinkMetadataBytes` | `src/packets.rs:1158-1205` | the uplink metadata bytes of the unit tests, both ways |
| `Vectors.DownlinkMetadataBytes` | `src/packets.rs:1250-1358` | the downlink metadata bytes of the unit tests, both ways |
| `Vectors.HeartbeatBytes` | `src/packets.rs:1449-1475` | the 22 bytes of the heartbeat of the unit tests |
| `Vectors.OtherHeaders` | `src/packets.rs:236-259` | header bytes of events and commands |
| `Vectors.ProprietaryBytes` | `src/packets.rs:1478-1508` | the 14 bytes of the proprietary command of the unit tests |
| `Cache.Cache.constructor` | `src/cache.rs:12-17` | a new cache is empty and has the size asked for |
| `Cache.Cache.Add` | `src/cache.rs:21-34` | the new contents and the result, for every size and contents |
| `Cache.CacheHoldsLastAccepted` | `src/cache.rs:21-34` | after any arrivals the cache holds exactly the last accepted values, as many as its size, in order |
| `Cache.AcceptedWellSpaced` | `src/cache.rs:21-34` | two acceptances of one value are more than `size` places apart |
| `Cache.RepeatsFarApart` | `src/cache.rs:21-34` | the values accepted in between are all different |
| `Cache.CacheHasNoDuplicates` | `src/cache.rs:21-34` | the cache holds no value twice |
| `Cache.FewValuesAcceptedOnce` | `src/cache.rs:21-34` | if at most `size` different values are accepted, each is accepted once |
| `Cache.BoundedExactly` | `src/cache.rs:12-34` | the cache stays within its size if and only if that is at least 1 |
| `Relaying.MicCoversCanonicalBytes` | `src/packets.rs:98-157` | the code is compared with that of the canonical bytes |
| `Relaying.SignedIsAccepted` | `src/packets.rs:80-157` | what is signed and serialised always parses and validates with the same key |
| `Relaying.SealedOpens` | `src/mesh.rs:41-65` | whatever is sealed opens everywhere in the mesh, and what it is then: time in whole seconds, items as decoded |
| `Relaying.OpenedForm` | `src/mesh.rs:41-65` | whatever bytes are heard, a packet that opens is in range |
| `Relaying.ArrivesUnchangedExactly` | `src/packets.rs:465-557` | a packet arrives as it was sent if and only if it is in range, in whole seconds and with well-formed items |
| `Relaying.SealedHeader` | `src/cache.rs:45-83` | sending and receiving keep the header and the deduplication key |
| `Relaying.RelaysExactly` | `src/mesh.rs:295-435` | a relay passes a frame on if and only if it is below both hop limits and, for heartbeats, the relay's signal fits |
| `Relaying.RelayedFrame` | `src/mesh.rs:295-435` | a relayed frame opens everywhere, one hop further, with the same key; its content is right if and only if no heartbeat was full |
| `Relaying.PathPreservesMeaning` | `src/mesh.rs:41-75` | over any path: gets through exactly when every relay passes it on, and then says the same, hops counted, exactly these relays added to heartbeats in order |
| `Relaying.MeaningNeedsRoom` | `src/packets.rs:605-618` | and only if no heartbeat outgrows its length byte on the way |
| `Helpers.FindIndex` | `src/helpers.rs:6-15` | the search finds the first match, cast to one byte, or fails exactly when there is none |
| `Helpers.LookupRoundTripExactly` | `src/helpers.rs:6-24` | a value comes back from its index if and only if it is among the first 256 entries |
| `Helpers.ModulationRoundTrip` | `src/helpers.rs:26-121` | a modulation whose rate is among the first 256 comes back with the polarisation asked for; a LoRa one otherwise unchanged if and only if its spreading factor fits a byte, an FSK one if and only if its deviation is half its bitrate |
| `Helpers.LoraRateFound` | `src/helpers.rs:26-76` | a LoRa modulation is found if and only if the table has an entry with its parameters, at the first one |
| `Helpers.FskRateFound` | `src/helpers.rs:26-76` | an FSK modulation is found if and only if the table has an entry with its bitrate, at the first one |
| `Helpers.OthersNotFound` | `src/helpers.rs:26-76` | nothing else is found in any table |
| `Helpers.RateGivesModulation` | `src/helpers.rs:79-121` | every index of the table gives the parameters of its entry, and no other index any |
| `Helpers.RateRoundTrip` | `src/helpers.rs:26-121` | every complete entry among the first 256, the first of its kind, comes back from the modulation that it gives |
| `Helpers.TxPowerToIndex` | `src/helpers.rs:127-146` | the loop computes the scan, with its one-byte index |
| `Helpers.PowerScanFinds` | `src/helpers.rs:127-146` | which entry is chosen, for tables of any length: the first one not above the request whose one-byte index names an entry not below it, or else the last one not above it |
| `Helpers.PowerMetExactly` | `src/helpers.rs:127-155` | the request is met if and only if it is among the first 256 entries, for tables of any length |
| `Helpers.ClosestPowerExactly` | `src/helpers.rs:123-146` | when the comment on the function holds, for tables of any length |
| `Helpers.AscendingTableIsClosest` | `src/helpers.rs:123-146` | when it holds for ascending tables: always up to 256 entries, and beyond that exactly when no index that matters is cut |
| `Helpers.DescendingTableIsNotClosest` | `src/helpers.rs:123-146` | a table and a request for which it does not |
| `Helpers.NeverAboveRequestExactly` | `src/helpers.rs:127-155` | the power is never above the request if and only if the table has at most 256 entries |
| `Gateway.AcksToResult` | `src/helpers.rs:158-180` | a downlink succeeds if and only if one of its items was acknowledged, and fails with the status of the last one |
| `Gateway.FormatUplink` | `src/helpers.rs:182-206` | an uplink can be formatted for the log if and only if it has its transmission, reception and modulation |
| `Gateway.FormatDownlink` | `src/helpers.rs:208-241` | a downlink can be formatted if and only if every item has its transmission, modulation and timing |
| `Hex.DecodesExactly` | `src/mesh.rs:105-109` | a relay id of the right length is refused if and only if a character of it is no hexadecimal digit |
| `Hex.DigitsOf` | `src/mesh.rs:105-109` | each byte of a relay id is read from two digits, the high one first |
| `Hex.DigitValues` | `src/mesh.rs:105-109` | the values of the digits, in either case, and that nothing else is one |
| `Hex.RelayIdRoundTrip` | `src/mesh.rs:105-109` | the relay id that a gateway reports is read back when a command is addressed to it |
| `Gateway.Responses` | `src/commands.rs:50-64` | there are never more response events than commands |
| `CommandRuns.ResponsesExactly` | `src/commands.rs:50-64` | there is one response for each command that printed something, in order, under its command's type |
| `Node.Node.constructor` | `src/mesh.rs:24-30` | a gateway starts with an empty cache of 64 keys, no contexts and all counters at 0 |
| `Node.Node.GetMeshFrequency` | `src/mesh.rs:628-641` | round robin, or an error for an empty list |
| `Node.Node.GetUplinkId` | `src/mesh.rs:643-652` | the next id, from 4095 back to 0; nothing else changes |
| `Node.Node.StoreUplinkContext` | `src/mesh.rs:654-659` | the context is stored under the new id; nothing else changes |
| `Node.Node.GetUplinkContext` | `src/mesh.rs:661-667` | the context under an id, or an error |
| `Node.Node.SealPacket` | `src/mesh.rs:125-139` | encrypt, sign and serialise in place is `Seal` |
| `Node.Node.SendEvents` | `src/events.rs:122-174` | a new event packet, sealed and transmitted |
| `Node.Node.SendMeshCommand` | `src/mesh.rs:95-159` | a new command packet for the relay id that the text stands for, of the commands that are set, types cut to one byte, sealed and transmitted; or the error for the text |
| `Node.Node.HandleUplink` | `src/mesh.rs:33-38` | an uplink is relayed by a relay and proxied by a border gateway, unless it is to be logged and cannot be formatted |
| `Node.Node.RelayUplinkLoraPacket` | `src/mesh.rs:437-506` | whole new state and effects, on every error path: the id is used up before the tables are searched |
| `Node.Node.ExecuteCommands` | `src/commands.rs:36-65` | an old timestamp changes nothing; a new one is remembered and every command runs, in order, with the responses of those that succeed |
| `Node.Node.RunCommandPacket` | `src/mesh.rs:371-382` | the responses are sent as events, if there are any |
| `Node.Node.SendToDevice` | `src/mesh.rs:312-346` | the device frame of a downlink for this relay, or the first error |
| `Node.Node.AppendToHeartbeats` | `src/mesh.rs:358-368` | every heartbeat, and nothing else, gets this relay appended in place |
| `Node.Node.EncryptSignSend` | `src/mesh.rs:392-434` | encrypt, sign, then check the hop limit, then serialise and transmit |
| `Node.Node.RelayMeshPacket` | `src/mesh.rs:295-435` | state and effects for all four payloads, own and foreign, and all errors |
| `Node.Node.HandleMesh` | `src/mesh.rs:41-75` | parse, check, cache, decrypt, dispatch: whole new state and effects for any bytes |
| `Node.Node.BuildDownlinkPacket` | `src/mesh.rs:521-571` | the mesh packet of a downlink item, its delay cut to whole seconds and a byte, with its errors in their order |
| `Node.Node.HandleDownlink` | `src/mesh.rs:77-93` | the context of the first item decides between proxying, with the errors of formatting, and relaying |
| `Node.Node.RelayDownlinkLoraPacket` | `src/mesh.rs:508-626` | the attempt loop: acknowledgements, effects and state for every course of attempts |
| `NodeRuns.HandleMeshExactly` | `src/mesh.rs:41-75` | what does not open or was seen before changes nothing and causes nothing; anything else is cached and dispatched |
| `NodeRuns.CopyIsDropped` | `src/mesh.rs:53-61` | the next copy of a packet is dropped, even if the one before was dropped for its hops |
| `NodeRuns.SentKeysCollideExactly` | `src/cache.rs:45-83` | any two packets sent share a key if and only if they are of one kind and one relay and have the same id, or the same second |
| `NodeRuns.EventKeysCollideExactly` | `src/cache.rs:62-81` | two event packets of one relay share a key if and only if they share a second |
| `NodeRuns.CommandKeysCollideExactly` | `src/cache.rs:71-81` | two command packets share a key if and only if they are for one relay and share a second |
| `NodeRuns.CacheOverRun` | `src/mesh.rs:53-61` | over any run the cache is the last 64 accepted keys of what was heard on the mesh, and nothing else touches it |
| `NodeRuns.ContextsOverRun` | `src/mesh.rs:643-659` | over any run the contexts and the id are those of the uplinks taken from devices |
| `NodeRuns.StoredExactly` | `src/mesh.rs:643-667` | the n-th context has id n modulo 4096, and under each id is the latest context with it |
| `NodeRuns.ContextKept` | `src/mesh.rs:643-667` | a context is found under its id exactly until 4096 more are stored |
| `NodeRuns.UplinkIdsRepeatExactly` | `src/mesh.rs:643-652` | over any run the id is back where it was exactly after a multiple of 4096 uplinks |
| `NodeRuns.CommandsOfStep` | `src/mesh.rs:370-382` | a step runs all commands of the payload it executes, and no others |
| `NodeRuns.CommandsRunAtMostOnce` | `src/commands.rs:36-65` | over any run the executed payloads have strictly increasing times, and the commands run are exactly theirs, in order |
| `CommandRuns.CommandsRunExactly` | `src/commands.rs:36-65` | over any run a relay runs the commands of exactly those payloads, addressed to it and heard as new, that were later than all it had executed |
| `CommandRuns.OrderExecutedExactly` | `src/commands.rs:36-65` | such a payload is executed, all its commands first of all, if and only if it is later than all executed before; otherwise it is refused without effect |
| `Handlers.ResponsesAreSent` | `src/mesh.rs:370-382` | then one event packet goes out, if anything was printed, and opens everywhere to exactly these responses |
| `ChannelRuns.StepTurn` | `src/mesh.rs:628-641` | whatever a gateway does in one step, the frequencies of its mesh frames are the next ones in turn |
| `ChannelRuns.FrequenciesInTurn` | `src/mesh.rs:628-641` | over any run the k-th mesh frame leaves on entry k modulo the number of frequencies |
| `ChannelRuns.EachFrequencyOnce` | `src/mesh.rs:628-641` | any as many successive mesh frames as there are frequencies use each of them as often as it is listed |
| `UplinkStream.NoFalseDrops` | `src/cache.rs:21-34` | in a stream of any length the cache accepts each original exactly once, with up to 62 uplinks of a relay missed in a row |
| `UplinkStream.NoFalseDropsExactly` | `src/cache.rs:21-34` | the bound is exact |
| `ReceiverStreams.UplinkIsNumbered` | `src/mesh.rs:643-659` | the uplink that a relay sends after any run has the key of the next number by its count |
| `ReceiverStreams.HandledIsAccepted` | `src/mesh.rs:53-61` | what a gateway dispatches over any run is what the cache lets through of all it hears |
| `ReceiverStreams.EveryUplinkIsHandledOnce` | `src/mesh.rs:41-75` | a gateway that heard a stream in order over a run dispatched exactly the originals of that stream, each once; for any labelling of what it heard |
| `ReceiverStreams.NextUplinkIsFresh` | `src/mesh.rs:53-61` | and takes the next one for new |
| `ReceiverStreams.NewUplinkIsTaken` | `src/mesh.rs:53-61` | in any run of a mesh, a relay's new uplink is taken for new by whoever hears it first, however often ids have come round, under the same bound |
| `MeshStreams.EveryOriginalIsNumbered` | `src/mesh.rs:643-659` | in every run of a mesh each uplink sent has the key of its number by its sender's count |
| `MeshStreams.LabelsAreArrivals` | `src/mesh.rs:53-61` | what a gateway of a mesh hears, labelled by which original it is and whether it was heard before, has the keys that its handler sees |
| `MeshStreams.UplinksTakenOnce` | `src/mesh.rs:53-61` | in every run of a mesh in which at most 62 uplinks of a relay are missed in a row, a gateway takes each uplink it hears for new exactly when it first hears that original |
| `MeshStreams.UplinksDispatchedOnce` | `src/mesh.rs:41-75` | so each uplink that it hears, however often and over whatever relays, is dispatched exactly once |
| `MeshStreamBound.NewUplinkDropped` | `src/mesh.rs:53-61` | in every mesh with a relay that can send, a run with 63 missed in a row in which another gateway drops a new uplink |
| `MeshStreamBound.MeshBoundExactly` | `src/cache.rs:21-34` | in every such mesh the bound is exact |
| `Network.FramesOfReception` | `src/mesh.rs:295-435` | hearing a frame sends at most one: the foreign packet passed on, or the responses to an own command |
| `Network.SendsExactly` | `src/mesh.rs:295-435` | when hearing a frame makes a gateway send: exactly if it is new, and can be passed on within both hop limits and with a signal in range, or is a new command of its own with responses |
| `Network.ActsAreFirstHop` | `src/mesh.rs:437-571` | whatever a gateway sends of its own accord opens everywhere, at hop 1 |
| `MeshInvariant.RelayedExplained` | `src/mesh.rs:386-405` | a frame passed on is explained by the frame it was, with the relay added |
| `MeshInvariant.LogStep` | `src/mesh.rs:53-61` | a reception keeps cache and logs in step, and only accepted packets are passed on |
| `MeshInvariant.ActKeepsInv` | `src/mesh.rs:437-626` | the invariant is kept when a gateway sends something of its own |
| `MeshInvariant.ReceiveKeepsInv` | `src/mesh.rs:41-75` | the invariant is kept when any gateway hears any frame on the air |
| `MeshInvariant.EveryRunKeepsInv` | `src/mesh.rs:41-75` | the invariant holds in every run |
| `MeshTheorems.EveryFrameIsDerived` | `src/mesh.rs:295-435` | every frame on the air is its original passed on by a list of relays within their limits and with the signals reported to them, none of them its owner, with the content that follows |
| `MeshTheorems.RelayedFarApart` | `src/mesh.rs:53-61` | what a gateway passes on stands in order in the log of what it accepted, and between two relays of one packet it accepted 64 other, all different ones |
| `MeshTheorems.RelayedAtMostOnce` | `src/mesh.rs:53-61` | so a gateway that accepted at most 64 different packets passed each on at most once |
| `MeshTheorems.NoLoops` | `src/mesh.rs:303-390` | under the same condition no frame passes a relay twice, or its owner at all |
| `MeshTheorems.HeartbeatOriginal` | `src/events.rs:84-90` | a heartbeat is sent with an empty path |
| `MeshTheorems.HeartbeatPathIsRoute` | `src/mesh.rs:358-368` | wherever a heartbeat is heard, its path is the relays it came through, one for each hop after the first, at most 42 bytes |
| `MeshEvents.EventsOverPath` | `src/mesh.rs:358-368` | over any path of relays every item arrives as it was, each heartbeat with exactly the hops of these relays added, in order; other packets are unchanged |
| `MeshEvents.EventsOverMesh` | `src/mesh.rs:295-435` | the same of every frame on the air in every run of a mesh, each hop as its relay heard the packet |
| `MeshEvents.BorderHandsEventsOn` | `src/mesh.rs:240-293` | a border gateway hands every event packet that it has not seen to the server with its relay, time and items |
| `MeshEvents.MeshEventsReachServer` | `src/mesh.rs:240-293` | in any run of a mesh, whenever the border gateway hears a copy of an event packet, the server gets the items as sent, with the route of this copy on heartbeats, exactly when its key is not among the last 64 accepted |
| `MeshEvents.EventsAreSent` | `src/events.rs:122-173` | when a list of events is sent at all, and that it opens everywhere to an event packet of this gateway and second, with exactly these events if and only if they fit |
| `MeshEvents.SetCommandsExactly` | `src/mesh.rs:110-120` | the commands that are set go into the packet, in order, with their values and the low bytes of their types |
| `MeshEvents.CommandsAreSent` | `src/mesh.rs:95-159` | when a list of commands is sent at all, and that it opens everywhere to a command packet for the relay named, with exactly these commands if and only if no value exceeds 255 bytes |
| `Flooding.SentIsShallower` | `src/mesh.rs:386-405` | what a reception sends has strictly less far to go |
| `Flooding.QuietStepLowersWork` | `src/mesh.rs:295-435` | every reception or loss lowers the worth of the air, for any states of the caches |
| `Flooding.FloodingEnds` | `src/mesh.rs:386-405` | between two originals, whatever happens to the caches, there are at most as many such steps as the air is worth |
| `FloodingRuns.ReceiveBounded` | `src/mesh.rs:386-405` | a reception lowers what its own original can still cause, and adds to no other but a new one |
| `FloodingRuns.EveryOriginalDiesOut` | `src/mesh.rs:386-405` | in every run of a mesh of n gateways, whatever else they send, every original is heard fewer than (n+1)^9 times, and passed on no more often |
| `Flooding.OriginalIsWorth` | `src/packets.rs:219-229` | an original among n gateways is worth less than (n+1)^9 |
| `Flooding.CommandIsWorth` | `src/mesh.rs:370-382` | a command, responses included, less than (n+1)^18 |
| `MeshRuns.NodeOfNet` | `src/mesh.rs:25-30` | state and effects of a gateway in any run of a mesh are those of the run of its own steps |
| `MeshRuns.AcceptedOfNet` | `src/mesh.rs:53-61` | the log of accepted keys is what the cache lets through of all that the gateway heard |
| `MeshRuns.HeardIsOriginal` | `src/mesh.rs:295-435` | uplinks, downlinks and commands are heard as they were sent, but for the hops |
| `MeshRuns.MeshCommandsRunAtMostOnce` | `src/commands.rs:36-65` | in every run of a mesh each gateway executes payloads with strictly increasing times, and runs exactly their commands |
| `CommandRuns.MeshCommandsRunExactly` | `src/commands.rs:36-65` | in every run of a mesh each gateway runs exactly the commands of the payloads that were later than all before, and remembers the time of the last |
| `MeshDeliveries.OnlyOrdersAreExecuted` | `src/mesh.rs:370-382` | in every run of a mesh a gateway executes nothing but commands that were sent into the mesh for it |
| `MeshDeliveries.ReceptionDelivers` | `src/mesh.rs:312-346` | when a gateway of a mesh transmits to a device, it is a downlink sent into the mesh for it, with the latest context stored under its id |
| `MeshDeliveries.OnlyAnswersAreDelivered` | `src/mesh.rs:312-346` | in every run of a mesh all transmissions to devices are such downlinks |
| `MeshDeliveries.OnlyOneRelayDelivers` | `src/mesh.rs:312-346` | no two gateways ever transmit the same downlink |
| `NodeDeliveries.StepDelivers` | `src/mesh.rs:63-74` | a packet that is dispatched is handed on at most once, to a device or to the server, under its own key; one that is not, never |
| `Handlers.DirectUplinks` | `src/mesh.rs:33-38` | a border gateway hands its own uplinks to the server as they are; a relay sends a mesh frame at most |
| `Handlers.DirectDownlinks` | `src/mesh.rs:77-93` | the context of the first item decides: with one of the mesh the items go into the mesh in order until one is acknowledged, else the downlink is transmitted as it is |
| `Handlers.UplinkHandedOn` | `src/mesh.rs:182-238` | every field of what the server gets for any uplink from the mesh, and when it gets nothing |
| `Handlers.DownlinkTransmitted` | `src/mesh.rs:312-346` | every field of what a device gets for any downlink from the mesh, and when it gets nothing |
| `Handlers.EndsHere` | `src/mesh.rs:63-74` | which packets end at a gateway that hears them, without any effect |
| `Handlers.ForeignPackets` | `src/mesh.rs:386-435` | a packet of another relay is passed on or fails, and what is reported |
| `Handlers.EveryoneInRole` | `src/mesh.rs:63-74` | over any run only border gateways hand uplinks and events to the server, and only relays run commands and deliver downlinks from the mesh |
| `NodeDeliveries.DeliveriesFarApart` | `src/mesh.rs:53-61` | over any run, between two things handed on for one key a gateway accepted 64 other, all different packets |
| `NodeDeliveries.MeshDeliveriesFarApart` | `src/mesh.rs:53-61` | in every run of a mesh, the same of all that a gateway transmits to devices or hands to the server |
| `EndToEnd.AttemptsAcknowledged` | `src/mesh.rs:508-626` | one acknowledgement for each item: failures, then at most one success, then ignored; an error means that nothing was transmitted successfully |
| `EndToEnd.UplinkSentExactly` | `src/mesh.rs:437-506` | when an uplink is sent at all: which tables, values and frequencies it takes |
| `EndToEnd.DownlinkSentExactly` | `src/mesh.rs:521-592` | when a downlink attempt reaches the transmission |
| `EndToEnd.UplinkReachesServer` | `src/mesh.rs:182-238` | over any relays the server gets the uplink and the way back, exactly when the border gateway has no uplink with this id in its cache |
| `EndToEnd.ServerFrameSaysExactly` | `src/mesh.rs:458-464` | payload, frequency and SNR are the device's; the signal strength if and only if it is from -255 to 0, the modulation if and only if the tables can express it |
| `EndToEnd.SignalIsCut` | `src/mesh.rs:463` | an uplink heard with a strength of 65436 makes the same frame as one with -100, and is reported as such |
| `EndToEnd.SignalIsCutSomewhere` | `src/mesh.rs:463` | a relay and such an uplink that is sent, from any state |
| `EndToEnd.BorderContextReads` | `src/mesh.rs:214-221` | the nine bytes are recognised as a mesh context and give back relay and id |
| `EndToEnd.DownlinkReachesDevice` | `src/mesh.rs:312-346` | over any relays the device frame has the payload, the frequency as heard, the modulation inverted, the table's power, the delay that fits and the kept context, exactly when the relay has no downlink with this id in its cache |
| `EndToEnd.DelayKeptExactly` | `src/mesh.rs:532-541` | a downlink that is sent gives the delay asked for if and only if that is 1 to 16 whole seconds |
| `EndToEnd.LongDelayIsCut` | `src/mesh.rs:532-537` | a request for 257 seconds makes the same frame as one for 1 second |
| `EndToEnd.DownlinkKeysCollideExactly` | `src/cache.rs:56-61` | two downlinks share a key if and only if their contexts name the same relay and id |
| `EndToEnd.SecondAnswerIsDropped` | `src/mesh.rs:53-61` | of two answers to one uplink a gateway handles the first only: the second is dropped whatever comes between, until 64 other packets have been accepted |
| `EndToEnd.OthersDoNotDeliver` | `src/mesh.rs:312-346` | over any relays, a gateway with another relay id hands no device anything |
| `EndToEnd.OnlyAddresseeDelivers` | `src/mesh.rs:312-346` | a gateway sends a downlink to a device only if the packet is addressed to it |
| `EndToEnd.ContextStillThere` | `src/mesh.rs:643-667` | a relay has the context of an uplink as long as it stored fewer than 4096 others since |
| `EndToEnd.ContextRoundTrip` | `src/mesh.rs:182-238` | there and back over given relays: the context handed out with the answer is the one that came with the device's uplink, and no other gateway hands out anything |
| `MeshEndToEnd.MeshUplinkReachesServer` | `src/mesh.rs:182-238` | in any run of a mesh, whenever the border gateway hears a copy of a device's uplink, the server gets it, exactly when its key is not among the last 64 accepted |
| `MeshEndToEnd.MeshDownlinkReachesDevice` | `src/mesh.rs:312-346` | whenever the relay that a downlink is for hears a copy, the device gets it, exactly when its key is not among the last 64 accepted |
| `MeshEndToEnd.NoOtherDelivers` | `src/mesh.rs:312-346` | whenever another gateway hears a copy, no device gets anything |
| `MeshEndToEnd.ContextInMesh` | `src/mesh.rs:643-667` | in any run of a mesh a relay has the context of an uplink while it stored fewer than 4096 others since |
| `MeshEndToEnd.MeshContextRoundTrip` | `src/mesh.rs:182-238` | there and back over a mesh in which anything else may go on: the device gets the answer with the context that came with its uplink |

## Left out

- Sockets, threads, channels, one-time initialisation and signals (`src/backend.rs`, `src/proxy.rs`, `src/cmd/root.rs`): a transmission is an output and an acknowledgement from the environment.
- Concurrency inside a gateway: frames from the mesh are handled one at a time, and each handler is one step here. The failure of asking the concentrator for its relay or gateway id is not modelled.
- AES-128 and CMAC themselves: they are arbitrary functions, so nothing is said about forgery or secrecy.
- The filters in front of the handlers (checksum status, proprietary prefix, ignored direct uplinks, address filters): a run may contain any frame.
- The `Packet` wrapper that sends a frame with another prefix to the LoRaWAN side, and the unused `decode` methods beside `decrypt`.
- Running processes for commands and events: an arbitrary result or a failure. That a response of more than 255 bytes is cut short in its length byte is in the model.
- Configuration files, code-rate names, and the text of log lines; that formatting an incomplete frame fails is in the model.
- Fields that no theorem could be about: gateway ids (and relay ids as text in proxied events), random downlink ids, and the constant power, modulation and timing of mesh transmissions.
- The conversion of floating-point SNR and of protobuf enumerations; memory limits and 64-bit overflow of times.
- EndToEnd.UplinkReachesServer: for a frequency and a data rate among the first 256 entries of their tables; `Helpers.LookupRoundTripExactly` says that no other comes back from its index.
- EndToEnd.DownlinkReachesDevice: for a data rate among the first 256 entries; power tables may be longer, and `Helpers.NeverAboveRequestExactly` shows that those can give a higher power.
- ReceiverStreams.EveryUplinkIsHandledOnce: for whatever labels are put on what was heard; `MeshStreams.UplinksTakenOnce` is about those that a run of a mesh gives.
- MeshTheorems.RelayedAtMostOnce: for at most 64 different accepted packets; beyond that the cache forgets, and `MeshTheorems.RelayedFarApart` says when a packet can be passed on again.
- Delivery: nothing says that a packet arrives, since frames may be lost, and a copy dropped for its hops still suppresses a later one.
