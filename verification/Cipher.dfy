/**
  The payload cipher of event and command packets, and the keys of a mesh. AES-128 and
  AES-CMAC (RFC 4493, section 2.4) are arbitrary total functions here.
 */
module Cipher {
  import opened Wrappers
  import opened Bytes

  type Key = Block

  /** Nanoseconds since the Unix epoch; negative before it. */
  type SystemTime = int

  const SECOND: int := 1_000_000_000

  datatype Crypto = Crypto(aes: (Key, Block) -> Block, cmac: (Key, bytes) -> Block)

  /** The whole seconds that go on the wire, or an error before the epoch. */
  function WireSeconds(t: SystemTime): (r: Result<u32>)
  {
    if t < 0 then Err(TimeBeforeEpoch) else Ok(t / SECOND % 0x1_0000_0000)
  }

  function CounterBlock(isCommand: bool, relayId: Bytes4, seconds: u32, i: nat): (b: Block)
  {
    [1, 0, 0, 0, 0, if isCommand then 1 else 0] + relayId + U32Bytes(seconds) + [0, (i + 1) % 0x100]
  }

  function Keystream(c: Crypto, key: Key, isCommand: bool, relayId: Bytes4, seconds: u32, k: nat): (b: byte)
  {
    c.aes(key, CounterBlock(isCommand, relayId, seconds, k / 16))[k % 16]
  }

  /** The cipher, byte by byte: encryption and decryption are the same function. */
  function Crypt(c: Crypto, key: Key, isCommand: bool, relayId: Bytes4, seconds: u32, payload: bytes): (out: bytes)
    ensures |out| == |payload|
  {
    seq(|payload|, k requires 0 <= k < |payload| =>
      Xor(payload[k], Keystream(c, key, isCommand, relayId, seconds, k)))
  }

  lemma CryptInvolutive(c: Crypto, key: Key, isCommand: bool, relayId: Bytes4, seconds: u32, payload: bytes)
    ensures Crypt(c, key, isCommand, relayId, seconds, Crypt(c, key, isCommand, relayId, seconds, payload)) == payload
  {
    var once := Crypt(c, key, isCommand, relayId, seconds, payload);
    var twice := Crypt(c, key, isCommand, relayId, seconds, once);
    forall k | 0 <= k < |payload| ensures twice[k] == payload[k] {
      XorInvolutive(payload[k], Keystream(c, key, isCommand, relayId, seconds, k));
    }
  }

  /**
    Counter blocks separate directions, relays, seconds and block numbers. The block number
    is one byte, so that blocks repeat after 256 of them, and not before.
   */
  lemma CounterBlocksDistinctExactly(
    isCommand: bool, relayId: Bytes4, seconds: u32, i: nat,
    isCommand': bool, relayId': Bytes4, seconds': u32, i': nat)
    ensures CounterBlock(isCommand, relayId, seconds, i) == CounterBlock(isCommand', relayId', seconds', i')
            <==> isCommand == isCommand' && relayId == relayId' && seconds == seconds' && i % 0x100 == i' % 0x100
  {
    var a, b := CounterBlock(isCommand, relayId, seconds, i), CounterBlock(isCommand', relayId', seconds', i');
    if a == b {
      assert relayId == a[6..10] == b[6..10] == relayId';
      assert U32Bytes(seconds) == a[10..14] == b[10..14] == U32Bytes(seconds');
      U32BytesInverse(seconds, relayId);
      U32BytesInverse(seconds', relayId);
      assert a[5] == b[5] && a[15] == b[15];
    }
    SameLowByte(i, i');
  }

  lemma SameLowByte(i: nat, i': nat)
    ensures (i + 1) % 0x100 == (i' + 1) % 0x100 <==> i % 0x100 == i' % 0x100
  {
    LowByteNext(i);
    LowByteNext(i');
  }

  lemma LowByteNext(i: nat)
    ensures (i + 1) % 0x100 == if i % 0x100 == 0xff then 0 else i % 0x100 + 1
  {
    assert i + 1 == i / 0x100 * 0x100 + (i % 0x100 + 1);
  }

  /** Within 4096 bytes no two 16-byte blocks of a payload share a counter block. */
  lemma CounterBlocksOfPayload(isCommand: bool, relayId: Bytes4, seconds: u32, k: nat, k': nat)
    requires k < 4096 && k' < 4096 && k / 16 != k' / 16
    ensures CounterBlock(isCommand, relayId, seconds, k / 16) != CounterBlock(isCommand, relayId, seconds, k' / 16)
  {
    CounterBlocksDistinctExactly(isCommand, relayId, seconds, k / 16, isCommand, relayId, seconds, k' / 16);
  }

  /** From byte 4096 on the keystream starts again. */
  lemma KeystreamRepeats(c: Crypto, key: Key, isCommand: bool, relayId: Bytes4, seconds: u32, k: nat)
    ensures Keystream(c, key, isCommand, relayId, seconds, k + 4096) ==
            Keystream(c, key, isCommand, relayId, seconds, k)
  {
    var i := k / 16;
    assert (k + 4096) / 16 == i + 0x100 && (k + 4096) % 16 == k % 16;
    CounterBlocksDistinctExactly(isCommand, relayId, seconds, i + 0x100, isCommand, relayId, seconds, i);
  }

  /** What encrypt_events_commands computes; the empty payload is returned before the time is looked at. */
  function CryptAt(c: Crypto, key: Key, isCommand: bool, relayId: Bytes4, t: SystemTime, payload: bytes)
    : (r: Result<bytes>)
    ensures r.Ok? ==> |r.value| == |payload|
  {
    if payload == [] then Ok([]) else
    var seconds :- WireSeconds(t);
    Ok(Crypt(c, key, isCommand, relayId, seconds, payload))
  }

  /** The keystream of one block is that block, encrypted. */
  lemma KeystreamOfBlock(c: Crypto, key: Key, isCommand: bool, relayId: Bytes4, seconds: u32, i: nat, k: nat)
    requires 16 * i <= k < 16 * i + 16
    ensures Keystream(c, key, isCommand, relayId, seconds, k) ==
            c.aes(key, CounterBlock(isCommand, relayId, seconds, i))[k - 16 * i]
  {
    hide CounterBlock;
    assert k / 16 == i && k % 16 == k - 16 * i;
  }

  /** The inner loop of the cipher: one block of the buffer, in place. */
  method XorBlock(b: array<byte>, i: nat, block: Block)
    requires 16 * i + 16 <= b.Length
    modifies b
    ensures forall k :: 0 <= k < b.Length ==>
                          b[k] == if 16 * i <= k < 16 * i + 16 then Xor(old(b[k]), block[k - 16 * i]) else old(b[k])
  {
    var j := 0;
    while j < 16
      invariant 0 <= j <= 16
      invariant forall k :: 0 <= k < b.Length ==>
                              b[k] == if 16 * i <= k < 16 * i + j then Xor(old(b[k]), block[k - 16 * i]) else old(b[k])
    {
      b[(i * 16) + j] := Xor(b[(i * 16) + j], block[j]);
      j := j + 1;
    }
  }

  /** The 16-byte buffer of the counter block, all but its last byte. */
  method CounterBuffer(isCommand: bool, relayId: Bytes4, seconds: u32) returns (a: array<byte>)
    ensures fresh(a) && a.Length == 16
    ensures forall i: nat :: a[..15] + [(i + 1) % 0x100] == CounterBlock(isCommand, relayId, seconds, i)
  {
    a := new byte[16](_ => 0);
    a[0] := 1;
    if isCommand {
      a[5] := 1;
    }
    forall k | 0 <= k < 4 {
      a[6 + k] := relayId[k];
    }
    var time := U32Bytes(seconds);
    forall k | 0 <= k < 4 {
      a[10 + k] := time[k];
    }
    assert a[..15] == [1, 0, 0, 0, 0, if isCommand then 1 else 0] + relayId + time + [0];
  }

  /** One pass of the outer loop: the counter is set, encrypted, and applied to its block of the buffer. */
  method CryptBlock(
    c: Crypto, key: Key, isCommand: bool, relayId: Bytes4, seconds: u32, a: array<byte>, b: array<byte>, i: nat)
    requires a != b && a.Length == 16 && 16 * i + 16 <= b.Length
    requires a[..15] + [(i + 1) % 0x100] == CounterBlock(isCommand, relayId, seconds, i)
    modifies a, b
    ensures a[..15] == old(a[..15])
    ensures forall k :: 0 <= k < b.Length ==>
                          b[k] == if 16 * i <= k < 16 * i + 16
                                  then Xor(old(b[k]), Keystream(c, key, isCommand, relayId, seconds, k))
                                  else old(b[k])
  {
    hide Keystream, CounterBlock, Xor;
    ghost var head := a[..15];
    a[15] := (i + 1) % 0x100;
    assert a[..] == head + [(i + 1) % 0x100];
    var block := c.aes(key, a[..]);
    forall k | 16 * i <= k < 16 * i + 16
      ensures Keystream(c, key, isCommand, relayId, seconds, k) == block[k - 16 * i]
    {
      KeystreamOfBlock(c, key, isCommand, relayId, seconds, i, k);
    }
    XorBlock(b, i, block);
    assert a[..15] == head;
  }

  /** A padded buffer is whole blocks, and longer than what it pads. */
  lemma WholeBlocks(n: nat)
    ensures var padded := n + (16 - n % 16);
            n < padded && padded / 16 * 16 == padded
  {
    assert n == n / 16 * 16 + n % 16;
  }

  /** The in-place cipher over a zero-padded buffer, block by block. */
  method EncryptEventsCommands(c: Crypto, key: Key, isCommand: bool, relayId: Bytes4, t: SystemTime, payload: bytes)
    returns (r: Result<bytes>)
    ensures r == CryptAt(c, key, isCommand, relayId, t, payload)
  {
    if payload == [] {
      return Ok([]);
    }
    hide Keystream, CounterBlock, Xor;
    var n := |payload|;
    var b := new byte[n + (16 - n % 16)](k => if 0 <= k < n then payload[k] else 0);
    if t < 0 {
      return Err(TimeBeforeEpoch);
    }
    var seconds: u32 := t / SECOND % 0x1_0000_0000;
    var a := CounterBuffer(isCommand, relayId, seconds);
    ghost var head := a[..15];

    var i, blocks := 0, b.Length / 16;
    WholeBlocks(n);
    while i < blocks
      invariant i <= blocks
      invariant a[..15] == head
      invariant forall k :: 0 <= k < n ==>
                              b[k] == if k < 16 * i
                                      then Xor(payload[k], Keystream(c, key, isCommand, relayId, seconds, k))
                                      else payload[k]
    {
      assert head + [(i + 1) % 0x100] == CounterBlock(isCommand, relayId, seconds, i);
      CryptBlock(c, key, isCommand, relayId, seconds, a, b, i);
      i := i + 1;
    }
    r := Ok(b[..n]);
    assert b[..n] == Crypt(c, key, isCommand, relayId, seconds, payload);
  }

  /** The two keys derived from the root key of a mesh. */
  function SigningKey(c: Crypto, root: Key): (k: Key)
  {
    c.aes(root, seq(16, _ => 0))
  }

  function EncryptionKey(c: Crypto, root: Key): (k: Key)
  {
    c.aes(root, [1] + seq(15, _ => 0))
  }
}
