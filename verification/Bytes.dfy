/** Machine integers, fixed-size byte strings and their big-endian encodings. */
module Bytes {
  import opened Numbers

  type byte = x: int | 0 <= x < 0x100
  type u16 = x: int | 0 <= x < 0x1_0000
  type u32 = x: int | 0 <= x < 0x1_0000_0000
  type i8 = x: int | -0x80 <= x < 0x80
  type i16 = x: int | -0x8000 <= x < 0x8000
  type i32 = x: int | -0x8000_0000 <= x < 0x8000_0000
  type bytes = seq<byte>
  type Bytes4 = b: bytes | |b| == 4 witness [0, 0, 0, 0]
  type Block = b: bytes | |b| == 16 witness [0, 0, 0, 0, 0, 0, 0, 0, 0, 0, 0, 0, 0, 0, 0, 0]

  /** A Rust `as i16` cast of a wider integer: the low 16 bits, in two's complement. */
  function AsI16(x: int): (r: i16)
    ensures (r - x) % 0x1_0000 == 0
  {
    var low := x % 0x1_0000;
    if low < 0x8000 then low else low - 0x1_0000
  }

  function U16Bytes(n: u16): (b: bytes)
    ensures |b| == 2 && U16(b) == n
  {
    [n / 0x100, n % 0x100]
  }

  function U16(b: bytes): (n: u16)
    requires |b| == 2
  {
    b[0] as int * 0x100 + b[1]
  }

  function U32Bytes(n: u32): (b: Bytes4)
  {
    U16Bytes(n / 0x1_0000) + U16Bytes(n % 0x1_0000)
  }

  function U32(b: Bytes4): (n: u32)
  {
    U16(b[..2]) as int * 0x1_0000 + U16(b[2..])
  }

  lemma U16BytesInverse(b: bytes)
    requires |b| == 2
    ensures U16Bytes(U16(b)) == b
  {
  }

  lemma U32BytesInverse(n: u32, b: Bytes4)
    ensures U32(U32Bytes(n)) == n
    ensures U32Bytes(U32(b)) == b
  {
    hide U16Bytes, U16;
    var hi, lo := U16Bytes(n / 0x1_0000), U16Bytes(n % 0x1_0000);
    assert (hi + lo)[..2] == hi && (hi + lo)[2..] == lo;
    U16BytesInverse(b[..2]);
    U16BytesInverse(b[2..]);
    DivisionUnique(0x1_0000, U16(b[..2]), U16(b[2..]), U32(b));
    assert b[..2] + b[2..] == b;
  }

  /** The four bytes, highest first. */
  lemma U32Layout(n: u32)
    ensures U32Bytes(n) == [n / 0x100_0000, n / 0x1_0000 % 0x100, n / 0x100 % 0x100, n % 0x100]
  {
    var d, high := n % 0x100, n / 0x100;
    var c, higher := high % 0x100, high / 0x100;
    var b, a := higher % 0x100, higher / 0x100;
    DivisionUnique(0x1_0000, higher, c * 0x100 + d, n);
    DivisionUnique(0x100_0000, a, b * 0x1_0000 + c * 0x100 + d, n);
    DivisionUnique(0x100, c, d, c * 0x100 + d);
    assert U16Bytes(higher) == [a, b] && U16Bytes(c * 0x100 + d) == [c, d];
  }

  function Pow2(width: nat): (p: nat)
    ensures p > 0
  {
    if width == 0 then 1 else 2 * Pow2(width - 1)
  }

  /** Exclusive or of two numbers of the given width, bit by bit from the lowest. */
  function XorBits(width: nat, a: nat, b: nat): (r: nat)
    requires a < Pow2(width) && b < Pow2(width)
    ensures r < Pow2(width)
  {
    if width == 0 then 0 else (a + b) % 2 + 2 * XorBits(width - 1, a / 2, b / 2)
  }

  /** Bit k of a number. */
  predicate Bit(x: nat, k: nat) {
    x / Pow2(k) % 2 == 1
  }

  lemma BitOfHalf(x: nat, k: nat)
    ensures Bit(x, 0) <==> x % 2 == 1
    ensures Bit(x, k + 1) <==> Bit(x / 2, k)
  {
    assert Pow2(0) == 1;
    HalfThenDivide(x, Pow2(k));
  }

  lemma XorSplits(width: nat, a: nat, b: nat)
    requires 0 < width && a < Pow2(width) && b < Pow2(width)
    ensures a / 2 < Pow2(width - 1) && b / 2 < Pow2(width - 1)
    ensures XorBits(width, a, b) / 2 == XorBits(width - 1, a / 2, b / 2)
    ensures XorBits(width, a, b) % 2 == 1 <==> (a % 2 == 1) != (b % 2 == 1)
  {
  }

  /** Each bit of the result is set exactly when it is set in one of the two numbers and not in the other. */
  lemma {:induction false} XorBitsExactly(width: nat, a: nat, b: nat, k: nat)
    requires a < Pow2(width) && b < Pow2(width) && k < width
    ensures Bit(XorBits(width, a, b), k) <==> Bit(a, k) != Bit(b, k)
    decreases k
  {
    XorSplits(width, a, b);
    hide Bit, XorBits, Pow2;
    var before := if k == 0 then 0 else k - 1;
    BitOfHalf(XorBits(width, a, b), before);
    BitOfHalf(a, before);
    BitOfHalf(b, before);
    if k > 0 {
      XorBitsExactly(width - 1, a / 2, b / 2, before);
    }
  }

  lemma {:induction false} XorBitsInvolutive(width: nat, a: nat, b: nat)
    requires a < Pow2(width) && b < Pow2(width)
    ensures XorBits(width, XorBits(width, a, b), b) == a
  {
    if width > 0 {
      var low, high := (a + b) % 2, XorBits(width - 1, a / 2, b / 2);
      assert XorBits(width, a, b) == low + 2 * high;
      XorBitsInvolutive(width - 1, a / 2, b / 2);
      LowBit(a, b, low, high);
    }
  }

  /** Adding b's low bit a second time restores a's, whatever the higher bits are. */
  lemma LowBit(a: nat, b: nat, low: nat, high: nat)
    requires low == (a + b) % 2
    ensures (low + 2 * high + b) % 2 == a % 2 && (low + 2 * high) / 2 == high
  {
    var sum := a + b;
    assert low + 2 * high + b == a + 2 * (b + high - sum / 2);
  }

  lemma ByteWidth()
    ensures Pow2(8) == 0x100
  {
    assert Pow2(4) == 16;
  }

  function Xor(a: byte, b: byte): (r: byte)
  {
    ByteWidth();
    XorBits(8, a, b)
  }

  /** Numbers of one width are equal exactly when all their bits are. */
  lemma {:induction false} SameBitsExactly(width: nat, a: nat, b: nat)
    requires a < Pow2(width) && b < Pow2(width)
    ensures a == b <==> forall k :: 0 <= k < width ==> (Bit(a, k) <==> Bit(b, k))
  {
    hide Bit;
    if width > 0 && forall k :: 0 <= k < width ==> (Bit(a, k) <==> Bit(b, k)) {
      forall k | 0 <= k < width - 1 ensures Bit(a / 2, k) <==> Bit(b / 2, k) {
        BitOfHalf(a, k);
        BitOfHalf(b, k);
        assert Bit(a, k + 1) <==> Bit(b, k + 1);
      }
      SameBitsExactly(width - 1, a / 2, b / 2);
      BitOfHalf(a, 0);
      BitOfHalf(b, 0);
    }
  }

  lemma XorExactly(a: byte, b: byte, k: nat)
    requires k < 8
    ensures Bit(Xor(a, b), k) <==> Bit(a, k) != Bit(b, k)
  {
    hide Bit;
    ByteWidth();
    XorBitsExactly(8, a, b, k);
  }

  lemma XorInvolutive(a: byte, b: byte)
    ensures Xor(Xor(a, b), b) == a
  {
    ByteWidth();
    XorBitsInvolutive(8, a, b);
  }
}
