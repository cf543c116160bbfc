/** Big-endian byte strings and 32-bit exclusive or. */
module Bytes {

  type Byte = x: int | 0 <= x < 256
  type Uint16 = x: int | 0 <= x < 0x1_0000
  type Uint32 = x: int | 0 <= x < 0x1_0000_0000

  function Be16(x: Uint16): (b: seq<Byte>)
    ensures |b| == 2
  {
    [x / 256, x % 256]
  }

  function Be32(x: Uint32): (b: seq<Byte>)
    ensures |b| == 4
  {
    [x / 0x100_0000, x / 0x1_0000 % 256, x / 256 % 256, x % 256]
  }

  function GetBe16(b: seq<Byte>, i: nat): Uint16
    requires i + 2 <= |b|
  {
    var b0: int, b1: int := b[i], b[i + 1];
    b0 * 256 + b1
  }

  function GetBe32(b: seq<Byte>, i: nat): Uint32
    requires i + 4 <= |b|
  {
    var b0: int, b1: int, b2: int, b3: int := b[i], b[i + 1], b[i + 2], b[i + 3];
    b0 * 0x100_0000 + b1 * 0x1_0000 + b2 * 256 + b3
  }

  lemma Be16Inverse(x: Uint16)
    ensures GetBe16(Be16(x), 0) == x
  {
  }

  lemma Be32Inverse(x: Uint32)
    ensures GetBe32(Be32(x), 0) == x
  {
    assert x == x / 256 * 256 + x % 256;
    assert x / 256 == x / 0x1_0000 * 256 + x / 256 % 256;
    assert x / 0x1_0000 == x / 0x100_0000 * 256 + x / 0x1_0000 % 256;
  }

  lemma Be16Unique(b: seq<Byte>, x: Uint16)
    requires |b| == 2 && GetBe16(b, 0) == x
    ensures b == Be16(x)
  {
  }

  lemma Be32Unique(b: seq<Byte>, x: Uint32)
    requires |b| == 4 && GetBe32(b, 0) == x
    ensures b == Be32(x)
  {
    var b0: int, b1: int, b2: int, b3: int := b[0], b[1], b[2], b[3];
    assert x / 256 == b0 * 0x1_0000 + b1 * 256 + b2 && x / 0x1_0000 == b0 * 256 + b1;
  }

  /** Reading at the seam of two byte strings reads the second. */
  lemma GetAtSeam(a: seq<Byte>, b: seq<Byte>, i: nat)
    ensures i + 2 <= |b| ==> GetBe16(a + b, |a| + i) == GetBe16(b, i)
    ensures i + 4 <= |b| ==> GetBe32(a + b, |a| + i) == GetBe32(b, i)
  {
  }

  lemma Associative(a: seq<Byte>, b: seq<Byte>, c: seq<Byte>)
    ensures a + b + c == a + (b + c)
  {
  }

  function Power2(n: nat): nat {
    if n == 0 then 1 else 2 * Power2(n - 1)
  }

  /** Exclusive or of the low `bits` bits. */
  function Xor(a: nat, b: nat, bits: nat): nat
    decreases a, b, bits
  {
    if bits == 0 then 0
    else (if a % 2 == b % 2 then 0 else 1) + 2 * Xor(a / 2, b / 2, bits - 1)
  }

  lemma {:induction false} XorSmall(a: nat, b: nat, bits: nat)
    ensures Xor(a, b, bits) < Power2(bits)
    decreases bits
  {
    if bits > 0 {
      XorSmall(a / 2, b / 2, bits - 1);
    }
  }

  /** Xoring twice with the same value changes nothing. */
  lemma {:induction false} XorTwice(a: nat, b: nat, bits: nat)
    requires a < Power2(bits)
    ensures Xor(Xor(a, b, bits), b, bits) == a
    decreases bits
  {
    if bits > 0 {
      XorTwice(a / 2, b / 2, bits - 1);
      var x := Xor(a, b, bits);
      assert x / 2 == Xor(a / 2, b / 2, bits - 1);
      assert x % 2 == if a % 2 == b % 2 then 0 else 1;
    }
  }

  lemma Power32()
    ensures Power2(32) == 0x1_0000_0000
  {
    assert Power2(8) == 256;
    assert Power2(16) == 0x1_0000;
    assert Power2(24) == 0x100_0000;
  }

  function Xor32(a: Uint32, b: Uint32): Uint32 {
    XorSmall(a, b, 32);
    Power32();
    Xor(a, b, 32)
  }

  lemma Xor32Twice(a: Uint32, b: Uint32)
    ensures Xor32(Xor32(a, b), b) == a
  {
    Power32();
    XorTwice(a, b, 32);
  }
}
