/** Bytes, big-endian integers and two's complement. */
module Octets {
  type Byte = x: int | 0 <= x < 256
  type Bytes = seq<Byte>

  const TWO_8: int := 0x100
  const TWO_16: int := 0x1_0000
  const TWO_31: int := 0x8000_0000
  const TWO_32: int := 0x1_0000_0000
  const TWO_63: int := 0x8000_0000_0000_0000
  const TWO_64: int := 0x1_0000_0000_0000_0000
  const MAX_I32: int := 0x7fff_ffff

  type U32 = x: int | 0 <= x < 0x1_0000_0000

  predicate IsI16(x: int) { -0x8000 <= x < 0x8000 }
  predicate IsI32(x: int) { -TWO_31 <= x < TWO_31 }
  predicate IsI64(x: int) { -TWO_63 <= x < TWO_63 }

  // ----- Big-endian

  function BeValue(bs: Bytes): nat {
    if bs == [] then 0 else BeValue(bs[..|bs| - 1]) * 256 + bs[|bs| - 1]
  }

  function BeBytes(n: nat, k: nat): (bs: Bytes)
    ensures |bs| == k
  {
    if k == 0 then [] else BeBytes(n / 256, k - 1) + [n % 256]
  }

  function Pow256(k: nat): (p: nat)
    ensures p > 0
  {
    if k == 0 then 1 else 256 * Pow256(k - 1)
  }

  lemma {:induction false} BeRoundTrip(n: nat, k: nat)
    requires n < Pow256(k)
    ensures BeValue(BeBytes(n, k)) == n
  {
    if k > 0 {
      BeRoundTrip(n / 256, k - 1);
      var bs := BeBytes(n, k);
      assert bs[..k - 1] == BeBytes(n / 256, k - 1);
    }
  }

  lemma {:induction false} BeValueIsBounded(bs: Bytes)
    ensures BeValue(bs) < Pow256(|bs|)
  {
    if bs != [] {
      BeValueIsBounded(bs[..|bs| - 1]);
    }
  }

  lemma PowersOf256()
    ensures Pow256(1) == TWO_8 && Pow256(2) == TWO_16 && Pow256(4) == TWO_32 && Pow256(8) == TWO_64
  {
    assert Pow256(3) == 0x100_0000;
    assert Pow256(5) == 0x100_0000_0000;
    assert Pow256(6) == 0x1_0000_0000_0000;
    assert Pow256(7) == 0x100_0000_0000_0000;
  }

  // ----- Two's complement in a modulus of 2^width

  function Unsigned(x: int, modulus: int): int {
    if x < 0 then x + modulus else x
  }

  function Signed(n: int, modulus: int): int {
    if 2 * n >= modulus then n - modulus else n
  }

  // A signed integer of `width` bytes.
  function IntBytes(x: int, width: nat, modulus: int): (bs: Bytes)
    requires modulus == Pow256(width) && -modulus <= 2 * x < modulus
    ensures |bs| == width
  {
    BeBytes(Unsigned(x, modulus), width)
  }

  function IntValue(bs: Bytes, modulus: int): int {
    Signed(BeValue(bs), modulus)
  }

  lemma IntRoundTrip(x: int, width: nat, modulus: int)
    requires modulus == Pow256(width) && -modulus <= 2 * x < modulus
    ensures IntValue(IntBytes(x, width, modulus), modulus) == x
  {
    BeRoundTrip(Unsigned(x, modulus), width);
  }

  function I16Bytes(x: int): (bs: Bytes)
    requires IsI16(x)
    ensures |bs| == 2 && I16Value(bs) == x
  {
    PowersOf256();
    IntRoundTrip(x, 2, TWO_16);
    IntBytes(x, 2, TWO_16)
  }

  function I32Bytes(x: int): (bs: Bytes)
    requires IsI32(x)
    ensures |bs| == 4 && I32Value(bs) == x
  {
    PowersOf256();
    IntRoundTrip(x, 4, TWO_32);
    IntBytes(x, 4, TWO_32)
  }

  function I64Bytes(x: int): (bs: Bytes)
    requires IsI64(x)
    ensures |bs| == 8 && I64Value(bs) == x
  {
    PowersOf256();
    IntRoundTrip(x, 8, TWO_64);
    IntBytes(x, 8, TWO_64)
  }

  function U32Bytes(x: U32): (bs: Bytes)
    ensures |bs| == 4 && U32Value(bs) == x
  {
    PowersOf256();
    BeRoundTrip(x, 4);
    BeBytes(x, 4)
  }

  function I16Value(bs: Bytes): (x: int)
    requires |bs| == 2
    ensures IsI16(x)
  {
    PowersOf256();
    BeValueIsBounded(bs);
    IntValue(bs, TWO_16)
  }

  function I32Value(bs: Bytes): (x: int)
    requires |bs| == 4
    ensures IsI32(x)
  {
    PowersOf256();
    BeValueIsBounded(bs);
    IntValue(bs, TWO_32)
  }

  function I64Value(bs: Bytes): (x: int)
    requires |bs| == 8
    ensures IsI64(x)
  {
    PowersOf256();
    BeValueIsBounded(bs);
    IntValue(bs, TWO_64)
  }

  function U32Value(bs: Bytes): (x: U32)
    requires |bs| == 4
  {
    PowersOf256();
    BeValueIsBounded(bs);
    BeValue(bs)
  }

  // ----- Wrapping arithmetic

  function WrapI32(x: int): (r: int)
    ensures IsI32(r) && (r - x) % TWO_32 == 0
    ensures IsI32(x) ==> r == x
  {
    (x + TWO_31) % TWO_32 - TWO_31
  }

  function WrapI64(x: int): (r: int)
    ensures IsI64(r) && (r - x) % TWO_64 == 0
    ensures IsI64(x) ==> r == x
  {
    (x + TWO_63) % TWO_64 - TWO_63
  }

  lemma WrapIsUnique32(x: int, y: int)
    requires (x - y) % TWO_32 == 0
    ensures WrapI32(x) == WrapI32(y)
  {
  }

  lemma WrapIsUnique64(x: int, y: int)
    requires (x - y) % TWO_64 == 0
    ensures WrapI64(x) == WrapI64(y)
  {
  }
}
