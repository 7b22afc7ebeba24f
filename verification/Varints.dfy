/** The zigzag base-128 integers of the record format. */
module Varints {
  import opened Text
  import opened Octets

  datatype Parsed<+T> = Parsed(value: T, rest: Bytes)

  // ----- Unsigned

  function EncodeUnsigned(v: nat): (bs: Bytes)
    ensures |bs| > 0
    decreases v
  {
    if v >= 0x80 then [v % 0x80 + 0x80] + EncodeUnsigned(v / 0x80) else [v]
  }

  function Pow128(k: nat): (p: nat)
    ensures p > 0
  {
    if k == 0 then 1 else 128 * Pow128(k - 1)
  }

  // At most `limit` bytes are read; bits beyond the width are shifted out.
  function DecodeUnsignedFrom(buf: Bytes, i: nat, acc: nat, limit: nat, modulus: nat): (r: Option<Parsed<nat>>)
    requires i <= limit && modulus > 0
    ensures r.Some? ==> |r.value.rest| <= |buf|
    decreases limit - i
  {
    if i == limit then Some(Parsed(acc, buf))
    else if buf == [] then None
    else
      var b := buf[0];
      var next := acc + (b % 0x80) * Pow128(i) % modulus;
      if b < 0x80 then Some(Parsed(next, buf[1..]))
      else DecodeUnsignedFrom(buf[1..], i + 1, next, limit, modulus)
  }

  lemma SplitLow(v: nat, p: nat)
    ensures v * p == (v % 0x80) * p + (v / 0x80) * (128 * p)
    ensures (v % 0x80) * p <= v * p
  {
    var low, high := v % 0x80, v / 0x80;
    assert v == low + high * 128;
    calc {
      v * p;
      (low + high * 128) * p;
      low * p + high * 128 * p;
      low * p + high * (128 * p);
    }
  }

  // `v` with its lowest bits where the `i`-th byte goes.
  function Scaled(v: nat, i: nat): nat {
    v * Pow128(i)
  }

  lemma DecodeOneByte(b: Byte, tail: Bytes, i: nat, acc: nat, limit: nat, modulus: nat)
    requires i < limit && modulus > 0 && Scaled(b % 0x80, i) < modulus
    ensures var next := acc + Scaled(b % 0x80, i);
            DecodeUnsignedFrom([b] + tail, i, acc, limit, modulus)
            == if b < 0x80 then Some(Parsed(next, tail)) else DecodeUnsignedFrom(tail, i + 1, next, limit, modulus)
  {
    var buf := [b] + tail;
    assert buf[0] == b && buf[1..] == tail;
    SmallMod((b % 0x80) * Pow128(i), modulus);
  }

  lemma SmallMod(x: nat, modulus: nat)
    requires x < modulus
    ensures x % modulus == x
  {
  }

  // What is left of the number after its low seven bits fits where the next byte goes.
  lemma HighFits(v: nat, i: nat, limit: nat, modulus: nat)
    requires i < limit && v < Pow128(limit - i) && Scaled(v, i) < modulus
    ensures Scaled(v, i) == Scaled(v % 0x80, i) + Scaled(v / 0x80, i + 1)
    ensures v >= 0x80 ==> i + 1 < limit && v / 0x80 < Pow128(limit - (i + 1))
  {
    var p := Pow128(i);
    SplitLow(v, p);
    assert Pow128(i + 1) == 128 * p && Pow128(limit - i) == 128 * Pow128(limit - i - 1) && Pow128(0) == 1;
  }

  lemma EncodedFront(v: nat, rest: Bytes)
    requires v >= 0x80
    ensures EncodeUnsigned(v) + rest == [v % 0x80 + 0x80] + (EncodeUnsigned(v / 0x80) + rest)
  {
  }

  lemma {:induction false} UnsignedRoundTrip(v: nat, rest: Bytes, i: nat, acc: nat, limit: nat, modulus: nat)
    requires i < limit && modulus > 0 && v < Pow128(limit - i) && Scaled(v, i) < modulus
    ensures DecodeUnsignedFrom(EncodeUnsigned(v) + rest, i, acc, limit, modulus)
            == Some(Parsed(acc + Scaled(v, i), rest))
    decreases v
  {
    hide DecodeUnsignedFrom, Pow128, Scaled;
    if v >= 0x80 {
      hide EncodeUnsigned;
      var low, high := v % 0x80, v / 0x80;
      var b: Byte := low + 0x80;
      HighFits(v, i, limit, modulus);
      EncodedFront(v, rest);
      assert b % 0x80 == low;
      DecodeOneByte(b, EncodeUnsigned(high) + rest, i, acc, limit, modulus);
      UnsignedRoundTrip(high, rest, i + 1, acc + Scaled(low, i), limit, modulus);
    } else {
      assert v % 0x80 == v;
      DecodeOneByte(v, rest, i, acc, limit, modulus);
    }
  }

  lemma {:induction false} UnsignedLength(v: nat, k: nat)
    requires k > 0 && v < Pow128(k) && (k > 1 ==> Pow128(k - 1) <= v)
    ensures |EncodeUnsigned(v)| == k
    decreases v
  {
    if k > 1 {
      assert Pow128(k) == 128 * Pow128(k - 1);
      assert Pow128(k - 1) == 128 * Pow128(k - 2);
      UnsignedLength(v / 0x80, k - 1);
    }
  }

  lemma Powers128()
    ensures Pow128(1) == 0x80 && Pow128(2) == 0x4000 && Pow128(3) == 0x20_0000 && Pow128(4) == 0x1000_0000
    ensures Pow128(5) == 0x8_0000_0000 && Pow128(6) == 0x400_0000_0000 && Pow128(7) == 0x2_0000_0000_0000
    ensures Pow128(8) == 0x100_0000_0000_0000 && Pow128(9) == 0x8000_0000_0000_0000
    ensures Pow128(10) == 0x40_0000_0000_0000_0000
  {
    assert Pow128(2) == 128 * Pow128(1);
    assert Pow128(3) == 128 * Pow128(2);
    assert Pow128(4) == 128 * Pow128(3);
    assert Pow128(5) == 128 * Pow128(4);
    assert Pow128(6) == 128 * Pow128(5);
    assert Pow128(7) == 128 * Pow128(6);
    assert Pow128(8) == 128 * Pow128(7);
    assert Pow128(9) == 128 * Pow128(8);
  }

  // ----- Zigzag

  function Zigzag(x: int): nat {
    if x >= 0 then 2 * x else -2 * x - 1
  }

  function Unzigzag(z: nat): int {
    if z % 2 == 0 then z / 2 else -(z / 2) - 1
  }

  lemma ZigzagRoundTrip(x: int)
    ensures Unzigzag(Zigzag(x)) == x
  {
  }

  // ----- VarInt and VarLong

  function VarIntBytes(x: int): (bs: Bytes)
    requires IsI32(x)
    ensures |bs| > 0
  {
    EncodeUnsigned(Zigzag(x))
  }

  function VarLongBytes(x: int): (bs: Bytes)
    requires IsI64(x)
    ensures |bs| > 0
  {
    EncodeUnsigned(Zigzag(x))
  }

  function ReadVarInt(buf: Bytes): (r: Option<Parsed<int>>)
    ensures r.Some? ==> |r.value.rest| <= |buf|
  {
    match DecodeUnsignedFrom(buf, 0, 0, 5, TWO_32)
    case None => None
    case Some(p) => Some(Parsed(Unzigzag(p.value), p.rest))
  }

  function ReadVarLong(buf: Bytes): (r: Option<Parsed<int>>)
    ensures r.Some? ==> |r.value.rest| <= |buf|
  {
    match DecodeUnsignedFrom(buf, 0, 0, 10, TWO_64)
    case None => None
    case Some(p) => Some(Parsed(Unzigzag(p.value), p.rest))
  }

  lemma VarIntRoundTrip(x: int, rest: Bytes)
    requires IsI32(x)
    ensures ReadVarInt(VarIntBytes(x) + rest) == Some(Parsed(x, rest))
  {
    Powers128();
    UnsignedRoundTrip(Zigzag(x), rest, 0, 0, 5, TWO_32);
    ZigzagRoundTrip(x);
  }

  lemma VarLongRoundTrip(x: int, rest: Bytes)
    requires IsI64(x)
    ensures ReadVarLong(VarLongBytes(x) + rest) == Some(Parsed(x, rest))
  {
    Powers128();
    UnsignedRoundTrip(Zigzag(x), rest, 0, 0, 10, TWO_64);
    ZigzagRoundTrip(x);
  }

  // ----- Sizes, as the encoder looks them up in a table

  function UnsignedSize(v: nat): nat
    requires v < TWO_64
  {
    if v <= 0x7f then 1
    else if v <= 0x3fff then 2
    else if v <= 0x1f_ffff then 3
    else if v <= 0xfff_ffff then 4
    else if v <= 0x7_ffff_ffff then 5
    else if v <= 0x3ff_ffff_ffff then 6
    else if v <= 0x1_ffff_ffff_ffff then 7
    else if v <= 0xff_ffff_ffff_ffff then 8
    else if v <= 0x7fff_ffff_ffff_ffff then 9
    else 10
  }

  lemma SizeIsLength(x: int)
    requires IsI64(x)
    ensures UnsignedSize(Zigzag(x)) == |EncodeUnsigned(Zigzag(x))|
  {
    Powers128();
    UnsignedLength(Zigzag(x), UnsignedSize(Zigzag(x)));
  }
}
