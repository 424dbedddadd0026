/** Half precision block scales: what the two bytes mean (binary16 of IEEE 754-2008, section 3.4), and what
    the bit assembly of f16_to_f32 in swamp-kernels/src/fused_gemv_q6k.rs makes of them. */
module HalfFloats {
  import opened QuantFormats

  function Pow2(e: int): (r: real)
    ensures r > 0.0
    decreases if e < 0 then -e else e
  {
    if e == 0 then 1.0 else if e > 0 then 2.0 * Pow2(e - 1) else Pow2(e + 1) / 2.0
  }

  /** Little-endian. */
  function Join(lo: Byte, hi: Byte): bv16 { ((hi as bv16) << 8) | (lo as bv16) }

  function Sign16(v: bv16): bv16 { v >> 15 }

  function Exponent16(v: bv16): bv16 { (v >> 10) & 0x1F }

  function Fraction16(v: bv16): bv16 { v & 0x3FF }

  /** Neither infinite nor not a number. */
  predicate Finite(lo: Byte, hi: Byte) { Exponent16(Join(lo, hi)) != 31 }

  /** Zero, or too small for the normal encoding. */
  predicate Subnormal(lo: Byte, hi: Byte) { Exponent16(Join(lo, hi)) == 0 }

  function Signed(negative: bool, magnitude: real): real { if negative then -magnitude else magnitude }

  /** A leading one and a fraction of `size` steps, times a power of two. */
  function Normal(e: int, fraction: int, size: int): real
    requires size > 0
  {
    Pow2(e) * (1.0 + (fraction as real) / (size as real))
  }

  /** A fraction without a leading one, at the least exponent. */
  function Tiny(fraction: int): real { Pow2(-14) * ((fraction as real) / 1024.0) }

  function Value16(v: bv16): real
    requires Exponent16(v) != 31
  {
    var e, m := Exponent16(v) as int, Fraction16(v) as int;
    Signed(Sign16(v) == 1, if e == 0 then Tiny(m) else Normal(e - 15, m, 1024))
  }

  /** The value of a finite binary16. */
  function HalfValue(lo: Byte, hi: Byte): real
    requires Finite(lo, hi)
  {
    Value16(Join(lo, hi))
  }

  /** A decoder that is right on every finite value, as the half crate's is. */
  ghost predicate IsHalf(half: Half) {
    forall lo: Byte, hi: Byte | Finite(lo, hi) :: half(lo, hi) == HalfValue(lo, hi)
  }

  // ---------------------------------------------------------------- binary32

  function Sign32(b: bv32): bv32 { b >> 31 }

  function Exponent32(b: bv32): bv32 { (b >> 23) & 0xFF }

  function Fraction32(b: bv32): bv32 { b & 0x7FFFFF }

  predicate IsNormal32(b: bv32) { 0 < Exponent32(b) < 255 }

  function NormalValue32(b: bv32): real
    requires IsNormal32(b)
  {
    Signed(Sign32(b) == 1, Normal(Exponent32(b) as int - 127, Fraction32(b) as int, 8388608))
  }

  // ---------------------------------------------------------------- the kernel's decoder

  /** The fields put together as f16_to_f32_raw does. Exponent 0 gets 1023 - 14 = 1009, the bias of another
      width, which does not fit the eight bits of its field and runs over into the sign. */
  function Assembled(sign: bv32, exp: bv32, mant: bv32): bv32 {
    if exp == 0 then (sign << 31) | (1009 << 23) | (mant << 13) else (sign << 31) | ((exp + 112) << 23) | (mant << 13)
  }

  function RawBits(v: bv16): bv32 { Assembled(Sign16(v) as bv32, Exponent16(v) as bv32, Fraction16(v) as bv32) }

  lemma FieldsOfAssembled(s: bv32, e: bv32, m: bv32)
    requires s < 2 && e < 32 && m < 1024
    ensures var b := Assembled(s, e, m);
            && Sign32(b) == (if e == 0 then 1 else s) && Exponent32(b) == (if e == 0 then 241 else e + 112)
            && Fraction32(b) == m << 13
  {
  }

  lemma FieldsAsNumbers(v: bv16)
    ensures Sign16(v) as bv32 < 2 && (Sign16(v) == 1 <==> Sign16(v) as bv32 == 1)
    ensures var e := Exponent16(v) as bv32; e < 32 && (e + 112) as int == Exponent16(v) as int + 112
    ensures Exponent16(v) as bv32 == 0 <==> Exponent16(v) == 0
    ensures var m := Fraction16(v) as bv32; m < 1024 && (m << 13) as int == Fraction16(v) as int * 8192
  {
  }

  /** The kernel's reading: the sign is kept and the exponent rebased unless it is 0, which becomes minus
      two to the 114 and beyond. */
  function KernelValue16(v: bv16): real {
    var e, m := Exponent16(v) as int, Fraction16(v) as int;
    if e == 0 then -Normal(114, m, 1024) else Signed(Sign16(v) == 1, Normal(e - 15, m, 1024))
  }

  /** Whatever the two bytes, the assembled bits are a normal number. */
  lemma RawIsNormal(v: bv16)
    ensures IsNormal32(RawBits(v)) && NormalValue32(RawBits(v)) == KernelValue16(v)
  {
    hide Pow2; hide Assembled; hide Sign16; hide Exponent16; hide Fraction16; hide Sign32; hide Exponent32;
    hide Fraction32; hide Normal;
    FieldsAsNumbers(v);
    FieldsOfAssembled(Sign16(v) as bv32, Exponent16(v) as bv32, Fraction16(v) as bv32);
    SameFraction(if Exponent16(v) == 0 then 114 else Exponent16(v) as int - 15, Fraction16(v) as int);
  }

  /** The fraction keeps its worth in the wider field. */
  lemma SameFraction(e: int, m: int)
    ensures Normal(e, m * 8192, 8388608) == Normal(e, m, 1024)
  {
  }

  /** f16_to_f32. */
  function KernelHalf(lo: Byte, hi: Byte): real {
    RawIsNormal(Join(lo, hi));
    NormalValue32(RawBits(Join(lo, hi)))
  }

  /** On finite values the kernel's decoder is right exactly for those that are not zero or subnormal. */
  lemma KernelHalfExactly(lo: Byte, hi: Byte)
    requires Finite(lo, hi)
    ensures KernelHalf(lo, hi) == HalfValue(lo, hi) <==> !Subnormal(lo, hi)
  {
    hide *;
    if Subnormal(lo, hi) {
      SubnormalMisread(lo, hi);
    } else {
      NormalRead(lo, hi);
    }
  }

  lemma NormalRead(lo: Byte, hi: Byte)
    requires Finite(lo, hi) && !Subnormal(lo, hi)
    ensures KernelHalf(lo, hi) == HalfValue(lo, hi)
  {
    hide RawBits; hide NormalValue32; hide IsNormal32; hide Join; hide Sign16; hide Exponent16; hide Fraction16;
    hide Normal; hide Tiny;
    RawIsNormal(Join(lo, hi));
  }

  lemma SubnormalMisread(lo: Byte, hi: Byte)
    requires Finite(lo, hi) && Subnormal(lo, hi)
    ensures KernelHalf(lo, hi) < HalfValue(lo, hi)
  {
    hide RawBits; hide NormalValue32; hide IsNormal32; hide Join; hide Sign16; hide Exponent16; hide Fraction16;
    hide Normal; hide Tiny;
    var v := Join(lo, hi);
    RawIsNormal(v);
    FractionBelow(v);
    TooLarge(Fraction16(v) as int);
  }

  lemma FractionBelow(v: bv16)
    ensures Fraction16(v) as int < 1024
  {
  }

  lemma TooLarge(m: int)
    requires 0 <= m < 1024
    ensures -Normal(114, m, 1024) < -Tiny(m) <= Tiny(m)
  {
    hide Pow2;
    Pow2Grows(-14, 114);
    var f := (m as real) / 1024.0;
    MulLess(f, Pow2(-14), Pow2(114));
  }

  lemma MulLess(f: real, small: real, large: real)
    requires 0.0 <= f < 1.0 && 0.0 < small < large
    ensures -(large * (1.0 + f)) < -(small * f) <= small * f
  {
    assert large * (1.0 + f) == large + large * f;
    assert small * f <= small * 1.0;
  }

  lemma {:induction false} Pow2Grows(a: int, b: int)
    requires a < b
    ensures Pow2(a) < Pow2(b)
    decreases b - a
  {
    assert Pow2(b) == 2.0 * Pow2(b - 1);
    if a < b - 1 {
      Pow2Grows(a, b - 1);
    }
  }

  /** Two zero bytes: the value is zero, the kernel reads minus two to the 114. */
  lemma ZeroIsHuge()
    ensures Finite(0, 0) && HalfValue(0, 0) == 0.0 && KernelHalf(0, 0) == -Pow2(114)
  {
    hide Pow2;
    RawIsNormal(0);
  }

  /** Infinity comes out as two to the 16. */
  lemma InfinityIsFinite()
    ensures !Finite(0x00, 0x7C) && KernelHalf(0x00, 0x7C) == 65536.0
  {
    RawIsNormal(0x7C00);
    assert Pow2(16) == 65536.0 by {
      assert Pow2(4) == 16.0;
      assert Pow2(8) == 256.0;
      assert Pow2(12) == 4096.0;
    }
  }

  // ---------------------------------------------------------------- both formats, value by value

  /** Powers of two by their law: each is twice the one before, from 1 at exponent 0. */
  lemma Pow2Law(e: int)
    ensures Pow2(0) == 1.0 && Pow2(e + 1) == 2.0 * Pow2(e)
  {
  }

  /** The fields by the numbers of the two bytes: the second byte holds the sign, five bits of exponent and two
      of fraction. */
  lemma FieldsOfBytes(lo: Byte, hi: Byte)
    ensures Sign16(Join(lo, hi)) == 1 <==> hi >= 128
    ensures Exponent16(Join(lo, hi)) as int == ((hi % 128) / 4) as int
    ensures Fraction16(Join(lo, hi)) as int == 256 * (hi % 4) as int + lo as int
  {
  }

  lemma FiveMore(e: int)
    ensures Pow2(e + 5) == 32.0 * Pow2(e)
  {
    hide Pow2;
    Pow2Law(e);
    Pow2Law(e + 1);
    Pow2Law(e + 2);
    Pow2Law(e + 3);
    Pow2Law(e + 4);
  }

  lemma TenMore(e: int)
    ensures Pow2(e + 10) == 1024.0 * Pow2(e)
  {
    hide Pow2;
    FiveMore(e);
    FiveMore(e + 5);
  }

  /** Both readings of a fraction, over the weight of its last bit. */
  lemma LastBits(e: int, f: int)
    ensures Normal(e + 10, f, 1024) == Pow2(e) * (1024.0 + f as real) && Tiny(f) == Pow2(-24) * (f as real)
  {
    hide Pow2;
    TenMore(e);
    TenMore(-24);
  }

  /** The number that the fields of a binary16 stand for: sign, exponent and fraction. */
  function Plain16(negative: bool, e: int, f: int): real {
    var m := if e == 0 then Pow2(-24) * (f as real) else Pow2(e - 25) * (1024.0 + f as real);
    if negative then -m else m
  }

  lemma PlainIs(negative: bool, e: int, f: int)
    ensures Signed(negative, if e == 0 then Tiny(f) else Normal(e - 15, f, 1024)) == Plain16(negative, e, f)
    ensures -Normal(114, f, 1024) == Plain16(true, 129, f)
  {
    hide Pow2; hide Normal; hide Tiny;
    LastBits(e - 25, f);
    LastBits(104, f);
  }

  lemma AsNumber(b: bv16)
    ensures (b == 31 <==> b as int == 31) && (b == 0 <==> b as int == 0)
  {
  }

  lemma ValueOfFields(v: bv16, negative: bool, e: int, f: int)
    requires (Sign16(v) == 1 <==> negative) && e == Exponent16(v) as int && f == Fraction16(v) as int
    ensures Exponent16(v) == 31 <==> e == 31
    ensures e != 31 ==> Value16(v) == Plain16(negative, e, f)
    ensures KernelValue16(v) == if e == 0 then Plain16(true, 129, f) else Plain16(negative, e, f)
  {
    hide Sign16; hide Exponent16; hide Fraction16; hide Normal; hide Tiny; hide Plain16; hide Signed;
    AsNumber(Exponent16(v));
    PlainIs(negative, e, f);
  }

  /** A finite binary16 from its bytes, by section 3.4 of IEEE 754-2008, and what the kernel reads from any two
      bytes, the infinite ones included. */
  lemma HalfByBytes(lo: Byte, hi: Byte)
    ensures var e, f := ((hi % 128) / 4) as int, 256 * ((hi % 4) as int) + lo as int;
            && (Finite(lo, hi) <==> e != 31)
            && (e != 31 ==> HalfValue(lo, hi) == Plain16(hi >= 128, e, f))
            && KernelHalf(lo, hi) == (if e == 0 then Plain16(true, 129, f) else Plain16(hi >= 128, e, f))
  {
    hide Pow2; hide Join; hide Sign16; hide Exponent16; hide Fraction16; hide Value16; hide KernelValue16;
    hide Plain16; hide RawBits; hide NormalValue32; hide IsNormal32;
    FieldsOfBytes(lo, hi);
    RawIsNormal(Join(lo, hi));
    ValueOfFields(Join(lo, hi), hi >= 128, ((hi % 128) / 4) as int, 256 * ((hi % 4) as int) + lo as int);
  }

  /** One and a half, minus two, the largest finite value and the least above zero. */
  lemma SomeHalves()
    ensures Finite(0x00, 0x3E) && HalfValue(0x00, 0x3E) == 1.5
    ensures Finite(0x00, 0xC0) && HalfValue(0x00, 0xC0) == -2.0
    ensures Finite(0xFF, 0x7B) && HalfValue(0xFF, 0x7B) == 65504.0
    ensures Finite(0x01, 0x00) && HalfValue(0x01, 0x00) == 1.0 / 16777216.0
  {
    hide HalfValue; hide Finite;
    HalfByBytes(0x00, 0x3E);
    HalfByBytes(0x00, 0xC0);
    HalfByBytes(0xFF, 0x7B);
    HalfByBytes(0x01, 0x00);
    assert Pow2(-4) == 1.0 / 16.0;
    assert Pow2(-8) == 1.0 / 256.0;
    Powers();
  }

  lemma Powers()
    ensures Pow2(-24) == 1.0 / 16777216.0 && Pow2(-10) == 1.0 / 1024.0 && Pow2(-9) == 1.0 / 512.0 && Pow2(5) == 32.0
  {
    TenMore(-24);
    TenMore(-14);
    TenMore(-10);
  }
}
