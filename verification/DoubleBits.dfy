/** Doubles taken apart and put together: gmp/dbl2mpn.c:30-108 and gmp/mpn2dbl.c:30-56, with 32-bit limbs. */
module DoubleBits {
  import opened Bits
  import opened Limbs
  import opened MpnDivOne
  import opened TwoPowers

  const FIELD0: int := 0x10_0000

  /** union ieee754_double. */
  datatype Ieee = Ieee(negative: bool, exponent: nat, mantissa0: nat, mantissa1: nat) {
    predicate Valid() { exponent < 2048 && mantissa0 < FIELD0 && mantissa1 < B }

    function Fraction(): nat { mantissa0 * B + mantissa1 }

    /** The magnitude that IEEE 754 gives to a finite number. */
    function Magnitude(): real
    {
      if exponent == 0 then Scaled(Fraction(), -1074) else Scaled(FIELD0 * B + Fraction(), exponent - 1075)
    }
  }

  /** Magnitudes in the words of IEEE 754: 1 + fraction for the exponent field 1023, twice as much for every exponent
      more, and for the exponent field 0 as for 1 but without the hidden one. */
  lemma MagnitudeMeans(u: Ieee)
    requires u.Valid()
    ensures u.exponent == 1023 ==> u.Magnitude() == 1.0 + u.Fraction() as real / 0x10_0000_0000_0000 as real
    ensures 1 <= u.exponent < 2046 ==> u.(exponent := u.exponent + 1).Magnitude() == 2.0 * u.Magnitude()
    ensures u.exponent == 0 ==>
              u.(exponent := 1).Magnitude() == u.Magnitude() + Ieee(false, 1, 0, 0).Magnitude()
  {
    if u.exponent == 1023 { FractionOver(u.Fraction()); }
    if 1 <= u.exponent < 2046 {
      DoubledScale(FIELD0 * B + u.Fraction(), u.exponent - 1075);
    }
    if u.exponent == 0 { ScaledSum(FIELD0 * B, u.Fraction(), -1074); }
    hide Scaled;
  }

  lemma FractionOver(f: nat)
    ensures Scaled(FIELD0 * B + f, -52) == 1.0 + f as real / 0x10_0000_0000_0000 as real
  {
    UnitIs();
    hide Two;
    Inverse(f as real, 0x10_0000_0000_0000 as real, Two(-52));
  }

  lemma UnitIs()
    ensures 0x10_0000_0000_0000 as real * Two(-52) == 1.0
  {
    hide Two;
    hide Pow2;
    TwoAdd(52, -52);
    TwoZero();
    TwoPow(52);
    Pow52();
  }

  lemma Pow52()
    ensures Pow2(52) == 0x10_0000_0000_0000
  {
    Pow2Values();
    Pow2Add(32, 16);
    Pow2Add(48, 1);
    Pow2Add(49, 3);
    hide Pow2;
  }

  lemma Inverse(f: real, p: real, t: real)
    requires p * t == 1.0 && p > 0.0
    ensures (p + f) * t == 1.0 + f / p
  {
    assert t == 1.0 / p;
  }

  lemma DoubledScale(m: nat, e: int)
    ensures Scaled(m, e + 1) == 2.0 * Scaled(m, e)
  {
    TwoNext(e);
    hide Two;
  }

  lemma ScaledSum(a: nat, b: nat, e: int)
    ensures Scaled(a + b, e) == Scaled(a, e) + Scaled(b, e)
  {
    hide Two;
  }

  /** The number that the two limbs make. */
  function Number(low: Limb, high: Limb): nat { high * B + low }

  // ----- Shifting across two limbs -----

  lemma PowersOfB(s: nat)
    requires s <= 32
    ensures Pow2(s) * Pow2(32 - s) == B
  {
    Pow2Add(s, 32 - s);
    Pow2Values();
  }

  /** The bits that a left shift by s puts out of a limb, and those that stay; p is 2^s and d is 2^(32 - s). */
  lemma ShiftParts(x: Limb, p: nat, d: nat)
    requires p * d == B && p >= 1 && d >= 1
    ensures x / d * B + x * p % B == x * p && x / d < p
  {
    var q, r := x / d, x % d;
    assert x == q * d + r;
    assert x * p == q * (p * d) + r * p;
    MulLt(r, d, p);
    QuotRem(x * p, q, r * p, B);
    if q >= p { MulLe(p, q, d); }
  }

  /** A left shift of two limbs: the high limb takes in what the low one puts out. */
  lemma ShiftBoth(low: Limb, high: Limb, p: nat, d: nat)
    requires p * d == B && p >= 1 && d >= 1
    ensures 0 <= low / d < p && (high * p + low / d) * B + low * p % B == (high * B + low) * p
  {
    ShiftParts(low, p, d);
    Spread(high, low, p, low / d, low * p % B);
  }

  lemma Spread(h: int, l: int, p: int, q: int, r: int)
    requires q * B + r == l * p
    ensures (h * p + q) * B + r == (h * B + l) * p
  {
  }

  lemma Room(x: int, p: int, d: int, b: int)
    requires p * d == b && x * p < b && p >= 1
    ensures (x + 1) * p <= b
  {
    if x >= d { MulLe(d, x, p); }
    MulLe(x + 1, d, p);
  }

  lemma Powers()
    ensures Pow2(11) == 2048 && Pow2(20) == FIELD0 && Pow2(21) == 2 * FIELD0
  {
    Pow2Add(8, 3);
    Pow2Values();
    Pow2Add(16, 4);
    assert Pow2(4) == 16;
    assert Pow2(21) == 2 * Pow2(20);
  }

  /** A high limb of a fraction, shifted so that its leading one comes to bit 20. */
  lemma Normalized(x: Limb, cnt: nat, p: nat)
    requires x > 0 && cnt <= 21 && p == Pow2(cnt) && B / 2 <= x * Pow2(cnt + 11) < B
    ensures FIELD0 <= x * p && (x + 1) * p <= 2 * FIELD0
  {
    Powers();
    Pow2Add(cnt, 11);
    Pow2Add(cnt, 21 - cnt);
    hide Pow2;
    assert x * Pow2(cnt + 11) == x * p * 2048 by { MulAssoc(x, p, 2048); }
    Room(x, p, Pow2(21 - cnt), 2 * FIELD0);
  }

  // ----- Unpacking -----

  /** DBL_MIN_EXP - 1 - shift. */
  function MinExponent(shift: int): int { -1022 - shift }

  /** Lines 72-85: a denormal number with bits in its high limb. */
  method DenormalHigh(low: Limb, high: Limb) returns (low': Limb, high': Limb, expt: int)
    requires 0 < high < FIELD0
    ensures FIELD0 * B <= Number(low', high') < 2 * FIELD0 * B
    ensures Scaled(Number(low', high'), expt - 52) == Scaled(Number(low, high), -1074) && -1042 <= expt <= -1023
  {
    hide Shl;
    hide Shr;
    hide BitOr;
    hide Scaled;
    hide Number;
    hide Pow2;
    var cnt := CountLeadingZeros(high);
    ghost var n := HighShifted(low, high, cnt);
    cnt := cnt - 11;
    high' := BitOr(Shl(high, cnt), Shr(low, 32 - cnt));
    low' := Shl(low, cnt);
    expt := MinExponent(cnt);
    NumberIs(low', high', n);
  }

  lemma NumberIs(low: Limb, high: Limb, n: int)
    requires n == high * B + low && FIELD0 <= high < 2 * FIELD0
    ensures Number(low, high) == n && FIELD0 * B <= n < 2 * FIELD0 * B
  {
  }

  lemma HighShifted(low: Limb, high: Limb, clz: nat) returns (n: int)
    requires 0 < high < FIELD0 && clz < 32 && B / 2 <= high * Pow2(clz) < B
    ensures 12 <= clz <= 31
    ensures var h := BitOr(Shl(high, clz - 11), Shr(low, 32 - (clz - 11)));
            FIELD0 <= h < 2 * FIELD0 && n == h * B + Shl(low, clz - 11)
    ensures Scaled(n, MinExponent(clz - 11) - 52) == Scaled(Number(low, high), -1074)
  {
    HighBitsFree(high, clz);
    var cnt := clz - 11;
    var p, d := Pow2(cnt), Pow2(32 - cnt);
    Normalized(high, cnt, p);
    PowersOfB(cnt);
    ScaledShift(Number(low, high), -1074, cnt);
    ShiftBoth(low, high, p, d);
    BitOrLow(high, low / d, cnt);
    TopFits(high, p, low / d);
    n := Number(low, high) * p;
    hide Scaled;
    hide Pow2;
    hide BitOr;
  }

  lemma TopFits(high: nat, p: nat, q: nat)
    requires FIELD0 <= high * p && (high + 1) * p <= 2 * FIELD0 && q < p
    ensures FIELD0 <= high * p + q < 2 * FIELD0 && high * p % B == high * p
  {
  }

  /** Lines 86-102: a denormal number with all its bits in the low limb. */
  method DenormalLow(low: Limb) returns (low': Limb, high': Limb, expt: int)
    requires 0 < low
    ensures FIELD0 * B <= Number(low', high') < 2 * FIELD0 * B
    ensures Scaled(Number(low', high'), expt - 52) == Scaled(low, -1074) && -1074 <= expt <= -1043
  {
    hide Shl;
    hide Shr;
    hide Scaled;
    hide Number;
    hide Pow2;
    var cnt := CountLeadingZeros(low);
    ghost var n := LowShifted(low, cnt);
    if cnt >= 11 {
      ShiftedUp(low, cnt);
      high' := Shl(low, cnt - 11);
      low' := 0;
    } else {
      Straddles(low, cnt);
      high' := Shr(low, 11 - cnt);
      low' := Shl(low, 32 - (11 - cnt));
    }
    expt := MinExponent(21 + cnt);
    LowNumber(low', high', n);
  }

  lemma LowShifted(x: Limb, cnt: nat) returns (n: int)
    requires cnt < 32 && B / 2 <= x * Pow2(cnt) < B
    ensures n == x * Pow2(cnt + 21) && FIELD0 * B <= n < 2 * FIELD0 * B
    ensures Scaled(n, MinExponent(21 + cnt) - 52) == Scaled(x, -1074)
  {
    ScaledShift(x, -1074, cnt + 21);
    LowNormalized(x, cnt);
    n := x * Pow2(cnt + 21);
    hide Pow2;
    hide Scaled;
  }

  lemma LowNumber(low: Limb, high: Limb, n: int)
    requires n == high * B + low
    ensures Number(low, high) == n
  {
  }

  lemma Straddles(x: Limb, cnt: nat)
    requires cnt < 11
    ensures Shr(x, 11 - cnt) < B && Shr(x, 11 - cnt) * B + Shl(x, 32 - (11 - cnt)) == x * Pow2(cnt + 21)
  {
    PowersOfB(cnt + 21);
    ShiftParts(x, Pow2(cnt + 21), Pow2(11 - cnt));
    Pow2Mono(cnt + 21, 31);
    Pow2Values();
    hide Pow2;
  }

  /** The limbs and the exponent make the number, with the leading one at bit 52 unless it is zero. */
  ghost predicate Extracted(u: Ieee, low: Limb, high: Limb, expt: int)
  {
    && (u.exponent < 2047 ==> Scaled(Number(low, high), expt - 52) == u.Magnitude())
    && (u.exponent == 0 && u.Fraction() == 0 ==> Number(low, high) == 0 && expt == 0)
    && (u.exponent != 0 || u.Fraction() != 0 ==> FIELD0 * B <= Number(low, high) < 2 * FIELD0 * B)
    && (u.exponent == 0 && u.Fraction() != 0 ==> -1074 <= expt <= -1023)
    && (u.exponent != 0 ==> low == u.mantissa1 && high == FIELD0 + u.mantissa0 && expt == u.exponent - 1023)
  }

  /** __mpn_extract_double: two limbs and an exponent for a finite number, with the leading one at bit 52. */
  method ExtractDouble(res: array<Limb>, u: Ieee) returns (size: nat, expt: int, isNeg: bool)
    requires res.Length >= 2 && u.Valid()
    modifies res
    ensures size == 2 && isNeg == u.negative && res[2..] == old(res[2..])
    ensures u.exponent < 2047 ==> Scaled(res[1] * B + res[0], expt - 52) == u.Magnitude()
    ensures u.exponent == 0 && u.mantissa0 == 0 && u.mantissa1 == 0 ==> res[0] == res[1] == 0 && expt == 0
    ensures u.exponent != 0 || u.mantissa0 != 0 || u.mantissa1 != 0 ==> 0x10_0000 <= res[1] < 0x20_0000
    ensures u.exponent != 0 ==> res[0] == u.mantissa1 && res[1] == 0x10_0000 + u.mantissa0 && expt == u.exponent - 1023
    ensures Extracted(u, res[0], res[1], expt)
  {
    hide Scaled;
    isNeg, size := u.negative, 2;
    expt := u.exponent - 1023;
    res[0], res[1] := u.mantissa1, u.mantissa0;
    if u.exponent == 0 {
      if res[0] == 0 && res[1] == 0 {
        expt := 0;
        NothingScaled(-52);
        NothingScaled(-1074);
      } else if res[1] != 0 {
        res[0], res[1], expt := DenormalHigh(res[0], res[1]);
      } else {
        res[0], res[1], expt := DenormalLow(res[0]);
      }
    } else {
      HiddenBit(res[1]);
      res[1] := BitOr(FIELD0, res[1]);
    }
  }

  lemma NothingScaled(e: int)
    ensures Scaled(0, e) == 0.0
  {
  }

  /** The upper twelve bits of the high limb are free. */
  lemma HighBitsFree(x: Limb, cnt: nat)
    requires 0 < x < FIELD0 && cnt < 32 && B / 2 <= x * Pow2(cnt)
    ensures 12 <= cnt <= 31
  {
    if cnt < 12 {
      Pow2Mono(cnt, 11);
      Powers();
      MulLe(Pow2(cnt), 2048, x);
    }
  }

  lemma HiddenBit(x: nat)
    requires x < FIELD0
    ensures BitOr(FIELD0, x) == FIELD0 + x
  {
    Powers();
    BitOrLow(1, x, 20);
  }

  lemma LowNormalized(x: Limb, cnt: nat)
    requires cnt < 32 && B / 2 <= x * Pow2(cnt) < B
    ensures FIELD0 * B <= x * Pow2(cnt + 21) < 2 * FIELD0 * B
  {
    Powers();
    Pow2Add(cnt, 21);
    hide Pow2;
    Widened(x, Pow2(cnt), Pow2(cnt + 21));
  }

  lemma Widened(x: nat, a: nat, c: nat)
    requires c == a * (2 * FIELD0) && B / 2 <= x * a < B
    ensures FIELD0 * B <= x * c < 2 * FIELD0 * B
  {
    assert x * c == x * a * (2 * FIELD0);
  }

  lemma ShiftedUp(x: Limb, cnt: nat)
    requires 11 <= cnt < 32 && x * Pow2(cnt) < B
    ensures Shl(x, cnt - 11) * B + 0 == x * Pow2(cnt + 21)
  {
    Powers();
    Pow2Add(cnt - 11, 11);
    Pow2Add(cnt, 21);
    ThreeShifts(x, Pow2(cnt - 11), Pow2(cnt), Pow2(cnt + 21));
    hide Pow2;
  }

  lemma ThreeShifts(x: nat, a: nat, b: nat, c: nat)
    requires b == a * 2048 && c == b * (2 * FIELD0) && x * b < B
    ensures 0 <= x * a < B && x * a * B == x * c
  {
    assert x * b == x * a * 2048;
    assert x * c == x * b * (2 * FIELD0);
  }

  // ----- Packing -----

  /** __mpn_construct_double: the mask keeps 21 bits, the field of the union 20 of them. */
  function Construct(low: Limb, high: Limb, expt: int, negative: bool): Ieee
  {
    Ieee(negative, (expt + 1023) % 2048, high % (2 * FIELD0) % FIELD0, low)
  }

  /** Putting together what was taken apart gives the number back exactly if it has a hidden bit: not for
      zero and not for the denormal numbers, whose exponents lie outside the field. */
  lemma ConstructExtracted(u: Ieee, low: Limb, high: Limb, expt: int)
    requires u.Valid() && Extracted(u, low, high, expt)
    ensures Construct(low, high, expt, u.negative) == u <==> u.exponent != 0
  {
    if u.exponent == 0 && u.Fraction() != 0 && expt == -1023 {
      ScaledDouble(u.Fraction(), -1074);
      SameScaled(Number(low, high), u.Fraction() * 2, -1075);
      hide Scaled;
      Doubled(u, low, high);
    }
    hide Scaled;
  }

  lemma SameScaled(m: int, n: int, e: int)
    requires Scaled(m, e) == Scaled(n, e)
    ensures m == n
  {
    hide Two;
    SameFactor(m as real, n as real, Two(e));
  }

  lemma SameFactor(x: real, y: real, c: real)
    requires c > 0.0 && x * c == y * c
    ensures x == y
  {
    assert (x - y) * c == 0.0;
  }

  /** Twice a fraction without its leading one is not the fraction. */
  lemma Doubled(u: Ieee, low: Limb, high: Limb)
    requires u.Valid() && Number(low, high) == u.Fraction() * 2 && FIELD0 * B <= Number(low, high) < 2 * FIELD0 * B
    ensures !(high % (2 * FIELD0) % FIELD0 == u.mantissa0 && low == u.mantissa1)
  {
  }

  /** Taking apart what was put together gives the limbs and the exponent back, for every number of 53 bits
      with an exponent in the normal range, and its value is the number's. */
  lemma ExtractConstructed(low: Limb, high: Limb, expt: int, negative: bool, low': Limb, high': Limb, expt': int)
    requires FIELD0 <= high < 2 * FIELD0 && -1022 <= expt <= 1023
    requires Extracted(Construct(low, high, expt, negative), low', high', expt')
    ensures low' == low && high' == high && expt' == expt
    ensures Construct(low, high, expt, negative).Magnitude() == Scaled(Number(low, high), expt - 52)
  {
    hide Scaled;
  }
}
