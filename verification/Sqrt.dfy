/** `sqrt`, gmp/support.c:271-334, in doubles.

Every floating-point operation is a use of Fl, which demands that the exact result be a double, so that
rounding never happens where the program does not count on it. */
module Sqrt {
  import opened Bits
  import opened SqrtCore
  import opened Limbs
  import opened TwoPowers

  // ----- Doubles as real numbers -----

  const P53: int := 0x20_0000_0000_0000

  /** A number with 53 significant bits; the range of exponents is never in question here. */
  ghost predicate Representable(v: real)
  {
    exists m: int, e: int :: -P53 <= m <= P53 && v == Scaled(m, e)
  }

  /** An operation whose exact result is representable yields it, whatever the rounding mode. */
  function Fl(v: real): real
    requires Representable(v)
  {
    v
  }

  lemma IsRepresentable(v: real, m: int, e: int)
    requires -P53 <= m <= P53 && v == m as real * Two(e)
    ensures Representable(v)
  {
    assert v == Scaled(m, e);
  }

  lemma IntRepresentable(m: int)
    requires -P53 <= m <= P53
    ensures Representable(m as real) && Representable(2.0 * m as real) && Representable(4.0 * m as real)
  {
    assert Two(1) == 2.0 && Two(2) == 4.0;
    IsRepresentable(m as real, m, 0);
    IsRepresentable(2.0 * m as real, m, 1);
    IsRepresentable(4.0 * m as real, m, 2);
  }

  lemma Quadruple(v: real)
    requires Representable(v)
    ensures Representable(v * 4.0)
  {
    hide Two;
    var m, e :| -P53 <= m <= P53 && v == Scaled(m, e);
    ScaledQuadruple(m, e);
    ScaledRepresentable(m, e + 2);
  }

  lemma ScaledQuadruple(m: int, e: int)
    ensures Scaled(m, e + 2) == Scaled(m, e) * 4.0
  {
    TwoNext(e);
    TwoNext(e + 1);
    hide Two;
    FourFold(m as real, Two(e), Two(e + 2));
  }

  lemma FourFold(x: real, y: real, z: real)
    requires z == 4.0 * y
    ensures x * z == x * y * 4.0
  {
  }

  // ----- The residual is a double at every step -----

  /** M / 2^52 is a double in [1, 4). */
  predicate Argument(m: nat) { C52 <= m < 4 * C52 && (m >= 2 * C52 ==> m % 2 == 0) }

  lemma Factored(y: int, n: int, k: nat)
    requires y == n * Pow2(k) && 0 <= n <= P53
    ensures Representable(y as real / C52 as real)
  {
    C52Is();
    TwoPow(52);
    TwoPow(k);
    TwoAdd(k - 52, 52);
    hide Pow2;
    hide Two;
    Quotient(n as real, Two(k), Two(k - 52), Two(52));
    IsRepresentable(y as real / C52 as real, n, k - 52);
  }

  lemma Quotient(n: real, a: real, b: real, c: real)
    requires c > 0.0 && a == b * c
    ensures n * a / c == n * b
  {
    assert n * a == n * b * c;
  }

  lemma RootBelow(i: nat, m: nat, q: nat, y: int)
    requires Digits(i, m, q, y)
    ensures y < Pow2(i + 2) * C52
  {
    assert Pow2(i + 2) == 4 * Pow2(i);
    assert (2 * q + 1) * C52 <= Pow2(i + 2) * C52;
  }

  lemma CancelPow(n: int, k: nat, l: nat)
    requires n * Pow2(k) < Pow2(k + l)
    ensures n < Pow2(l)
  {
    Pow2Add(k, l);
    if n >= Pow2(l) { MulLe(Pow2(l), n, Pow2(k)); }
  }

  /** Of the residual's digits none lie below 2^-52 (i is small) or below 1 (i is large). */
  lemma ResidualRepresentable(i: nat, m: nat, q: nat, y: int)
    requires Argument(m) && i <= 51 && Digits(i, m, q, y)
    ensures Representable(y as real / C52 as real)
  {
    assert Pow2(0) == 1;
    if i == 0 {
      assert q == 1;
      if m < 2 * C52 { Factored(y, y, 0); } else { assert Pow2(1) == 2; Factored(y, y / 2, 1); }
    } else {
      RootBelow(i, m, q, y);
      C52Is();
      if i <= 26 {
        EarlyRepresentable(i, m, q, y);
      } else {
        LateRepresentable(i, m, q, y);
      }
    }
  }

  lemma P53Is()
    ensures P53 == Pow2(53)
  {
    C52Is();
    assert Pow2(53) == 2 * Pow2(52);
  }

  lemma EarlyRepresentable(i: nat, m: nat, q: nat, y: int)
    requires 1 <= i <= 26 && Digits(i, m, q, y) && y < Pow2(i + 2) * C52 && C52 == Pow2(52)
    ensures Representable(y as real / C52 as real)
  {
    hide Pow2;
    P53Is();
    var n := m - q * q * Pow2(52 - 2 * i);
    Pow2Add(2 * i, 52 - 2 * i);
    Pow2Add(i + 2, 52);
    EarlyFactor(m, q * q, Pow2(2 * i), Pow2(52 - 2 * i));
    CancelPow(n, 2 * i, 54 - i);
    Pow2Mono(54 - i, 53);
    NonNegative(n, Pow2(2 * i));
    Factored(y, n, 2 * i);
  }

  lemma EarlyFactor(m: int, s: int, a: int, b: int)
    ensures m * a - s * (a * b) == (m - s * b) * a
  {
  }

  lemma NonNegative(n: int, p: int)
    requires p > 0 && n * p >= 0
    ensures n >= 0
  {
  }

  lemma Below(n: int, p: int, c: int)
    requires c > 0 && n * c < p * c
    ensures n < p
  {
    if n >= p { MulLe(p, n, c); }
  }

  /** From digit 26 on the residual is an integer. */
  lemma LateFactor(i: nat, m: nat, q: nat, y: int)
    requires i >= 26 && Digits(i, m, q, y)
    ensures y == (m * Pow2(2 * i - 52) - q * q) * C52
  {
    C52Is();
    Pow2Add(2 * i - 52, 52);
    hide Pow2;
    EarlyFactor(m, q * q, Pow2(2 * i - 52), 1);
    assert m * (Pow2(2 * i - 52) * C52) == m * Pow2(2 * i - 52) * C52;
  }

  lemma LateRepresentable(i: nat, m: nat, q: nat, y: int)
    requires 26 <= i <= 51 && Digits(i, m, q, y) && y < Pow2(i + 2) * C52 && C52 == Pow2(52)
    ensures Representable(y as real / C52 as real)
  {
    P53Is();
    LateFactor(i, m, q, y);
    var n := m * Pow2(2 * i - 52) - q * q;
    Pow2Mono(i + 2, 53);
    hide Pow2;
    Below(n, Pow2(i + 2), C52);
    NonNegative(n, C52);
    Factored(y, n, 52);
  }

  // ----- The loop -----

  function OverC52(y: int): real { y as real / C52 as real }

  /** The variables after i digits: q is the root, s four times its digits, x the residual, r the last digit's worth. */
  ghost predicate Holds(i: nat, m: nat, q: real, s: real, x: real, r: real)
  {
    var n := DigitsOf(i, m);
    && Digits(i, m, n, Residual(i, m, n))
    && q == Scaled(n, 0 - i) && s == (4 * n) as real && x == OverC52(Residual(i, m, n)) && r == Two(0 - i)
  }

  lemma Compare(a: int, y: int)
    ensures a as real <= OverC52(y) <==> a * C52 <= y
    ensures OverC52(y) - a as real == OverC52(y - a * C52)
    ensures OverC52(4 * y) == OverC52(y) * 4.0
  {
  }

  lemma RootSmall(i: nat, m: nat, n: nat, y: int, k: nat)
    requires Digits(i, m, n, y) && i + 1 <= k
    ensures 1 <= n < Pow2(k) && Pow2(i) <= n
  {
    Pow2Mono(i + 1, k);
  }

  lemma PowersNear()
    ensures 4 * Pow2(51) == P53 && 2 * Pow2(52) == P53
  {
    P53Is();
    assert Pow2(53) == 2 * Pow2(52) && Pow2(52) == 2 * Pow2(51);
    hide Pow2;
  }

  lemma StepRepresentable(i: nat, m: nat, n: nat, y: int)
    requires i <= 50 && Digits(i, m, n, y)
    ensures Representable((4 * n + 1) as real) && Representable((8 * n + 2) as real)
    ensures Representable((8 * n + 4) as real) && Representable((8 * n) as real)
    ensures 1 <= n && 2 * n + 1 <= P53
  {
    PowersNear();
    RootSmall(i, m, n, y, 51);
    hide *;
    IntRepresentable(4 * n + 1);
    IntRepresentable(2 * n + 1);
    IntRepresentable(2 * n);
    assert 2.0 * (4 * n + 1) as real == (8 * n + 2) as real;
    assert 4.0 * (2 * n + 1) as real == (8 * n + 4) as real;
    assert 4.0 * (2 * n) as real == (8 * n) as real;
  }

  lemma DigitRepresentable(i: nat, n: nat)
    requires 2 * n + 1 <= P53
    ensures Representable(Two(-1 - i)) && Two(0 - i) / 2.0 == Two(-1 - i)
    ensures Scaled(n, 0 - i) == Scaled(2 * n, -1 - i)
    ensures Scaled(n, 0 - i) + Two(-1 - i) == Scaled(2 * n + 1, -1 - i) && Representable(Scaled(2 * n + 1, -1 - i))
  {
    TwoNext(-1 - i);
    hide Two;
    IsRepresentable(Two(-1 - i), 1, -1 - i);
    IsRepresentable(Scaled(2 * n + 1, -1 - i), 2 * n + 1, -1 - i);
    Halves(n as real, Two(-1 - i));
  }

  lemma Halves(n: real, d: real)
    ensures n * (2.0 * d) == 2.0 * n * d && n * (2.0 * d) + d == (2.0 * n + 1.0) * d
  {
  }

  lemma ResidualSteps(i: nat, m: nat, n: nat, y: int)
    requires Argument(m) && i <= 50 && n == DigitsOf(i, m) && y == Residual(i, m, n) && Digits(i, m, n, y)
    ensures Representable(OverC52(y) * 4.0) && OverC52(4 * y) == OverC52(y) * 4.0
    ensures Representable(OverC52(Residual(i + 1, m, DigitsOf(i + 1, m))))
    ensures (4 * n + 1) as real <= OverC52(4 * y) <==> (4 * n + 1) * C52 <= 4 * y
    ensures OverC52(4 * y) - (4 * n + 1) as real == OverC52(4 * y - (4 * n + 1) * C52)
  {
    NextDigit(i, m);
    ResidualRepresentable(i, m, n, y);
    ResidualRepresentable(i + 1, m, DigitsOf(i + 1, m), Residual(i + 1, m, DigitsOf(i + 1, m)));
    Quadruple(OverC52(y));
    Compare(4 * n + 1, 4 * y);
    Compare(0, y);
    hide *;
  }

  /** One turn of the loop, lines 310-314: every operation is exact. */
  method OneDigit(i: nat, ghost m: nat, q0: real, s0: real, x0: real, r0: real)
    returns (q: real, s: real, x: real, r: real)
    requires Argument(m) && i <= 50 && Holds(i, m, q0, s0, x0, r0)
    ensures Holds(i + 1, m, q, s, x, r)
  {
    hide Representable;
    hide Argument;
    hide Digits;
    hide DigitsOf;
    hide Residual;
    hide Two;
    hide Scaled;
    hide OverC52;
    ghost var n := DigitsOf(i, m);
    ghost var y := Residual(i, m, n);
    StepRepresentable(i, m, n, y);
    DigitRepresentable(i, n);
    ResidualSteps(i, m, n, y);
    NextDigit(i, m);
    q, s := q0, s0;
    var t := Fl(s + 1.0);
    x := Fl(x0 * 4.0);
    r := Fl(r0 / 2.0);
    if t <= x {
      s := Fl(Fl(t + t) + 2.0);
      x := Fl(x - t);
      q := Fl(q + r);
    } else {
      s := Fl(s * 2.0);
    }
  }

  // ----- The last bit and the rounding -----

  /** The double nearest to 1 + d in the given mode, for d below an ulp but not half of one. */
  function OnePlus(mode: Mode, d: real): real
    requires 0.0 < d < Two(-52)
  {
    if mode == Up || (mode == Nearest && 2.0 * d > Two(-52)) then 1.0 + Two(-52) else 1.0
  }

  /** A number of which only the sign is used: rounding does not take it across zero. */
  method KeepSign(v: real) returns (t: real)
    ensures t >= 0.0 <==> v >= 0.0
  {
    t := v;
  }

  /** Whether q is still to be moved up, lines 323-325 and 329-331. */
  method MoveUp(mode: Mode, t0: real, r: real) returns (up: bool)
    requires r == Two(-52)
    ensures up <==> mode == Up || (mode == Nearest && t0 >= 0.0)
  {
    var t := t0;
    var b := OnePlus(mode, 3.0 * r / 4.0);
    if b == 1.0 { return false; }
    b := OnePlus(mode, r / 4.0);
    if b > 1.0 { t := 1.0; }
    return t >= 0.0;
  }

  /** The residual of 51 digits is an integer; so are all the numbers below, and four divides them. */
  lemma FinalNumbers(m: nat, n: nat, y: int, w: int)
    requires Argument(m) && Digits(51, m, n, y) && y == w * C52
    ensures 0 <= w <= 2 * n && C52 <= 2 * n && 2 * n + 2 <= P53 && OverC52(y) == w as real
    ensures Representable((4 * w) as real)
    ensures w > n ==> Representable((4 * (w - n)) as real) && Representable((16 * (w - n)) as real)
    ensures w > n ==> Representable((4 * n + 2) as real) && Representable((8 * n + 4) as real)
    ensures w > n ==> Representable((16 * (w - n) - (8 * n + 4)) as real)
    ensures w <= n ==> Representable((8 * n) as real) && Representable((16 * w) as real)
    ensures w <= n ==> Representable((16 * w - 8 * n) as real)
  {
    PowersNear();
    RootSmall(51, m, n, y, 52);
    ResidualBelow(n, w);
    hide *;
    Multiple(4, w, 2);
    if w > n {
      NumbersAbove(n, w);
    } else {
      NumbersBelow(n, w);
    }
    WholeResidual(w, y);
  }

  lemma NumbersAbove(n: nat, w: int)
    requires n < w <= 2 * n && 2 * n + 2 <= P53
    ensures Representable((4 * (w - n)) as real) && Representable((16 * (w - n)) as real)
    ensures Representable((4 * n + 2) as real) && Representable((8 * n + 4) as real)
    ensures Representable((16 * (w - n) - (8 * n + 4)) as real)
  {
    hide Representable;
    PowersNear();
    Multiple(4, w - n, 2);
    Multiple(16, w - n, 4);
    Multiple(2, 2 * n + 1, 1);
    Multiple(4, 2 * n + 1, 2);
    Multiple(4, 4 * (w - n) - 2 * n - 1, 2);
    SameReal(4 * (4 * (w - n) - 2 * n - 1), 16 * (w - n) - (8 * n + 4));
  }

  lemma NumbersBelow(n: nat, w: int)
    requires 0 <= w <= n && 2 * n + 2 <= P53
    ensures Representable((8 * n) as real) && Representable((16 * w) as real)
    ensures Representable((16 * w - 8 * n) as real)
  {
    hide Representable;
    PowersNear();
    Multiple(8, n, 3);
    Multiple(16, w, 4);
    Multiple(8, 2 * w - n, 3);
    SameReal(8 * (2 * w - n), 16 * w - 8 * n);
  }

  lemma SameReal(x: int, y: int)
    requires x == y
    ensures x as real == y as real
  {
  }

  lemma WholeResidual(w: int, y: int)
    requires y == w * C52
    ensures OverC52(y) == w as real
  {
  }

  lemma ResidualBelow(n: int, w: int)
    requires 0 <= w * C52 < (2 * n + 1) * C52
    ensures 0 <= w <= 2 * n
  {
  }

  lemma Multiple(p: int, k: int, e: nat)
    requires -P53 <= k <= P53 && e <= 4 && p == Pow2(e)
    ensures Representable((p * k) as real)
  {
    TwoPow(e);
    IsRepresentable((p * k) as real, k, e);
  }

  lemma RoundingIs(mode: Mode, m: nat, n: nat, y: int, w: int)
    requires Digits(51, m, n, y) && y == w * C52 && n >= 1 && w != 0
    ensures w > n ==> CorrectlyRounded(mode, m,
      if mode == Up || (mode == Nearest && 16 * (w - n) - (8 * n + 4) - 5 >= 0) then 2 * n + 2 else 2 * n + 1)
    ensures w <= n ==> CorrectlyRounded(mode, m,
      if mode == Up || (mode == Nearest && 16 * w - 8 * n - 1 >= 0) then 2 * n + 1 else 2 * n)
  {
    hide Digits;
    hide CorrectlyRounded;
    hide Pow2;
    DigitsStep(51, m, n, y);
    if w > n {
      LastRounding(mode, m, 2 * n + 1, 4 * y - (4 * n + 1) * C52);
    } else {
      LastRounding(mode, m, 2 * n, 4 * y);
    }
  }

  lemma LastDigit(n: nat)
    requires 2 * n + 2 <= P53
    ensures Scaled(n, -51) == Scaled(2 * n, -52) && Representable(Two(-52)) && Two(-51) / 2.0 == Two(-52)
    ensures Scaled(2 * n, -52) + Two(-52) == Scaled(2 * n + 1, -52) && Representable(Scaled(2 * n + 1, -52))
    ensures Scaled(2 * n + 1, -52) + Two(-52) == Scaled(2 * n + 2, -52) && Representable(Scaled(2 * n + 2, -52))
  {
    hide *;
    DigitRepresentable(51, n);
    AddUnit(2 * n + 1, -52);
    ScaledRepresentable(2 * n + 2, -52);
  }

  lemma AddUnit(k: int, e: int)
    ensures Scaled(k, e) + Two(e) == Scaled(k + 1, e)
  {
  }

  lemma ScaledRepresentable(k: int, e: int)
    requires -P53 <= k <= P53
    ensures Representable(Scaled(k, e))
  {
  }

  /** The variables when 51 digits are found. */
  lemma FinalState(m: nat, q: real, s: real, x: real, r: real) returns (n: nat, y: int, w: int)
    requires Argument(m) && Holds(51, m, q, s, x, r)
    ensures Digits(51, m, n, y) && y == w * C52 && (w == 0 ==> y == 0)
    ensures q == Scaled(n, -51) && s == (4 * n) as real && x == w as real && r == Two(-51)
  {
    n := DigitsOf(51, m);
    y := Residual(51, m, n);
    LateFactor(51, m, n, y);
    w := m * Pow2(50) - n * n;
    WholeResidual(w, y);
    hide *;
  }

  /** Lines 320-325: the last digit is a one. */
  method LastOne(mode: Mode, ghost n: nat, ghost w: int, q0: real, s0: real, x0: real, r: real)
    returns (q: real, up: bool)
    requires q0 == Scaled(2 * n, -52) && s0 == (4 * n) as real && x0 == (4 * w) as real && r == Two(-52)
    requires Scaled(2 * n, -52) + Two(-52) == Scaled(2 * n + 1, -52) && Representable(Scaled(2 * n + 1, -52))
    requires Representable((4 * (w - n)) as real) && Representable((16 * (w - n)) as real)
    requires Representable((4 * n + 2) as real)
    requires Representable((8 * n + 4) as real) && Representable((16 * (w - n) - (8 * n + 4)) as real)
    ensures q == Scaled(2 * n + 1, -52)
    ensures up <==> mode == Up || (mode == Nearest && 16 * (w - n) - (8 * n + 4) - 5 >= 0)
  {
    hide Representable;
    hide Scaled;
    hide Two;
    q := Fl(q0 + r);
    var x := Fl(x0 - s0);
    var s := Fl(s0 + 2.0);
    s := Fl(s * 2.0);
    x := Fl(x * 4.0);
    var t := KeepSign(Fl(x - s) - 5.0);
    up := MoveUp(mode, t, r);
  }

  /** Lines 326-331: the last digit is a zero. */
  method LastZero(mode: Mode, ghost n: nat, ghost w: int, s0: real, x0: real, r: real) returns (up: bool)
    requires s0 == (4 * n) as real && x0 == (4 * w) as real && r == Two(-52)
    requires Representable((8 * n) as real) && Representable((16 * w) as real)
    requires Representable((16 * w - 8 * n) as real)
    ensures up <==> mode == Up || (mode == Nearest && 16 * w - 8 * n - 1 >= 0)
  {
    hide Representable;
    hide Two;
    var s := Fl(s0 * 2.0);
    var x := Fl(x0 * 4.0);
    var t := KeepSign(Fl(x - s) - 1.0);
    up := MoveUp(mode, t, r);
  }

  /** q is a number of 53 bits, the correctly rounded root of M / 2^52. */
  ghost predicate RoundedRoot(mode: Mode, m: nat, q: real)
  {
    exists k: nat :: C52 <= k <= P53 && q == Scaled(k, -52) && CorrectlyRounded(mode, m, k)
  }

  /** Lines 317-331. */
  method FinalDigits(mode: Mode, ghost m: nat, q0: real, s: real, x0: real, r0: real) returns (q: real)
    requires Argument(m) && Holds(51, m, q0, s, x0, r0)
    ensures RoundedRoot(mode, m, q)
  {
    hide Argument;
    hide Holds;
    hide Digits;
    hide CorrectlyRounded;
    hide Representable;
    hide OverC52;
    hide Scaled;
    hide Two;
    hide Pow2;
    ghost var n, y, w := FinalState(m, q0, s, x0, r0);
    FinalNumbers(m, n, y, w);
    LastDigit(n);
    q := q0;
    ghost var k := 2 * n;
    var r := Fl(r0 / 2.0);
    var x := Fl(x0 * 4.0);
    if x == 0.0 {
      ExactIsCorrect(mode, m, n);
      assert q == Scaled(k, -52);
      return;
    }
    RoundingIs(mode, m, n, y, w);
    var up;
    if s < x {
      q, up := LastOne(mode, n, w, q, s, x, r);
      k := 2 * n + 1;
    } else {
      up := LastZero(mode, n, w, s, x, r);
    }
    if up {
      q := Fl(q + r);
      k := k + 1;
    }
    assert q == Scaled(k, -52);
  }

  // ----- All doubles -----

  datatype Double = NaN | Infinity(neg: bool) | Zero(neg: bool) | Finite(neg: bool, f: nat, e: int) {
    /** A finite nonzero double is f times 2^e. */
    predicate Valid() { Finite? ==> 1 <= f < P53 && -1074 <= e <= 971 }
  }

  /** The place of the leading one. */
  function Log2(f: nat): (k: nat)
    requires f >= 1
    ensures Pow2(k) <= f < 2 * Pow2(k)
  {
    if f == 1 then 0 else 1 + Log2(f / 2)
  }

  /** logb: the exponent of a finite double, or -1022 for every subnormal one. */
  function Logb(f: nat, e: int): int
    requires f >= 1
  {
    if f < C52 && e == -1074 then -1022 else Log2(f) + e
  }

  /** m / 2 in C, which rounds towards zero. */
  function Half(m: int): int { if m >= 0 then m / 2 else 0 - (-m) / 2 }

  lemma SignificandFits(f: nat)
    requires 1 <= f < P53
    ensures Log2(f) <= 52 && C52 <= f * Pow2(52 - Log2(f)) < 2 * C52
  {
    P53Is();
    C52Is();
    if Log2(f) >= 53 { Pow2Mono(53, Log2(f)); }
    Pow2Add(Log2(f), 52 - Log2(f));
    Spread(Pow2(Log2(f)), f, Pow2(52 - Log2(f)));
  }

  lemma Spread(a: int, f: int, b: int)
    requires a <= f < 2 * a && b >= 1
    ensures a * b <= f * b < 2 * (a * b)
  {
    MulLe(a, f, b);
    MulLt(f, 2 * a, b);
  }

  /** Lines 300-303: the exponent, for the subnormal numbers found in two steps. */
  method Exponent(f: nat, e0: int) returns (m: int)
    requires 1 <= f < P53 && -1074 <= e0 <= 971
    ensures m == Log2(f) + e0
  {
    SignificandFits(f);
    var n := Logb(f, e0);
    var e := e0 - n;
    m := Logb(f, e);
    if m != 0 {
      e := e - m;
    }
    m := m + n;
  }

  /** Lines 299-305: x becomes X times 4^n with X in [1, 4). */
  method Scale(f: nat, e: int) returns (m: nat, n: int)
    requires 1 <= f < P53 && -1074 <= e <= 971
    ensures Argument(m) && Scaled(f, e) == Scaled(m, 2 * n - 52) && -537 <= n <= 511
  {
    hide Scaled;
    hide Log2;
    hide Pow2;
    hide Logb;
    SignificandFits(f);
    ScaledShift(f, e, 52 - Log2(f));
    var k := Exponent(f, e);
    m := f * Pow2(52 - Log2(f));
    n := Half(k);
    if n + n != k {
      ScaledDouble(m, k - 52);
      m := m * 2;
      k := k - 1;
      n := Half(k);
    }
  }

  /** w is the square root of v, correctly rounded to a multiple of u. */
  predicate RootOf(mode: Mode, v: real, w: real, u: real)
  {
    match mode
    case Nearest => (w - u / 2.0) * (w - u / 2.0) <= v <= (w + u / 2.0) * (w + u / 2.0)
    case Up => (w - u) * (w - u) < v <= w * w
    case Down => w * w <= v < (w + u) * (w + u)
    case ToZero => w * w <= v < (w + u) * (w + u)
  }

  lemma RootReal(mode: Mode, m: nat, k: nat, n: int)
    requires k >= 1 && CorrectlyRounded(mode, m, k)
    ensures RootOf(mode, Scaled(m, 2 * n - 52), Scaled(k, n - 52), Two(n - 52))
  {
    hide *;
    var u, d := UnitFacts(m, k, n);
    RoundedSquares(mode, m, k, m * C52);
    RootByMode(mode, m * C52, k, u, d, Scaled(m, 2 * n - 52), Scaled(k, n - 52));
  }

  lemma UnitFacts(m: nat, k: nat, n: int) returns (u: real, d: real)
    ensures u == Two(n - 52) && d == u * u && d > 0.0
    ensures m * C52 >= 0 && Scaled(m, 2 * n - 52) == (m * C52) as real * d && Scaled(k, n - 52) == k as real * u
  {
    hide Two;
    u := Two(n - 52);
    d := ProductOf(u, u);
    SquaredUnit(m, n);
  }

  /** In other words: to nearest, the real root is within half a unit; otherwise within one, above, below or both. */
  lemma RootMeans(mode: Mode, v: real, w: real, u: real, r: real)
    requires RootOf(mode, v, w, u) && r >= 0.0 && r * r == v && w >= u > 0.0
    ensures mode == Nearest ==> w - u / 2.0 <= r <= w + u / 2.0
    ensures mode == Up ==> w - u < r <= w
    ensures mode == Down || mode == ToZero ==> w <= r < w + u
  {
    RootSquares(mode, v, w, u);
    assert Square(r) == r * r;
    hide RootOf;
    hide Square;
    SquareLess(w - u / 2.0, r);
    SquareLess(r, w + u / 2.0);
    SquareLess(w - u, r);
    SquareLess(r, w);
    SquareLess(w, r);
    SquareLess(r, w + u);
  }

  function Square(x: real): real { x * x }

  lemma RootSquares(mode: Mode, v: real, w: real, u: real)
    requires RootOf(mode, v, w, u)
    ensures mode == Nearest ==> Square(w - u / 2.0) <= v <= Square(w + u / 2.0)
    ensures mode == Up ==> Square(w - u) < v <= Square(w)
    ensures mode == Down || mode == ToZero ==> Square(w) <= v < Square(w + u)
  {
  }

  /** Squares of non-negative numbers compare as the numbers. */
  lemma SquareLess(x: real, y: real)
    requires x >= 0.0 && y >= 0.0
    ensures Square(x) <= Square(y) <==> x <= y
  {
    if x > y { SquareGrows(y, x); } else if x < y { SquareGrows(x, y); }
  }

  lemma SquareGrows(x: real, y: real)
    requires 0.0 <= x < y
    ensures Square(x) < Square(y)
  {
    Positive(y - x, x + y);
    assert y * y - x * x == (y - x) * (x + y);
  }

  lemma Positive(x: real, y: real)
    requires x > 0.0 && y > 0.0
    ensures x * y > 0.0
  {
  }

  lemma RootByMode(mode: Mode, n: nat, k: nat, u: real, d: real, v: real, w: real)
    requires d == u * u && d > 0.0 && v == n as real * d && w == k as real * u
    requires mode == Nearest ==> (2 * k - 1) * (2 * k - 1) <= 4 * n <= (2 * k + 1) * (2 * k + 1)
    requires mode == Up ==> (k - 1) * (k - 1) < n <= k * k
    requires mode == Down || mode == ToZero ==> k * k <= n < (k + 1) * (k + 1)
    ensures RootOf(mode, v, w, u)
  {
    hide RootOf;
    match mode
    case Nearest => RootNear(n, k, u, d, v, w);
    case Up => RootUp(n, k, u, d, v, w);
    case Down => RootDown(mode, n, k, u, d, v, w);
    case ToZero => RootDown(mode, n, k, u, d, v, w);
  }

  lemma SquaredUnit(m: nat, n: int)
    ensures Scaled(m, 2 * n - 52) == (m * C52) as real * (Two(n - 52) * Two(n - 52))
  {
    UnitPowers(n);
    hide Two;
    Product(m, Two(n - 52) * Two(n - 52), Two(2 * n - 52));
  }

  lemma UnitPowers(n: int)
    ensures Two(2 * n - 52) == C52 as real * (Two(n - 52) * Two(n - 52))
  {
    hide Two;
    TwoC52();
    TwoAdd(52, 2 * n - 104);
    TwoAdd(n - 52, n - 52);
  }

  lemma TwoC52()
    ensures Two(52) == C52 as real
  {
    C52Is();
    TwoPow(52);
  }

  lemma Product(m: nat, d: real, t: real)
    requires t == C52 as real * d
    ensures m as real * t == (m * C52) as real * d
  {
    assert (m * C52) as real == m as real * C52 as real;
  }

  lemma RootNear(n: nat, k: nat, u: real, d: real, v: real, w: real)
    requires d == u * u && d > 0.0 && v == n as real * d && w == k as real * u
    requires (2 * k - 1) * (2 * k - 1) <= 4 * n <= (2 * k + 1) * (2 * k + 1)
    ensures RootOf(Nearest, v, w, u)
  {
    Neighbours(k, u, w);
    QuarterUnit(u, d);
    HalfUnit(4 * n, 2 * k - 1, 2 * k + 1, u / 2.0, d / 4.0, v, w - u / 2.0, w + u / 2.0);
  }

  lemma RootUp(n: nat, k: nat, u: real, d: real, v: real, w: real)
    requires d == u * u && d > 0.0 && v == n as real * d && w == k as real * u
    requires (k - 1) * (k - 1) < n <= k * k
    ensures RootOf(Up, v, w, u)
  {
    Neighbours(k, u, w);
    SquareNear(k - 1, n, u, d, w - u, v);
    SquareNear(k, n, u, d, w, v);
  }

  lemma RootDown(mode: Mode, n: nat, k: nat, u: real, d: real, v: real, w: real)
    requires mode == Down || mode == ToZero
    requires d == u * u && d > 0.0 && v == n as real * d && w == k as real * u
    requires k * k <= n < (k + 1) * (k + 1)
    ensures RootOf(mode, v, w, u)
  {
    Neighbours(k, u, w);
    SquareNear(k, n, u, d, w, v);
    SquareNear(k + 1, n, u, d, w + u, v);
  }

  lemma Neighbours(k: int, u: real, w: real)
    requires w == k as real * u
    ensures w - u == (k - 1) as real * u && w + u == (k + 1) as real * u
    ensures w - u / 2.0 == (2 * k - 1) as real * (u / 2.0) && w + u / 2.0 == (2 * k + 1) as real * (u / 2.0)
  {
  }

  lemma QuarterUnit(u: real, d: real)
    requires d == u * u
    ensures d / 4.0 == u / 2.0 * (u / 2.0)
  {
  }

  lemma HalfUnit(n: int, i: int, j: int, c: real, d: real, v: real, y: real, z: real)
    requires d == c * c && d > 0.0 && v == n as real * d && y == i as real * c && z == j as real * c
    requires i * i <= n <= j * j
    ensures y * y <= v <= z * z
  {
    SquareNear(i, n, c, d, y, v);
    SquareNear(j, n, c, d, z, v);
  }

  lemma SquareNear(j: int, n: int, c: real, d: real, z: real, v: real)
    requires z == j as real * c && d == c * c && d > 0.0 && v == n as real * d
    ensures j * j <= n ==> z * z <= v
    ensures j * j < n ==> z * z < v
    ensures n <= j * j ==> v <= z * z
    ensures n < j * j ==> v < z * z
  {
    SquareAt(j, c, d, z);
    OrderTimes(j * j, n, d, z * z, v);
  }

  lemma OrderTimes(x: int, y: int, d: real, a: real, b: real)
    requires d > 0.0 && a == x as real * d && b == y as real * d
    ensures x <= y ==> a <= b
    ensures x < y ==> a < b
    ensures y <= x ==> b <= a
    ensures y < x ==> b < a
  {
    if x < y { TimesLess(x, y, d); } else if y < x { TimesLess(y, x, d); }
  }

  lemma SquareAt(k: int, u: real, d: real, z: real)
    requires d == u * u && z == k as real * u
    ensures z * z == (k * k) as real * d
  {
    assert (k * k) as real == k as real * k as real;
  }

  lemma ProductOf(x: real, y: real) returns (d: real)
    requires x > 0.0 && y > 0.0
    ensures d == x * y && d > 0.0
  {
    d := x * y;
  }

  lemma TimesLess(x: int, y: int, d: real)
    requires x < y && d > 0.0
    ensures x as real * d < y as real * d
  {
  }

  /** Lines 307-331, for an argument in [1, 4). */
  method Root(mode: Mode, m: nat) returns (q: real)
    requires Argument(m)
    ensures RoundedRoot(mode, m, q)
  {
    hide RoundedRoot;
    hide Argument;
    StartOfRoot(m);
    var s, x, r := 4.0, Fl(OverC52(m) - 1.0), 1.0;
    q := 1.0;
    hide Holds;
    for i := 0 to 51
      invariant Holds(i, m, q, s, x, r)
    {
      q, s, x, r := OneDigit(i, m, q, s, x, r);
    }
    q := FinalDigits(mode, m, q, s, x, r);
  }

  lemma StartOfRoot(m: nat)
    requires Argument(m)
    ensures Representable(OverC52(m) - 1.0) && Holds(0, m, 1.0, 4.0, OverC52(m) - 1.0, 1.0)
  {
    DigitsFound(0, m);
    StartValues(m);
    ResidualRepresentable(0, m, 1, m - C52);
    Compare(1, m);
    TwoZero();
    hide Two;
    hide Representable;
    hide Digits;
    hide DigitsOf;
    hide Residual;
  }

  lemma StartValues(m: nat)
    ensures DigitsOf(0, m) == 1 && Residual(0, m, 1) == m - C52
  {
  }

  datatype Outcome = Special(x: Double) | Value(v: real)

  /** The whole function: the special cases, and for a positive number its root in 53 bits, correctly rounded. */
  method Sqrt(mode: Mode, x: Double) returns (r: Outcome, ghost k: nat, ghost n: int)
    requires x.Valid()
    ensures x.NaN? || x.Zero? || x == Infinity(false) ==> r == Special(x)
    ensures x == Infinity(true) || (x.Finite? && x.neg) ==> r == Special(NaN)
    ensures x.Finite? && !x.neg ==> r == Value(Scaled(k, n - 52)) && C52 <= k <= P53 && -537 <= n <= 511
    ensures x.Finite? && !x.neg ==> RootOf(mode, Scaled(x.f, x.e), Scaled(k, n - 52), Two(n - 52))
  {
    hide RootOf;
    hide Scaled;
    hide Two;
    hide Argument;
    r, k, n := Special(x), 0, 0;
    if x.NaN? || x.Zero? { return; }
    if x.neg { r := Special(NaN); return; }
    if x.Infinity? { return; }
    var v;
    v, k, n := PositiveRoot(mode, x.f, x.e);
    r := Value(v);
  }

  method PositiveRoot(mode: Mode, f: nat, e: int) returns (v: real, ghost k: nat, ghost n: int)
    requires 1 <= f < P53 && -1074 <= e <= 971
    ensures v == Scaled(k, n - 52) && C52 <= k <= P53 && -537 <= n <= 511
    ensures RootOf(mode, Scaled(f, e), v, Two(n - 52))
  {
    hide RootOf;
    hide CorrectlyRounded;
    hide Argument;
    hide Scaled;
    hide Two;
    hide Representable;
    hide RoundedRoot;
    var m, half := Scale(f, e);
    var q;
    q := Root(mode, m);
    n := half;
    k := RootDigits(mode, m, q);
    RootReal(mode, m, k, n);
    ScaledRepresentable(k, n - 52);
    ScaledTimes(k, half);
    assert q * Two(half) == Scaled(k, half - 52);
    v := Fl(q * Two(half));
  }

  lemma RootDigits(mode: Mode, m: nat, q: real) returns (k: nat)
    requires RoundedRoot(mode, m, q)
    ensures C52 <= k <= P53 && q == Scaled(k, -52) && CorrectlyRounded(mode, m, k)
  {
    k :| C52 <= k <= P53 && q == Scaled(k, -52) && CorrectlyRounded(mode, m, k);
  }

  lemma ScaledTimes(k: int, n: int)
    ensures Scaled(k, -52) * Two(n) == Scaled(k, n - 52)
  {
    TwoAdd(-52, n);
    hide Two;
    Regroup(k as real, Two(-52), Two(n));
  }
}
