/** Square roots digit by digit, on integers: what the loop of `sqrt` (gmp/support.c:307-331) keeps.

The argument X in [1, 4) is M / 2^52; after i digits the root is Q / 2^i and the residual Y / 2^52. */
module SqrtCore {
  import opened Bits

  const C52: nat := 0x10_0000_0000_0000

  lemma C52Is()
    ensures C52 == Pow2(52)
  {
    Pow2Values();
    Pow2Add(31, 21);
    assert Pow2(5) == 32;
    Pow2Add(16, 5);
  }

  /** The residual is exact, and the root is the largest with its number of digits. */
  ghost predicate Digits(i: nat, m: nat, q: nat, y: int)
  {
    && Pow2(i) <= q < 2 * Pow2(i)
    && y == m * Pow2(2 * i) - q * q * C52
    && 0 <= y < (2 * q + 1) * C52
  }

  lemma DigitsStart(m: nat)
    requires C52 <= m < 4 * C52
    ensures Digits(0, m, 1, m - C52)
  {
  }

  /** One digit more: a one if 4Q + 1 still fits into the residual, else a zero. */
  lemma DigitsStep(i: nat, m: nat, q: nat, y: int)
    requires Digits(i, m, q, y)
    ensures (4 * q + 1) * C52 <= 4 * y ==> Digits(i + 1, m, 2 * q + 1, 4 * y - (4 * q + 1) * C52)
    ensures (4 * q + 1) * C52 > 4 * y ==> Digits(i + 1, m, 2 * q, 4 * y)
  {
    Pow2Add(2 * i, 2);
    assert Pow2(2) == 4;
    assert m * Pow2(2 * (i + 1)) == 4 * (m * Pow2(2 * i));
    assert (2 * q + 1) * (2 * q + 1) * C52 == 4 * (q * q * C52) + (4 * q + 1) * C52;
    assert (2 * q) * (2 * q) * C52 == 4 * (q * q * C52);
  }

  /** The root to i digits, found digit by digit. */
  ghost function DigitsOf(i: nat, m: nat): nat
  {
    if i == 0 then 1 else
      var q := DigitsOf(i - 1, m);
      if (4 * q + 1) * C52 <= 4 * Residual(i - 1, m, q) then 2 * q + 1 else 2 * q
  }

  ghost function Residual(i: nat, m: nat, q: nat): int { m * Pow2(2 * i) - q * q * C52 }

  /** There is one such root, DigitsOf, for every number of digits. */
  lemma {:induction false} DigitsFound(i: nat, m: nat)
    requires C52 <= m < 4 * C52
    ensures Digits(i, m, DigitsOf(i, m), Residual(i, m, DigitsOf(i, m)))
  {
    if i == 0 {
      DigitsStart(m);
    } else {
      DigitsFound(i - 1, m);
      NextDigit(i - 1, m);
    }
  }

  lemma NextDigit(i: nat, m: nat)
    requires Digits(i, m, DigitsOf(i, m), Residual(i, m, DigitsOf(i, m)))
    ensures var q, y := DigitsOf(i, m), Residual(i, m, DigitsOf(i, m));
      var q', y' := DigitsOf(i + 1, m), Residual(i + 1, m, DigitsOf(i + 1, m));
      && Digits(i + 1, m, q', y')
      && ((4 * q + 1) * C52 <= 4 * y ==> q' == 2 * q + 1 && y' == 4 * y - (4 * q + 1) * C52)
      && ((4 * q + 1) * C52 > 4 * y ==> q' == 2 * q && y' == 4 * y)
  {
    DigitsStep(i, m, DigitsOf(i, m), Residual(i, m, DigitsOf(i, m)));
    hide Pow2;
  }

  /** No other root satisfies the bracket. */
  lemma DigitsUnique(i: nat, m: nat, q: nat, y: int)
    requires C52 <= m < 4 * C52 && Digits(i, m, q, y)
    ensures q == DigitsOf(i, m)
  {
    DigitsFound(i, m);
    var r := DigitsOf(i, m);
    Bracketed(i, m, q, y);
    Bracketed(i, m, r, Residual(i, m, r));
    hide Digits;
    hide Sq;
    if q < r {
      if q + 1 < r { SqMono(q + 1, r); }
    } else if r < q {
      if r + 1 < q { SqMono(r + 1, q); }
    }
  }

  /** The square of K / 2^i in the scale of the residual. */
  function Sq(k: int): int { k * k * C52 }

  lemma SqMono(j: int, k: int)
    requires 0 <= j < k
    ensures Sq(j) < Sq(k)
  {
    assert j * j < k * k;
  }

  lemma SqDouble(k: int)
    ensures Sq(2 * k) == 4 * Sq(k)
  {
    assert (2 * k) * (2 * k) == 4 * (k * k);
  }

  /** The root is bracketed: Q^2 <= X 4^i < (Q + 1)^2, with equality exactly if the residual is zero. */
  lemma Bracketed(i: nat, m: nat, q: nat, y: int)
    requires Digits(i, m, q, y)
    ensures Sq(q) <= m * Pow2(2 * i) < Sq(q + 1)
    ensures y == 0 <==> Sq(q) == m * Pow2(2 * i)
  {
    assert (q + 1) * (q + 1) * C52 == q * q * C52 + (2 * q + 1) * C52;
  }

  // ----- Rounding -----

  datatype Mode = Nearest | Up | Down | ToZero

  /** K / 2^52 is the square root of M / 2^52, correctly rounded (section 4 of IEEE 754-1985). */
  predicate CorrectlyRounded(mode: Mode, m: nat, k: nat)
    requires k >= 1
  {
    match mode
    case Nearest => Sq(2 * k - 1) <= m * Pow2(106) <= Sq(2 * k + 1)
    case Up => Sq(k - 1) < m * Pow2(104) <= Sq(k)
    case Down => Sq(k) <= m * Pow2(104) < Sq(k + 1)
    case ToZero => Sq(k) <= m * Pow2(104) < Sq(k + 1)
  }

  lemma FourTimes(m: nat)
    ensures m * Pow2(106) == 4 * (m * Pow2(104))
  {
    Pow2Add(104, 2);
    assert Pow2(2) == 4;
  }

  lemma ExactIsCorrect(mode: Mode, m: nat, q: nat)
    requires Digits(51, m, q, 0) && q >= 1
    ensures CorrectlyRounded(mode, m, 2 * q)
  {
    hide *;
    var k := 2 * q;
    DigitsStep(51, m, q, 0);
    Bracketed(52, m, k, 0);
    FourTimes(m);
    SqDouble(k);
    SqMono(2 * k - 1, 2 * k);
    SqMono(2 * k, 2 * k + 1);
    SqMono(k - 1, k);
    SqMono(k, k + 1);
    ByCases(mode, m, k);
  }

  lemma ByCases(mode: Mode, m: nat, k: nat)
    requires k >= 1
    requires mode == Nearest ==> Sq(2 * k - 1) <= m * Pow2(106) <= Sq(2 * k + 1)
    requires mode == Up ==> Sq(k - 1) < m * Pow2(104) <= Sq(k)
    requires mode == Down || mode == ToZero ==> Sq(k) <= m * Pow2(104) < Sq(k + 1)
    ensures CorrectlyRounded(mode, m, k)
  {
  }

  /** After 52 digits: cut off, go up, or go up exactly if the next digit would be a one. */
  lemma LastRounding(mode: Mode, m: nat, k: nat, y: int)
    requires Digits(52, m, k, y) && y > 0 && k >= 1
    ensures CorrectlyRounded(mode, m,
      if mode == Up || (mode == Nearest && (4 * k + 1) * C52 <= 4 * y) then k + 1 else k)
  {
    hide *;
    Bracketed(52, m, k, y);
    DigitsStep(52, m, k, y);
    FourTimes(m);
    SqDouble(k);
    SqDouble(k + 1);
    SqMono(2 * k - 1, 2 * k);
    SqMono(2 * k + 2, 2 * k + 3);
    if (4 * k + 1) * C52 <= 4 * y {
      Bracketed(53, m, 2 * k + 1, 4 * y - (4 * k + 1) * C52);
    } else {
      Bracketed(53, m, 2 * k, 4 * y);
    }
    ByCases(mode, m, if mode == Up || (mode == Nearest && (4 * k + 1) * C52 <= 4 * y) then k + 1 else k);
  }

  /** The same in terms of N = M 2^52, which K^2 is to come near. */
  lemma RoundedSquares(mode: Mode, m: nat, k: nat, n: nat)
    requires k >= 1 && CorrectlyRounded(mode, m, k) && n == m * C52
    ensures mode == Nearest ==> (2 * k - 1) * (2 * k - 1) <= 4 * n <= (2 * k + 1) * (2 * k + 1)
    ensures mode == Up ==> (k - 1) * (k - 1) < n <= k * k
    ensures mode == Down || mode == ToZero ==> k * k <= n < (k + 1) * (k + 1)
  {
    C52Is();
    Pow2Add(52, 52);
    FourTimes(m);
    hide Pow2;
    assert m * Pow2(104) == n * C52;
    assert m * Pow2(106) == 4 * n * C52;
  }
}
