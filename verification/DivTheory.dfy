/** The arithmetic of long division (gmp/mpn-divrem.c), on integers.

`d` is the divisor, `x` the remainder with the next limb brought down, `q` a
candidate for the quotient limb. */
module DivTheory {
  import opened Limbs

  /** The candidate is the true quotient limb. */
  ghost predicate Exact(x: int, q: int, d: int) { 0 <= x - q * d < d }

  /** The candidate is the true quotient limb or one more. */
  ghost predicate AtMostOneOver(x: int, q: int, d: int) { -d <= x - q * d < d }

  /** Dividing the top three limbs by the top two: the result is never too small for the whole
      and at most one too large.  `p` is the weight of the limbs that were left out. */
  lemma TopQuotientBound(t3: int, xlow: int, d2: int, dlow: int, p: int, q: int)
    requires p >= 1 && 0 <= xlow < p && 0 <= dlow < p
    requires d2 >= B && 0 <= q < B && Exact(t3, q, d2)
    ensures AtMostOneOver(t3 * p + xlow, q, d2 * p + dlow)
  {
    var x, d := t3 * p + xlow, d2 * p + dlow;
    MulDistr(q, d2 * p, dlow);
    assert q * (d2 * p) == (q * d2) * p by { MulAssoc(q, d2, p); }
    MulLe(q * d2, t3, p);
    MulLe(t3 + 1, (q + 1) * d2, p);
    MulDistr(p, q * d2, d2);
    MulDistr(p, t3, 1);
    MulLe(0, q, dlow);
    MulLe(dlow, p, q);
    MulLe(q, B, p);
    MulLe(B, d2, p);
  }

  /** When the top limbs agree, B - 1 is the quotient limb or one more: this is where the divisor's
      top bit is needed. */
  lemma AllOnesBound(x: int, d: int, dX: int, p: int)
    requires p >= 1 && dX >= B / 2
    requires dX * (B * B * p) <= x < d * B && d < (dX + 1) * (B * p) && d > 0
    ensures AtMostOneOver(x, B - 1, d)
  {
    var w := B * p;
    MulLt(d, (dX + 1) * w, B - 2);
    assert (B - 2) * ((dX + 1) * w) == ((B - 2) * (dX + 1)) * w by { MulAssoc(B - 2, dX + 1, w); }
    MulLe((B - 2) * (dX + 1), dX * B, w);
    assert (dX * B) * w == dX * (B * B * p) by { MulAssoc(dX, B, w); }
  }

  /** Lines 224-236: after subtracting q*d from the low limbs (`low` becomes `res` with borrow `cy`),
      a borrow that differs from the top limb `n2` says exactly that the candidate was one too large,
      and adding the divisor back once (`res + d == back + c*p`) repairs it. */
  lemma AddBackTest(low: int, n2: int, q: int, d: int, p: int, res: int, cy: int)
    requires 0 < d < p && 0 <= res < p && res - cy * p == low - d * q
    requires AtMostOneOver(low + n2 * p, q, d)
    ensures n2 == cy <==> Exact(low + n2 * p, q, d)
    ensures n2 == cy ==> res == (low + n2 * p) - q * d
    ensures n2 != cy ==> n2 == cy - 1 && Exact(low + n2 * p, q - 1, d)
    ensures n2 != cy ==> res + d - p == (low + n2 * p) - (q - 1) * d
  {
    var x := low + n2 * p;
    assert x - q * d == res + (n2 - cy) * p by { MulDistr(p, n2, cy); }
    if n2 - cy >= 1 { MulLe(1, n2 - cy, p); }
    if n2 - cy <= -2 { MulLe(n2 - cy, -2, p); }
    MulDistr(d, q, 1);
  }
}
