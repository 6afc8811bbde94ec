/** The arithmetic behind Karatsuba's recursion (gmp/mpn-mul_n.c:140-153).

`x` stands for B^hsize; U = u0 + x*u1, V = v0 + x*v1. */
module Karatsuba {
  import opened Limbs

  ghost function Cross(u0: int, u1: int, v0: int, v1: int): int { (u1 - u0) * (v0 - v1) }

  /** H + L + M is the sum of the mixed products, so it is never negative. */
  lemma CrossIsMixed(u0: int, u1: int, v0: int, v1: int)
    ensures u1 * v1 + u0 * v0 + Cross(u0, u1, v0, v1) == u0 * v1 + u1 * v0
  {
    MulDistr(u1 - u0, v0, v1);
    MulDistr(v0, u1, u0);
    MulDistr(v1, u1, u0);
  }

  /** U*V = L + x*(H + L + M) + x^2*H. */
  lemma Identity(u0: int, u1: int, v0: int, v1: int, x: int)
    ensures (u0 + x * u1) * (v0 + x * v1)
         == u0 * v0 + x * (u1 * v1 + u0 * v0 + Cross(u0, u1, v0, v1)) + x * (x * (u1 * v1))
  {
    CrossIsMixed(u0, u1, v0, v1);
    var a, b := x * u1, x * v1;
    MulDistr(u0 + a, v0, b);
    MulDistr(v0, u0, a);
    MulDistr(b, u0, a);
    assert a * v0 == x * (u1 * v0) by { MulAssoc(x, u1, v0); }
    assert u0 * b == x * (u0 * v1) by { MulAssoc(u0, x, v1); }
    assert a * b == x * (x * (u1 * v1)) by {
      MulAssoc(a, x, v1);
      MulAssoc(x, u1, v1);
      MulAssoc(x, x, u1 * v1);
      assert a * v1 == x * (u1 * v1);
    }
    MulDistr(x, u0 * v1, u1 * v0);
  }

  lemma MixedBound(u0: int, u1: int, v0: int, v1: int, x: int)
    requires 0 <= u0 < x && 0 <= u1 < x && 0 <= v0 < x && 0 <= v1 < x
    ensures 0 <= u0 * v1 + u1 * v0 <= 2 * (x * x) - 2 * x
    ensures 0 <= (u0 + x * u1) * (v0 + x * v1) < (x * x) * (x * x)
  {
    SmallProduct(u0, v1, x);
    SmallProduct(u1, v0, x);
    WholeBound(u0, u1, x);
    WholeBound(v0, v1, x);
    SmallProduct(u0 + x * u1, v0 + x * v1, x * x);
  }

  lemma WholeBound(u0: int, u1: int, x: int)
    requires 0 <= u0 < x && 0 <= u1 < x
    ensures 0 <= u0 + x * u1 < x * x
  {
    MulLe(u1, x - 1, x);
    MulLe(0, u1, x);
  }

  lemma SmallProduct(a: int, b: int, x: int)
    requires 0 <= a < x && 0 <= b < x
    ensures 0 <= a * b <= x * x - x
  {
    MulLe(a, x - 1, b);
    MulLe(0, a, b);
    MulLe(b, x, x - 1);
    MulDistr(x, x, 1);
  }

  /** The middle sum, with the wrapped carry made signed: `w + c*x^2` is H + x*h0 + M + L, and
      the carry that line 212 tests is 0, 1 or 2 although it may have been -1 before. */
  lemma CarryRange(u0: int, u1: int, v0: int, v1: int, x: int, h0: int, w: int, c: int)
    requires 0 <= u0 < x && 0 <= u1 < x && 0 <= v0 < x && 0 <= v1 < x
    requires 0 <= h0 < x && 0 <= w < x * x
    requires w + c * (x * x) == u1 * v1 + x * h0 + Cross(u0, u1, v0, v1) + u0 * v0
    ensures 0 <= c <= 2
  {
    CrossIsMixed(u0, u1, v0, v1);
    MixedBound(u0, u1, v0, v1, x);
    SmallProduct(x - 1, h0, x);
    MulDistr(h0, x, 1);
    DigitRange(w, c, x * x, u0 * v1 + u1 * v0 + x * h0);
  }

  lemma DigitRange(w: int, c: int, y: int, z: int)
    requires 0 <= w < y && w + c * y == z && 0 <= z < 3 * y
    ensures 0 <= c <= 2
  {
    if c < 0 { MulLe(c, -1, y); }
    if c > 2 { MulLe(3, c, y); }
  }

  /** The digits `l0, w + l1, h1 + c` in weights 1, x, x^3 make up the product, so that
      neither final carry can leave it. */
  lemma Assemble(u0: int, u1: int, v0: int, v1: int, x: int, h0: int, h1: int, l0: int, l1: int, w: int, c: int)
    requires u1 * v1 == h0 + x * h1 && u0 * v0 == l0 + x * l1
    requires w + c * (x * x) == u1 * v1 + x * h0 + Cross(u0, u1, v0, v1) + u0 * v0
    ensures (u0 + x * u1) * (v0 + x * v1) == l0 + x * (w + (x * x) * (h1 + c) + l1)
  {
    var h, l, m, y := u1 * v1, u0 * v0, Cross(u0, u1, v0, v1), x * x;
    Identity(u0, u1, v0, v1, x);
    MulDistr(y, h1, c);
    assert x * (h + x * h0 + m + l) == x * (w + c * y);
    assert x * h == x * h0 + y * h1 by { MulDistr(x, h0, x * h1); MulAssoc(x, x, h1); }
    assert w + y * (h1 + c) + l1 == (h + l + m) + x * h + l1;
    MulDistr(x, (h + l + m) + x * h, l1);
    MulDistr(x, h + l + m, x * h);
  }
}
