/** The double-limb primitives of stdlib/longlong.h: the portable macros, with the carries of their half limbs. */
module LongLong {
  import opened Limbs

  /** __ll_B: the weight of the high half of a limb. */
  const H: int := 0x1_0000

  type HalfLimb = x: int | 0 <= x < H

  lemma HalfProduct(x: int, y: int)
    requires 0 <= x < H && 0 <= y < H
    ensures 0 <= x * y <= (H - 1) * (H - 1)
  {
    MulLe(0, x, y);
    MulLe(x, H - 1, y);
    MulLe(y, H - 1, H - 1);
  }

  lemma FourProducts(ul: int, uh: int, vl: int, vh: int)
    ensures (uh * H + ul) * (vh * H + vl) == (uh * vh) * B + (ul * vh + uh * vl) * H + ul * vl
  {
    MulDistr(uh * H + ul, vh * H, vl);
    MulDistr(vh * H, uh * H, ul);
    MulDistr(vl, uh * H, ul);
    MulAssoc(uh * H, H, vh);
    MulAssoc(vh, uh, H);
    MulAssoc(ul, vh, H);
    MulAssoc(vl, uh, H);
  }

  lemma TopFits(w1: int, w0: int, u: Limb, v: Limb)
    requires w1 * B + w0 == u * v && w0 >= 0
    ensures w1 <= B - 2
  {
    MulLe(u, B - 1, v);
    MulLe(v, B - 1, B - 1);
  }

  /** umul_ppmm: the double-limb product from four products of halves.  The first addition to x1 cannot give a
      carry; the second can, and its carry counts in the high half of x3. */
  method UmulPpmm(u: Limb, v: Limb) returns (w1: Limb, w0: Limb)
    ensures w1 * B + w0 == u * v
    ensures w1 <= B - 2
  {
    var ul, uh, vl, vh := u % H, u / H, v % H, v / H;
    HalfProduct(ul, vl);
    HalfProduct(ul, vh);
    HalfProduct(uh, vl);
    HalfProduct(uh, vh);
    FourProducts(ul, uh, vl, vh);
    w1, w0 := Assemble(ul * vl, ul * vh, uh * vl, uh * vh, u, v);
  }

  /** The second half of the macro. */
  method Assemble(x0: Limb, p1: Limb, x2: Limb, p3: Limb, ghost u: Limb, ghost v: Limb) returns (w1: Limb, w0: Limb)
    requires p3 * B + (p1 + x2) * H + x0 == u * v
    requires x0 <= (H - 1) * (H - 1) && p1 <= (H - 1) * (H - 1) && x2 <= (H - 1) * (H - 1) && p3 <= (H - 1) * (H - 1)
    ensures w1 * B + w0 == u * v
    ensures w1 <= B - 2
  {
    var x1: Limb, x3: Limb := p1 + x0 / H, p3;
    x1 := Add(x1, x2);
    if x1 < x2 {
      x3 := x3 + H;
    }
    TopFits(x3 + x1 / H, (x1 % H) * H + x0 % H, u, v);
    w1 := x3 + x1 / H;
    w0 := (x1 % H) * H + x0 % H;
  }

  /** udiv_qrnnd: double limb by limb; the high limb must be below the divisor, and the portable macro demands
      a divisor with its top bit set (UDIV_NEEDS_NORMALIZATION).  Without it, a machine instruction divides. */
  method UdivQrnnd(n1: Limb, n0: Limb, d: Limb, portable: bool) returns (q: Limb, r: Limb)
    requires n1 < d && (portable ==> d >= B / 2)
    ensures q * d + r == n1 * B + n0
    ensures r < d
  {
    if portable {
      var q1, r1 := HalfStep(n1, n0 / H, d);
      var q0;
      q0, r := HalfStep(r1, n0 % H, d);
      q := q1 * H + q0;
      TwoSteps(q1, q0, r1, r, n1, n0, d);
    } else {
      QuotientFits(n1 * B + n0, d);
      q, r := (n1 * B + n0) / d, (n1 * B + n0) % d;
    }
  }

  lemma TwoSteps(q1: int, q0: int, r1: int, r: int, n1: int, n0: int, d: int)
    requires q1 * d + r1 == n1 * H + n0 / H && q0 * d + r == r1 * H + n0 % H
    ensures (q1 * H + q0) * d + r == n1 * B + n0
  {
    MulDistr(d, q1 * H, q0);
    MulAssoc(q1, H, d);
  }

  /** Either half of __udiv_qrnnd_c: divide by the high half of the divisor, and correct at most twice.  The
      test for a carry tells whether the remainder has become non-negative. */
  method HalfStep(n1: Limb, x: HalfLimb, d: Limb) returns (q: HalfLimb, r: Limb)
    requires n1 < d && d >= B / 2
    ensures q * d + r == n1 * H + x
    ensures r < d
  {
    var d1, d0 := d / H, d % H;
    var q1, r1 := n1 / d1, n1 % d1;
    Division(n1, d1);
    HalfEstimate(n1, x, d1, d0, q1, r1);
    var m: Limb := q1 * d0;
    r := r1 * H + x;
    ghost var rest := r - m;
    if r < m {
      TakeBack(q1, d, rest, n1 * H + x);
      q1, r, rest := q1 - 1, Add(r, d), rest + d;
      if r >= d && r < m {
        TakeBack(q1, d, rest, n1 * H + x);
        q1, r, rest := q1 - 1, Add(r, d), rest + d;
      }
    }
    r := Sub(r, m);
    assert r == rest;
    HalfFits(q1, d, r, n1, x);
    q := q1;
  }

  lemma Division(n: int, d: int)
    requires n >= 0 && d > 0
    ensures n == (n / d) * d + n % d && 0 <= n % d < d && n / d >= 0
  {
  }

  /** The product of the low half of the divisor fits in a limb, and leaves between -2d and d. */
  lemma HalfEstimate(n1: int, x: int, d1: int, d0: int, q: int, r: int)
    requires n1 == q * d1 + r && 0 <= r < d1 && q >= 0
    requires 0 <= n1 < d1 * H + d0 && H / 2 <= d1 < H && 0 <= d0 < H && 0 <= x < H
    ensures 0 <= q * d0 < B && 0 <= r * H + x < d1 * H
    ensures q * (d1 * H + d0) + (r * H + x - q * d0) == n1 * H + x
  {
    MulDistr(q, d1 * H, d0);
    MulAssoc(q, d1, H);
    if q > H + 1 { MulLe(H + 2, q, d1); }
    MulLe(0, q, d0);
    MulLe(q, H + 1, d0);
  }

  lemma TakeBack(q: int, d: int, rest: int, n: int)
    requires q * d + rest == n && n >= 0 && rest < 0 && d > 0
    ensures q >= 1 && (q - 1) * d + (rest + d) == n
  {
    if q <= 0 { MulLe(q, 0, d); }
    MulDistr(d, q, 1);
  }

  lemma HalfFits(q: int, d: int, r: int, n1: int, x: int)
    requires q * d + r == n1 * H + x && 0 <= r < d && 0 <= n1 < d && 0 <= x < H
    ensures 0 <= q < H
  {
    if q >= H { MulLe(H, q, d); }
    if q < 0 { MulLe(q, -1, d); }
  }

  lemma QuotientFits(n: int, d: int)
    requires 0 <= n < d * B && 0 < d
    ensures 0 <= n / d < B
  {
    var q := n / d;
    if q >= B { MulLe(B, q, d); }
  }

  /** add_ssaaaa: double-limb addition; the carry out is lost. */
  method AddSsaaaa(ah: Limb, al: Limb, bh: Limb, bl: Limb) returns (sh: Limb, sl: Limb)
    ensures var sum := (ah * B + al) + (bh * B + bl);
            sh * B + sl == if sum < B * B then sum else sum - B * B
  {
    sl := Add(al, bl);
    var h := ah + bh + if sl < al then 1 else 0;
    sh := if h < B then h else h - B;
  }

  /** sub_ddmmss: double-limb subtraction; the borrow out is lost. */
  method SubDdmmss(ah: Limb, al: Limb, bh: Limb, bl: Limb) returns (sh: Limb, sl: Limb)
    ensures var diff := (ah * B + al) - (bh * B + bl);
            sh * B + sl == if diff >= 0 then diff else diff + B * B
  {
    sl := Sub(al, bl);
    var h := ah - bh - if sl > al then 1 else 0;
    sh := if h >= 0 then h else h + B;
  }
}
