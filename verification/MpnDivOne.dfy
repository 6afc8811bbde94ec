/** Division by a single limb: gmp/mpn-divmod_1.c and gmp/mpn-mod_1.c.

The timing macros and UDIV_NEEDS_NORMALIZATION, which select one of the code
paths at compile time, are parameters: the results hold for every selection. */
module MpnDivOne {
  import opened Limbs
  import opened LongLong
  import opened MpnLow
  import opened Bits

  function Shl(x: Limb, s: nat): Limb { (x * Pow2(s)) % B }

  function Shr(x: Limb, s: nat): Limb
  {
    ShrFits(x, Pow2(s));
    x / Pow2(s)
  }

  lemma ShrFits(x: int, p: int)
    requires 0 <= x && p >= 1
    ensures 0 <= x / p <= x
  {
    var q := x / p;
    if q < 0 { MulLe(q, -1, p); }
    MulLe(1, p, q);
  }

  /** count_leading_zeros: the shift that sets the top bit. */
  method CountLeadingZeros(x: Limb) returns (cnt: nat)
    requires x != 0
    ensures cnt < LIMB_BITS && B / 2 <= x * Pow2(cnt) < B
  {
    cnt := 0;
    var y := x;
    while y < B / 2
      invariant y == x * Pow2(cnt) && 0 < y < B
      decreases B - y
    {
      Doubled(x, cnt);
      y := 2 * y;
      cnt := cnt + 1;
    }
    ShiftBelowWidth(x, cnt);
  }

  lemma Doubled(x: int, n: nat)
    ensures x * Pow2(n + 1) == 2 * (x * Pow2(n))
  {
  }

  lemma ShiftBelowWidth(x: int, n: nat)
    requires x >= 1 && x * Pow2(n) < B
    ensures n < LIMB_BITS
  {
    MulLe(1, x, Pow2(n));
    if n >= LIMB_BITS {
      Pow2Values();
      Pow2Mono(LIMB_BITS, n);
    }
  }

  /** The two halves of a limb when the run is shifted left by `s` bits. */
  lemma ShiftedLimb(x: Limb, s: nat) returns (k: nat)
    requires 1 <= s < LIMB_BITS
    ensures x * Pow2(s) == Shr(x, LIMB_BITS - s) * B + Shl(x, s)
    ensures Shr(x, LIMB_BITS - s) < Pow2(s)
    ensures Shl(x, s) == k * Pow2(s)
  {
    Pow2Add(s, LIMB_BITS - s);
    Pow2Values();
    k := SplitProduct(x, Pow2(s), Pow2(LIMB_BITS - s));
  }

  lemma SplitProduct(x: int, p: int, t: int) returns (r: nat)
    requires p >= 1 && t >= 1 && p * t == B && 0 <= x < B
    ensures (x * p) % B == r * p && x * p == (x / t) * B + r * p && x / t < p
  {
    hide *;
    var q;
    q, r := x / t, x % t;
    assert x * p == q * B + r * p by {
      MulDistr(p, q * t, r);
      MulAssoc(q, t, p);
    }
    MulLt(r, t, p);
    MulLe(0, r, p);
    QuotRem(x * p, q, r * p, B);
    if q >= p { MulLe(p, q, t); }
  }

  /** What `divisor_limb_inverted` stands for: B + di is B^2/d, rounded down (by d at most). */
  ghost predicate IsInverse(d: Limb, di: Limb)
  {
    (B + di) * d <= B * B <= (B + di) * d + d
  }

  /** Lines 87-92: the inverse of a normalized divisor. */
  method InvertLimb(d: Limb) returns (di: Limb)
    requires d >= B / 2
    ensures IsInverse(d, di)
  {
    if d == B / 2 {
      di := B - 1;
    } else {
      var r;
      di, r := UdivQrnnd(Sub(0, d), 0, d, true);
      MulDistr(d, B, di);
    }
  }

  /** The estimate nh + high(nh * di) is at most the quotient, and too small by less than (B + 2d)/d. */
  lemma PreinvEstimate(nh: int, nl: int, d: int, di: int, hi: int, lo: int)
    requires 0 <= nh < d && 0 <= nl < B && 0 < d < B && 0 <= lo < B && hi * B + lo == nh * di
    requires (B + di) * d <= B * B <= (B + di) * d + d
    ensures 0 <= (nh * B + nl) - (hi + nh) * d < B + 2 * d
  {
    var e, rest := B * B - (B + di) * d, (nh * B + nl) - (hi + nh) * d;
    PreinvError(nh, nl, d, di, hi, lo, e, rest, B);
    MulLe(0, nh, e);
    MulLe(0, lo, d);
    MulLe(nh, d, e);
    MulLe(e, d, d);
    MulLe(lo, B - 1, d);
    MulLe(d, B - 1, d);
  }

  lemma PreinvError(nh: int, nl: int, d: int, di: int, hi: int, lo: int, e: int, rest: int, b: int)
    requires hi * b + lo == nh * di && (b + di) * d == b * b - e && rest == (nh * b + nl) - (hi + nh) * d
    ensures rest * b == nl * b + nh * e + lo * d
  {
    var q := hi + nh;
    assert q * b == nh * (b + di) - lo by { MulDistr(nh, b, di); MulDistr(b, hi, nh); }
    assert (q * b) * d == nh * (b * b - e) - lo * d by {
      MulDistr(d, nh * (b + di), lo);
      MulAssoc(nh, b + di, d);
    }
    assert (q * b) * d == (q * d) * b by { MulAssoc(q, b, d); }
    MulDistr(nh, b * b, e);
    MulDistr(b, nh * b + nl, q * d);
    MulDistr(b, nh * b, nl);
    MulAssoc(nh, b, b);
  }

  /** udiv_qrnnd_preinv (stdlib/gmp-impl.h): division by a multiplication and three corrections. */
  method UdivQrnndPreinv(nh: Limb, nl: Limb, d: Limb, di: Limb) returns (q: Limb, r: Limb)
    requires nh < d && d >= B / 2 && IsInverse(d, di)
    ensures q * d + r == nh * B + nl
    ensures r < d
  {
    ghost var n := nh * B + nl;
    var ql, xh, xl;
    q, ql := UmulPpmm(nh, di);
    PreinvEstimate(nh, nl, d, di, q, ql);
    EstimateFits(n, q + nh, d);
    q := Add(q, nh);
    xh, xl := UmulPpmm(q, d);
    xh, r := SubDdmmss(nh, nl, xh, xl);
    assert Remains(n, q, d, xh * B + r);
    q, r := PreinvCorrect(q, xh, r, d, n);
  }

  ghost predicate Remains(n: int, q: int, d: int, x: int) { n - q * d == x }

  /** The three corrections; a remainder of one limb is below 2d because d is normalized. */
  method PreinvCorrect(q0: Limb, xh0: Limb, r0: Limb, d: Limb, ghost n: int) returns (q: Limb, r: Limb)
    requires d >= B / 2 && n < d * B && Remains(n, q0, d, xh0 * B + r0) && xh0 * B + r0 < B + 2 * d
    ensures q * d + r == n && r < d
  {
    hide Remains;
    var xh;
    q, xh, r := q0, xh0, r0;
    if xh != 0 {
      q, xh, r := CorrectOnce(q, xh, r, d, n);
      if xh != 0 {
        q, xh, r := CorrectOnce(q, xh, r, d, n);
      }
    }
    if r >= d {
      q, xh, r := CorrectOnce(q, xh, r, d, n);
    }
    assert q * d + r == n by { RemainsMeans(n, q, d, r); }
  }

  lemma RemainsMeans(n: int, q: int, d: int, x: int)
    requires Remains(n, q, d, x)
    ensures n - q * d == x
  {
  }

  /** The quotient was one too small: take the divisor off the remainder `xh*B + r` once more. */
  method CorrectOnce(q: Limb, xh: Limb, r: Limb, d: Limb, ghost n: int) returns (q': Limb, xh': Limb, r': Limb)
    requires 0 < d && n < d * B && Remains(n, q, d, xh * B + r) && xh * B + r >= d
    ensures q' == q + 1 && Remains(n, q', d, xh' * B + r') && xh' * B + r' == xh * B + r - d
  {
    OneMore(q, d, n);
    xh', r' := SubDdmmss(xh, r, 0, d);
    q' := q + 1;
  }

  lemma EstimateFits(n: int, q: int, d: int)
    requires 0 < d && n < d * B && q * d <= n
    ensures q < B
  {
    if q >= B { MulLe(B, q, d); }
  }

  lemma OneMore(q: int, d: int, n: int)
    requires 0 < d && d <= n - q * d && n < d * B
    ensures (q + 1) * d == q * d + d && q + 1 < B
  {
    EstimateFits(n, q + 1, d);
  }

  /** One division step of either kind. */
  method DivStep(pre: bool, portable: bool, nh: Limb, nl: Limb, d: Limb, di: Limb) returns (q: Limb, r: Limb)
    requires nh < d && (pre ==> IsInverse(d, di)) && (pre || portable ==> d >= B / 2)
    ensures q * d + r == nh * B + nl
    ensures r < d
  {
    if pre {
      q, r := UdivQrnndPreinv(nh, nl, d, di);
    } else {
      q, r := UdivQrnnd(nh, nl, d, portable);
    }
  }

  /** The limbs from `i` up are divided by `d`, with quotient `quot` and remainder `r`. */
  ghost predicate DividedFrom(m: seq<Limb>, div: nat, i: nat, size: nat, d: int, quot: int, r: int)
    requires i <= size && div + size <= |m|
  {
    V(m, div + i, size - i) == quot * d + r
  }

  /** Bringing down the next limb: `q` is the next digit of the quotient. */
  lemma PlainTurn(m: seq<Limb>, div: nat, i: nat, size: nat, d: int, quot: int, r: int, q: int, r': int)
    requires i < size && div + size <= |m| && DividedFrom(m, div, i + 1, size, d, quot, r)
    requires q * d + r' == r * B + m[div + i]
    ensures DividedFrom(m, div, i, size, d, q + B * quot, r')
  {
    hide V;
    var n := size - (i + 1);
    VHead(m, div + i, n);
    PlainSum(m[div + i], V(m, div + (i + 1), n), quot, q, d, r, r');
  }

  lemma PlainSum(x: int, n: int, v: int, q: int, d: int, r: int, r': int)
    requires n == v * d + r && q * d + r' == r * B + x
    ensures x + B * n == (q + B * v) * d + r'
  {
    MulDistr(d, q, B * v);
    MulAssoc(B, v, d);
  }

  /** The same for the run shifted left by `s` bits, whose limb `i` still lacks its low bits. */
  ghost predicate ShiftedFrom(m: seq<Limb>, div: nat, i: nat, size: nat, s: nat, d: int, quot: int, r: int)
    requires i < size && div + size <= |m|
  {
    V(m, div + i, size - i) * Pow2(s) == B * (quot * d + r) + Shl(m[div + i], s)
  }

  lemma ShiftedStart(m: seq<Limb>, div: nat, size: nat, s: nat, d: int)
    requires size >= 1 && div + size <= |m| && 1 <= s < LIMB_BITS
    ensures ShiftedFrom(m, div, size - 1, size, s, d, 0, Shr(m[div + size - 1], LIMB_BITS - s))
    ensures Shr(m[div + size - 1], LIMB_BITS - s) < Pow2(s)
  {
    OneLimb(m, div + size - 1);
    var k := ShiftedLimb(m[div + size - 1], s);
  }

  lemma ShiftedTurn(m: seq<Limb>, div: nat, i: nat, size: nat, s: nat, d: int, quot: int, r: int, q: int, r': int)
    requires i + 1 < size && div + size <= |m| && 1 <= s < LIMB_BITS
    requires ShiftedFrom(m, div, i + 1, size, s, d, quot, r)
    requires q * d + r' == r * B + Shl(m[div + i + 1], s) + Shr(m[div + i], LIMB_BITS - s)
    ensures ShiftedFrom(m, div, i, size, s, d, q + B * quot, r')
  {
    hide V;
    hide Pow2;
    hide Shl;
    hide Shr;
    var n := size - (i + 1);
    var k := ShiftedLimb(m[div + i], s);
    VHead(m, div + i, n);
    ShiftedSum(m[div + i], V(m, div + (i + 1), n), Pow2(s), quot, d, r, q, r',
               Shl(m[div + (i + 1)], s), Shr(m[div + i], LIMB_BITS - s), Shl(m[div + i], s));
  }

  lemma ShiftedSum(x: int, v: int, p: int, quot: int, d: int, r: int, q: int, r': int, lo: int, hi: int, lo': int)
    requires v * p == B * (quot * d + r) + lo && q * d + r' == r * B + lo + hi && x * p == hi * B + lo'
    ensures (x + B * v) * p == B * ((q + B * quot) * d + r') + lo'
  {
    MulDistr(p, x, B * v);
    assert (B * v) * p == B * (v * p) by { MulAssoc(B, v, p); }
    MulDistr(d, q, B * quot);
    MulAssoc(B, quot, d);
  }

  /** Lines 181-184: the last digit, and the remainder shifted back. */
  lemma ShiftedDone(m: seq<Limb>, div: nat, size: nat, s: nat, d: int, quot: int, r: int, q: int, r': int)
    requires size >= 1 && div + size <= |m| && d >= 1
    requires ShiftedFrom(m, div, 0, size, s, d * Pow2(s), quot, r)
    requires q * (d * Pow2(s)) + r' == r * B + Shl(m[div], s) && 0 <= r' < d * Pow2(s)
    ensures DividedFrom(m, div, 0, size, d, q + B * quot, r' / Pow2(s)) && 0 <= r' / Pow2(s) < d
  {
    hide V;
    hide Pow2;
    hide Shl;
    ShiftedEnd(V(m, div, size), Pow2(s), quot, d, r, q, r', Shl(m[div], s));
  }

  /** The last step of the shifted run undoes the shift of the remainder. */
  lemma ShiftedEnd(n: int, p: int, quot: int, d: int, r: int, q: int, r': int, lo: int)
    requires p >= 1 && d >= 1 && n * p == B * (quot * (d * p) + r) + lo
    requires q * (d * p) + r' == r * B + lo && 0 <= r' < d * p
    ensures n == (q + B * quot) * d + r' / p && 0 <= r' / p < d
  {
    var t := q + B * quot;
    assert n * p == t * (d * p) + r' by {
      MulDistr(d * p, q, B * quot);
      MulAssoc(B, quot, d * p);
    }
    assert t * (d * p) == (t * d) * p by { MulAssoc(t, d, p); }
    assert r' == (n - t * d) * p by { MulDistr(p, n, t * d); }
    if n - t * d < 0 { MulLe(n - t * d, -1, p); }
    QuotRem(r', n - t * d, 0, p);
    if n - t * d >= d { MulLe(d, n - t * d, p); }
  }

  /** The high bits of a limb joined to the low bits of the limb above it. */
  method Joined(hi: Limb, lo: Limb, s: nat) returns (x: Limb)
    requires 1 <= s < LIMB_BITS
    ensures x == Shl(hi, s) + Shr(lo, LIMB_BITS - s)
  {
    ghost var k := ShiftedLimb(hi, s);
    ghost var k' := ShiftedLimb(lo, s);
    BitOrLow(k, Shr(lo, LIMB_BITS - s), s);
    Pow2Add(s, LIMB_BITS - s);
    Pow2Values();
    JoinFits(Shl(hi, s), Shr(lo, LIMB_BITS - s), k, Pow2(s), Pow2(LIMB_BITS - s));
    x := BitOr(Shl(hi, s), Shr(lo, LIMB_BITS - s));
  }

  lemma JoinFits(x: int, y: int, k: int, p: int, t: int)
    requires p * t == B && 0 < p && x == k * p && x < B && y < p
    ensures x + y < B
  {
    if k >= t { MulLe(t, k, p); }
    MulLe(k, t - 1, p);
    MulDistr(p, t, 1);
  }

  predicate DivArgs(len: nat, quot: nat, div: nat, size: nat)
  {
    && quot + size <= len && div + size <= len
    && (div <= quot || quot + size <= div)
  }

  /** Storing quotient limb `i` below those already there. */
  method Store(mem: array<Limb>, quot: nat, i: nat, size: nat, q: Limb, ghost m0: seq<Limb>)
    requires i < size && quot + size <= mem.Length && SameOutside(m0, mem[..], quot + i + 1, quot + size)
    modifies mem
    ensures V(mem[..], quot + i, size - i) == q + B * V(old(mem[..]), quot + (i + 1), size - (i + 1))
    ensures SameOutside(m0, mem[..], quot + i, quot + size)
  {
    hide V;
    ghost var m := mem[..];
    mem[quot + i] := q;
    Keep(m, mem[..], quot + i, quot + i + 1, quot + (i + 1), size - (i + 1));
    VHead(mem[..], quot + i, size - (i + 1));
  }

  /** The path without normalization (lines 190-206, and 132-149 with the inverse). */
  method DivPlain(pre: bool, portable: bool, mem: array<Limb>, quot: nat, div: nat, size: nat, d: Limb, di: Limb)
    returns (r: Limb)
    requires size >= 1 && d >= 1 && DivArgs(mem.Length, quot, div, size)
    requires (pre ==> IsInverse(d, di)) && (pre || portable ==> d >= B / 2)
    modifies mem
    ensures r < d && DividedFrom(old(mem[..]), div, 0, size, d, V(mem[..], quot, size), r)
    ensures SameOutside(old(mem[..]), mem[..], quot, quot + size)
  {
    ghost var m0 := mem[..];
    var i := size;
    r := mem[div + size - 1];
    if r >= d {
      r := 0;
    } else {
      mem[quot + size - 1] := 0;
      i := size - 1;
      OneLimb(m0, div + size - 1);
      OneLimb(mem[..], quot + size - 1);
    }
    hide V;
    hide P;
    hide IsInverse;
    hide DividedFrom;
    while i > 0
      invariant 0 <= i <= size && r < d
      invariant DividedFrom(m0, div, i, size, d, V(mem[..], quot + i, size - i), r)
      invariant SameOutside(m0, mem[..], quot + i, quot + size)
    {
      i := i - 1;
      ghost var m, r0 := mem[..], r;
      var q;
      q, r := DivStep(pre, portable, r, mem[div + i], d, di);
      PlainTurn(m0, div, i, size, d, V(m, quot + (i + 1), size - (i + 1)), r0, q, r);
      Store(mem, quot, i, size, q, m0);
    }
  }

  /** The path that shifts divisor and dividend left by `s` bits (lines 161-184 and 94-115). */
  method DivShifted(pre: bool, mem: array<Limb>, quot: nat, div: nat, size: nat, d: Limb, s: nat, di: Limb)
    returns (r: Limb)
    requires size >= 1 && d >= 1 && DivArgs(mem.Length, quot, div, size)
    requires 1 <= s < LIMB_BITS && B / 2 <= d * Pow2(s) < B
    requires pre ==> IsInverse(d * Pow2(s), di)
    modifies mem
    ensures r < d && DividedFrom(old(mem[..]), div, 0, size, d, V(mem[..], quot, size), r)
    ensures SameOutside(old(mem[..]), mem[..], quot, quot + size)
  {
    ghost var m0 := mem[..];
    var dn: Limb := d * Pow2(s);
    var n1 := mem[div + size - 1];
    r := Shr(n1, LIMB_BITS - s);
    ShiftedStart(m0, div, size, s, dn);
    MulLe(1, d, Pow2(s));
    assert V(m0, quot + size, 0) == 0;
    hide V;
    hide P;
    hide Pow2;
    hide Shl;
    hide Shr;
    hide IsInverse;
    hide ShiftedFrom;
    hide DividedFrom;
    var i := size - 1;
    while i > 0
      invariant 0 <= i < size && r < dn && n1 == m0[div + i]
      invariant ShiftedFrom(m0, div, i, size, s, dn, V(mem[..], quot + (i + 1), size - (i + 1)), r)
      invariant SameOutside(m0, mem[..], quot + (i + 1), quot + size)
    {
      i := i - 1;
      n1, r := OneShifted(pre, mem, quot, div, size, i, n1, r, dn, s, di, m0);
    }
    ghost var m, r0 := mem[..], r;
    var q;
    q, r := DivStep(pre, true, r, Shl(n1, s), dn, di);
    ShiftedDone(m0, div, size, s, d, V(m, quot + 1, size - 1), r0, q, r);
    Store(mem, quot, 0, size, q, m0);
    r := r / Pow2(s);
  }

  /** Lines 174-179 (and 105-110): one quotient limb, from two neighbouring limbs of the dividend. */
  method OneShifted(pre: bool, mem: array<Limb>, quot: nat, div: nat, size: nat, i: nat, n1: Limb, r: Limb, dn: Limb,
                    s: nat, di: Limb, ghost m0: seq<Limb>) returns (n0: Limb, r': Limb)
    requires DivArgs(mem.Length, quot, div, size) && |m0| == mem.Length && i + 1 < size && n1 == m0[div + i + 1]
    requires 1 <= s < LIMB_BITS && r < dn && dn >= B / 2 && (pre ==> IsInverse(dn, di))
    requires ShiftedFrom(m0, div, i + 1, size, s, dn, V(mem[..], quot + (i + 2), size - (i + 2)), r)
    requires SameOutside(m0, mem[..], quot + (i + 2), quot + size)
    modifies mem
    ensures r' < dn && n0 == m0[div + i]
    ensures ShiftedFrom(m0, div, i, size, s, dn, V(mem[..], quot + (i + 1), size - (i + 1)), r')
    ensures SameOutside(m0, mem[..], quot + (i + 1), quot + size)
  {
    hide V;
    hide P;
    hide Pow2;
    hide Shl;
    hide Shr;
    hide IsInverse;
    hide ShiftedFrom;
    ghost var m := mem[..];
    n0 := mem[div + i];
    var x := Joined(n1, n0, s);
    var q;
    q, r' := DivStep(pre, true, r, x, dn, di);
    ShiftedTurn(m0, div, i, size, s, dn, V(m, quot + (i + 2), size - (i + 2)), r, q, r');
    Store(mem, quot, i + 1, size, q, m0);
  }

  lemma DividedMeans(m: seq<Limb>, div: nat, size: nat, d: int, quot: int, r: int)
    requires div + size <= |m| && 0 <= r < d && DividedFrom(m, div, 0, size, d, quot, r)
    ensures V(m, div, size) == quot * d + r
    ensures quot == V(m, div, size) / d && r == V(m, div, size) % d
  {
    QuotRem(V(m, div, size), quot, r, d);
  }

  /** The test of lines 71-72. */
  predicate UseInverse(udivTime: int, umulTime: int, size: nat)
  {
    udivTime > 2 * umulTime + 6 && (udivTime - (2 * umulTime + 6)) * size > udivTime
  }

  /** mpn_divmod_1: exact quotient and remainder on every path, also in place. */
  method DivMod1(mem: array<Limb>, quot: nat, div: nat, size: nat, d: Limb,
                 udivTime: int, umulTime: int, needsNormalization: bool) returns (r: Limb)
    requires d != 0 && DivArgs(mem.Length, quot, div, size)
    modifies mem
    ensures V(old(mem[..]), div, size) == V(mem[..], quot, size) * d + r && r < d
    ensures V(mem[..], quot, size) == V(old(mem[..]), div, size) / d && r == V(old(mem[..]), div, size) % d
    ensures SameOutside(old(mem[..]), mem[..], quot, quot + size)
  {
    ghost var m0 := mem[..];
    var di := 0;
    var pre := UseInverse(udivTime, umulTime, size);
    if size == 0 {
      r := 0;
    } else if pre || needsNormalization {
      var s := CountLeadingZeros(d);
      if s != 0 {
        if pre { di := InvertLimb(d * Pow2(s)); }
        r := DivShifted(pre, mem, quot, div, size, d, s, di);
      } else {
        if pre { di := InvertLimb(d); }
        r := DivPlain(pre, true, mem, quot, div, size, d, di);
      }
    } else {
      r := DivPlain(false, false, mem, quot, div, size, d, di);
    }
    hide V;
    DividedMeans(m0, div, size, d, V(mem[..], quot, size), r);
  }

  method ModPlain(pre: bool, portable: bool, mem: array<Limb>, div: nat, size: nat, d: Limb, di: Limb) returns (r: Limb)
    requires size >= 1 && d >= 1 && div + size <= mem.Length
    requires (pre ==> IsInverse(d, di)) && (pre || portable ==> d >= B / 2)
    ensures r == V(mem[..], div, size) % d
  {
    var i := size;
    r := mem[div + size - 1];
    ghost var quot := 0;
    if r >= d {
      r := 0;
    } else {
      i := size - 1;
      OneLimb(mem[..], div + size - 1);
    }
    hide V;
    hide IsInverse;
    hide DividedFrom;
    while i > 0
      invariant 0 <= i <= size && r < d
      invariant DividedFrom(mem[..], div, i, size, d, quot, r)
    {
      i := i - 1;
      ghost var r0 := r;
      var q;
      q, r := DivStep(pre, portable, r, mem[div + i], d, di);
      PlainTurn(mem[..], div, i, size, d, quot, r0, q, r);
      quot := q + B * quot;
    }
    DividedMeans(mem[..], div, size, d, quot, r);
  }

  method ModShifted(pre: bool, mem: array<Limb>, div: nat, size: nat, d: Limb, s: nat, di: Limb) returns (r: Limb)
    requires size >= 1 && d >= 1 && div + size <= mem.Length
    requires 1 <= s < LIMB_BITS && B / 2 <= d * Pow2(s) < B
    requires pre ==> IsInverse(d * Pow2(s), di)
    ensures r == V(mem[..], div, size) % d
  {
    var dn: Limb := d * Pow2(s);
    var n1 := mem[div + size - 1];
    r := Shr(n1, LIMB_BITS - s);
    ShiftedStart(mem[..], div, size, s, dn);
    MulLe(1, d, Pow2(s));
    hide V;
    hide Pow2;
    hide Shl;
    hide Shr;
    hide IsInverse;
    hide ShiftedFrom;
    hide DividedFrom;
    var i := size - 1;
    ghost var quot := 0;
    while i > 0
      invariant 0 <= i < size && r < dn && n1 == mem[div + i]
      invariant ShiftedFrom(mem[..], div, i, size, s, dn, quot, r)
    {
      i := i - 1;
      ghost var r0 := r;
      var n0 := mem[div + i];
      var x := Joined(n1, n0, s);
      var q;
      q, r := DivStep(pre, true, r, x, dn, di);
      ShiftedTurn(mem[..], div, i, size, s, dn, quot, r0, q, r);
      quot := q + B * quot;
      n1 := n0;
    }
    ghost var r0 := r;
    var q;
    q, r := DivStep(pre, true, r, Shl(n1, s), dn, di);
    ShiftedDone(mem[..], div, size, s, d, quot, r0, q, r);
    r := r / Pow2(s);
    DividedMeans(mem[..], div, size, d, q + B * quot, r);
  }

  /** mpn_mod_1: the same remainder as mpn_divmod_1, on every path. */
  method Mod1(mem: array<Limb>, div: nat, size: nat, d: Limb, udivTime: int, umulTime: int, needsNormalization: bool)
    returns (r: Limb)
    requires d != 0 && div + size <= mem.Length
    ensures r < d && r == V(mem[..], div, size) % d
  {
    var di := 0;
    var pre := UseInverse(udivTime, umulTime, size);
    if size == 0 {
      r := 0;
    } else if pre || needsNormalization {
      var s := CountLeadingZeros(d);
      if s != 0 {
        if pre { di := InvertLimb(d * Pow2(s)); }
        r := ModShifted(pre, mem, div, size, d, s, di);
      } else {
        if pre { di := InvertLimb(d); }
        r := ModPlain(pre, true, mem, div, size, d, di);
      }
    } else {
      r := ModPlain(false, false, mem, div, size, d, di);
    }
  }
}
