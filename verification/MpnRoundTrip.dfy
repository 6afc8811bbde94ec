/** Multiplication and division undo each other: mpn_mul (gmp/mpn-mul.c), then mpn_divrem (gmp/mpn-divrem.c). */
module MpnRoundTrip {
  import opened Limbs
  import opened MpnMul
  import opened MpnDivRem

  /** What mpn_divrem stores is the only quotient and remainder there is. */
  lemma DivisionUnique(n: nat, d: nat, msq: nat, top: nat, q: nat, r: nat)
    requires n == (msq * top + q) * d + r && r < d
    ensures msq * top + q == n / d && r == n % d
  {
    QuotRem(n, msq * top + q, r, d);
  }

  /** A product U * V + 0 divided by V: quotient U, no carry, no remainder. */
  lemma ProductDivides(u: nat, v: nat, msq: nat, top: nat, q: nat, r: nat)
    requires (msq * top + q) * v + r == u * v && r < v && u < top
    ensures msq == 0 && q == u && r == 0
  {
    QuotRem(u * v, msq * top + q, r, v);
    QuotRem(u * v, u, 0, v);
    if msq > 0 { MulLe(1, msq, top); }
  }

  // ----- The overlap rule -----

  /** t limbs, all of them one. */
  ghost function Ones(t: nat): int { V(seq(t, _ => 1), 0, t) }

  /** Where quotient and remainder share a limb, there is for every divisor a numerator whose quotient and
      remainder no memory can hold: all limbs of the one are 1, of the other 0. */
  lemma NoRoom(m: seq<Limb>, qp: nat, t: nat, np: nat, dsize: nat, d: int, msq: nat)
    requires qp + t <= |m| && np + dsize <= |m| && t >= 1 && dsize >= 1 && 0 < d < P(dsize)
    requires !(np + dsize <= qp || qp + t <= np)
    ensures 0 <= Ones(t) * d < P(t + dsize)
    ensures !(Ones(t) * d == (msq * P(t) + V(m, qp, t)) * d + V(m, np, dsize) && V(m, np, dsize) < d)
  {
    OnesFit(t, d, dsize);
    VBound(m, qp, t);
    if Ones(t) * d == (msq * P(t) + V(m, qp, t)) * d + V(m, np, dsize) && V(m, np, dsize) < d {
      ProductDivides(Ones(t), d, msq, P(t), V(m, qp, t), V(m, np, dsize));
      VZeros(dsize);
      var shared := m[if qp < np then np else qp];
      VUnique(m, qp, seq(t, _ => 1), 0, t);
      VUnique(m, np, seq(dsize, _ => 0), 0, dsize);
    }
  }

  lemma OnesFit(t: nat, d: int, dsize: nat)
    requires 0 < d < P(dsize)
    ensures 0 <= Ones(t) < P(t) && 0 <= Ones(t) * d < P(t + dsize)
  {
    VBound(seq(t, _ => 1), 0, t);
    MulLe(0, Ones(t), d);
    MulLe(Ones(t), P(t), d);
    MulLt(d, P(dsize), P(t));
    PAdd(t, dsize);
  }

  lemma {:induction false} VZeros(n: nat)
    ensures V(seq(n, _ => 0), 0, n) == 0
  {
    if n != 0 {
      VZeros(n - 1);
      VSame(seq(n, _ => 0), 0, seq(n - 1, _ => 0), 0, n - 1);
    }
  }

  /** Multiplying U by a divisor V with its top bit set and dividing the product by V again leaves U in the
      quotient and zero in the remainder's place, for all sizes. */
  method MulThenDivrem(thr: nat, mem: array<Limb>, prodp: nat, up: nat, usize: nat, vp: nat, vsize: nat, sp: nat,
                       qp: nat)
    returns (msq: Limb)
    requires thr >= 2 && usize >= vsize >= 1 && vp + vsize <= mem.Length
    requires BlockArgs(mem.Length, prodp, up, usize, vp, vsize, sp, Scratch(thr, usize, vsize))
    requires DivremArgs(mem.Length, qp, 0, prodp, usize + vsize, vp, vsize) && mem[vp + vsize - 1] >= B / 2
    modifies mem
    ensures msq == 0 && V(mem[..], qp, usize) == V(old(mem[..]), up, usize)
    ensures V(mem[..], prodp, vsize) == 0
  {
    hide V;
    hide P;
    hide SameOutside2;
    ghost var m0 := mem[..];
    var top := Mul(thr, mem, prodp, up, usize, vp, vsize, sp);
    ghost var m1 := mem[..];
    Keep2(m0, m1, prodp, usize + vsize, sp, Scratch(thr, usize, vsize), vp, vsize);
    TopLimbKept(m0, m1, vp, vsize);
    msq := Divrem(mem, qp, 0, prodp, usize + vsize, vp, vsize);
    QuotientBack(mem[..], m0, m1, qp, prodp, up, usize, vp, vsize, msq);
  }

  lemma TopLimbKept(s: seq<Limb>, t: seq<Limb>, vp: nat, vsize: nat)
    requires vsize >= 1 && vp + vsize <= |s| == |t| && V(s, vp, vsize) == V(t, vp, vsize)
    ensures s[vp + vsize - 1] == t[vp + vsize - 1]
  {
    VUnique(s, vp, t, vp, vsize);
  }

  lemma QuotientBack(m2: seq<Limb>, m0: seq<Limb>, m1: seq<Limb>, qp: nat, prodp: nat, up: nat, usize: nat, vp: nat,
                     vsize: nat, msq: Limb)
    requires |m0| == |m1| == |m2| && usize >= vsize >= 1
    requires qp + usize <= |m0| && prodp + usize + vsize <= |m0| && up + usize <= |m0| && vp + vsize <= |m0|
    requires V(m1, vp, vsize) == V(m0, vp, vsize)
    requires V(m1, prodp, usize + vsize) == V(m0, up, usize) * V(m0, vp, vsize)
    requires V(m2, prodp, vsize) < V(m1, vp, vsize)
    requires V(m1, prodp, usize + vsize) * P(0)
          == (msq * P(0 + (usize + vsize) - vsize) + V(m2, qp, 0 + (usize + vsize) - vsize)) * V(m1, vp, vsize)
              + V(m2, prodp, vsize)
    ensures msq == 0 && V(m2, qp, usize) == V(m0, up, usize) && V(m2, prodp, vsize) == 0
  {
    assert P(0) == 1;
    VBound(m0, up, usize);
    VBound(m2, qp, usize);
    VBound(m2, prodp, vsize);
    VBound(m0, vp, vsize);
    hide V;
    hide P;
    assert 0 + (usize + vsize) - vsize == usize;
    ProductDivides(V(m0, up, usize), V(m0, vp, vsize), msq, P(usize), V(m2, qp, usize), V(m2, prodp, vsize));
  }
}
