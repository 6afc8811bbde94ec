/** Long division with fraction limbs: gmp/mpn-divrem.c. */
module MpnDivRem {
  import opened Limbs
  import opened LongLong
  import opened MpnLow
  import opened DivTheory

  // ----- Quotient limb estimates -----

  /** `w` is q times the second divisor limb and `v` what the candidate q leaves of the dividend. */
  ghost predicate Candidate(q: int, d1: int, d2: int, t3: int, w: int, v: int)
  {
    w == q * d1 && v == t3 - q * d2
  }

  /** The correction loop (lines 147-158 and 216-224).  The three limbs `t3` are divided by the two
      limbs `dX, d1`; `q` starts out too large at worst, `r, x2` less `n1, n0` is what it leaves.
      At most two corrections are made, because two of them carry out of `r`. */
  method Correct(q0: Limb, r0: Limb, w1: Limb, w0: Limb, x2: Limb, dX: Limb, d1: Limb, ghost t3: int)
    returns (q: Limb, r: Limb, n1: Limb, n0: Limb, ghost over: nat)
    requires dX >= B / 2
    requires Candidate(q0, d1, dX * B + d1, t3, w1 * B + w0, r0 * B + x2 - (w1 * B + w0))
    requires r0 * B + x2 - (w1 * B + w0) < dX * B + d1
    ensures Exact(t3, q, dX * B + d1) && over <= 2
    ensures var v := r * B + x2 - (n1 * B + n0);
            t3 - q * (dX * B + d1) == if v >= 0 then v else v + B * B
  {
    ghost var d2 := dX * B + d1;
    q, r, n1, n0, over := q0, r0, w1, w0, 0;
    ghost var w, v := n1 * B + n0, r * B + x2 - (n1 * B + n0);
    hide Candidate;
    while n1 > r || (n1 == r && n0 > x2)
      invariant Candidate(q, d1, d2, t3, w, v) && w == n1 * B + n0
      invariant v == r * B + x2 - w && v < d2
      invariant 0 <= over <= 1 && r >= over * dX
      decreases B - r
    {
      CandidateDown(q, d1, d2, t3, w, v);
      q, over := q - 1, over + 1;
      w, v := w - d1, v + d2;
      n1, n0 := SubDdmmss(n1, n0, 0, d1);
      r := Add(r, dX);
      if r < dX {
        break;
      }
    }
    CandidateIsExact(q, d1, d2, t3, w, v);
  }

  /** Lines 204-222: the quotient of the top three limbs by the top two, or all ones. */
  method EstimateLimb(n: Limb, x1: Limb, x2: Limb, dX: Limb, d1: Limb) returns (q: Limb)
    requires dX >= B / 2 && n <= dX
    ensures n == dX ==> q == B - 1
    ensures n < dX ==> Exact(n * (B * B) + x1 * B + x2, q, dX * B + d1)
  {
    if n == dX {
      q := B - 1;
    } else {
      var r, n1, n0;
      q, r := UdivQrnnd(n, x1, dX, true);
      n1, n0 := UmulPpmm(d1, q);
      EstimateStart(n, x1, x2, dX, d1, q, r);
      ghost var over;
      q, r, n1, n0, over := Correct(q, r, n1, n0, x2, dX, d1, n * (B * B) + x1 * B + x2);
    }
  }

  /** One quotient limb for a two-limb divisor (lines 119-160): from the remainder `n1, n0` and the
      next limb `x`, the exact quotient limb and the next remainder. */
  method StepTwo(n1: Limb, n0: Limb, x: Limb, d1: Limb, d0: Limb) returns (q: Limb, r1: Limb, r0: Limb, ghost over: nat)
    requires d1 >= B / 2 && n1 * B + n0 < d1 * B + d0
    ensures q * (d1 * B + d0) + (r1 * B + r0) == (n1 * B + n0) * B + x
    ensures r1 * B + r0 < d1 * B + d0
    ensures over <= 2
  {
    ghost var d, t3 := d1 * B + d0, n1 * (B * B) + n0 * B + x;
    var r, w1, w0;
    if n1 == d1 {
      q := B - 1;
      r := Add(n0, d1);
      AllOnesStart(n0, x, d1, d0);
      if r < d1 {
        r1, r0 := AddSsaaaa(Sub(r, d0), x, 0, d0);
        over := 0;
        return;
      }
      w1 := d0 - (if d0 != 0 then 1 else 0);
      w0 := Sub(0, d0);
    } else {
      q, r := UdivQrnnd(n1, n0, d1, true);
      w1, w0 := UmulPpmm(d0, q);
      EstimateStart(n1, n0, x, d1, d0, q, r);
    }
    q, r, w1, w0, over := Correct(q, r, w1, w0, x, d1, d0, t3);
    r1, r0 := SubDdmmss(r, x, w1, w0);
  }

  /** With equal top limbs, all ones leave (n0 + d1)*B + x - (B-1)*d0, which is below the divisor. */
  lemma AllOnesStart(n0: int, x: int, d1: int, d0: int)
    requires 0 <= n0 < d0 && 0 <= x < B
    ensures (d1 * (B * B) + n0 * B + x) - (B - 1) * (d1 * B + d0) == (n0 + d1) * B + x - (d0 * B - d0)
    ensures (n0 + d1) * B + x - (d0 * B - d0) < d1 * B + d0
  {
  }

  lemma EstimateStart(n: int, x1: int, x2: int, dX: int, d1: int, q: int, r: int)
    requires q * dX + r == n * B + x1 && 0 <= r < dX && 0 <= x2 < B && 0 <= d1 && 0 <= q
    ensures (n * (B * B) + x1 * B + x2) - q * (dX * B + d1) == r * B + x2 - q * d1
    ensures r * B + x2 - q * d1 < dX * B + d1
  {
    MulDistr(q, dX * B, d1);
    assert q * (dX * B) == (q * dX) * B by { MulAssoc(q, dX, B); }
    MulLe(0, q, d1);
  }

  lemma CandidateDown(q: int, d1: int, d2: int, t3: int, w: int, v: int)
    requires Candidate(q, d1, d2, t3, w, v) && w > 0 && q >= 0 && d1 >= 0
    ensures q >= 1 && w >= d1 && Candidate(q - 1, d1, d2, t3, w - d1, v + d2)
  {
    if q >= 1 { MulLe(1, q, d1); }
    MulDistr(d1, q, 1);
    MulDistr(d2, q, 1);
  }

  lemma CandidateIsExact(q: int, d1: int, d2: int, t3: int, w: int, v: int)
    requires Candidate(q, d1, d2, t3, w, v) && 0 <= v < d2
    ensures Exact(t3, q, d2) && v == t3 - q * d2
  {
  }

  /** One quotient limb for a divisor of three limbs or more (lines 204-238): the `dsize + 1` limbs at
      `at` are reduced below the divisor in place. */
  method StepLarge(mem: array<Limb>, at: nat, dp: nat, dsize: nat, dX: Limb, d1: Limb, n0: Limb, n2: Limb)
    returns (q: Limb)
    requires dsize >= 3 && at + dsize + 1 <= mem.Length && dp + dsize <= mem.Length
    requires Apart(at, dsize + 1, dp, dsize)
    requires dX == mem[dp + dsize - 1] && d1 == mem[dp + dsize - 2] && dX >= B / 2
    requires n0 == n2 == mem[at + dsize]
    requires V(mem[..], at, dsize + 1) < V(mem[..], dp, dsize) * B
    modifies mem
    ensures Exact(V(old(mem[..]), at, dsize + 1), q, V(old(mem[..]), dp, dsize))
    ensures V(mem[..], at, dsize) == V(old(mem[..]), at, dsize + 1) - q * V(old(mem[..]), dp, dsize)
    ensures SameOutside(old(mem[..]), mem[..], at, at + dsize)
  {
    hide V;
    hide P;
    hide Exact;
    hide AtMostOneOver;
    ghost var m0 := mem[..];
    ghost var x, d := V(m0, at, dsize + 1), V(m0, dp, dsize);
    TopLimbAtMost(m0, at, dp, dsize);
    q := EstimateLimb(n0, mem[at + dsize - 1], mem[at + dsize - 2], dX, d1);
    EstimateIsClose(m0, at, dp, dsize, q);
    var cy := SubMul1(mem, at, dp, dsize, q);
    ghost var m1 := mem[..];
    Keep(m0, m1, at, at + dsize, dp, dsize);
    VTop(m0, at, dsize);
    VBound(m0, dp, dsize);
    VBound(m1, at, dsize);
    DivisorPositive(m0, dp, dsize);
    AddBackTest(V(m0, at, dsize), n2, q, d, P(dsize), V(m1, at, dsize), cy);
    if n2 != cy {
      var c := AddN(mem, at, at, dp, dsize);
      VBound(mem[..], at, dsize);
      AddBackCarry(V(mem[..], at, dsize), c, P(dsize), V(m1, at, dsize) + d, d);
      QuotientPositive(x, q - 1, d);
      q := q - 1;
      SameTrans(m0, m1, mem[..], at, at + dsize, at, at + dsize, at, at + dsize);
    }
  }

  lemma VTop(s: seq<Limb>, a: nat, n: nat)
    requires a + n < |s|
    ensures V(s, a, n + 1) == V(s, a, n) + s[a + n] * P(n)
  {
  }

  lemma DivisorPositive(s: seq<Limb>, dp: nat, dsize: nat)
    requires dsize >= 1 && dp + dsize <= |s| && s[dp + dsize - 1] >= 1
    ensures V(s, dp, dsize) > 0
  {
    VTop(s, dp, dsize - 1);
    MulLe(1, s[dp + dsize - 1], P(dsize - 1));
  }

  lemma AddBackCarry(v: int, c: int, p: int, s: int, d: int)
    requires v + c * p == s && 0 <= v < p && 0 <= s - p < d < p && 0 <= c
    ensures c == 1 && v == s - p
  {
    if c >= 2 { MulLe(2, c, p); }
  }

  lemma QuotientPositive(x: int, q: int, d: int)
    requires Exact(x, q, d) && x >= 0 && d > 0
    ensures q >= 0
  {
    if q < 0 { MulLe(q, -1, d); }
  }

  /** A number below the divisor times B has a top limb of at most the divisor's. */
  lemma TopLimbAtMost(m: seq<Limb>, at: nat, dp: nat, dsize: nat)
    requires dsize >= 1 && at + dsize + 1 <= |m| && dp + dsize <= |m|
    requires V(m, at, dsize + 1) < V(m, dp, dsize) * B
    ensures m[at + dsize] <= m[dp + dsize - 1]
  {
    VTop(m, at, dsize);
    VTop(m, dp, dsize - 1);
    VBound(m, dp, dsize - 1);
    var n, dX, p := m[at + dsize], m[dp + dsize - 1], P(dsize - 1);
    assert P(dsize) == B * p;
    TopLimbCmp(V(m, at, dsize), n, V(m, dp, dsize - 1), dX, p);
  }

  lemma TopLimbCmp(low: int, n: int, dlow: int, dX: int, p: int)
    requires p >= 1 && 0 <= low && 0 <= dlow < p
    requires low + n * (B * p) < (dlow + dX * p) * B
    ensures n <= dX
  {
    if n >= dX + 1 {
      MulLe(dX + 1, n, B * p);
      MulDistr(B * p, dX, 1);
      MulAssoc(dX, B, p);
    }
  }

  lemma EstimateIsClose(m: seq<Limb>, at: nat, dp: nat, dsize: nat, q: Limb)
    requires dsize >= 3 && at + dsize + 1 <= |m| && dp + dsize <= |m|
    requires m[dp + dsize - 1] >= B / 2 && V(m, at, dsize + 1) < V(m, dp, dsize) * B
    requires m[at + dsize] == m[dp + dsize - 1] ==> q == B - 1
    requires m[at + dsize] <= m[dp + dsize - 1]
    requires m[at + dsize] < m[dp + dsize - 1] ==>
               Exact(m[at + dsize] * (B * B) + m[at + dsize - 1] * B + m[at + dsize - 2], q,
                     m[dp + dsize - 1] * B + m[dp + dsize - 2])
    ensures AtMostOneOver(V(m, at, dsize + 1), q, V(m, dp, dsize))
  {
    var n, x1, x2, dX, d1, p := m[at + dsize], m[at + dsize - 1], m[at + dsize - 2], m[dp + dsize - 1],
        m[dp + dsize - 2], P(dsize - 2);
    var xlow, dlow := V(m, at, dsize - 2), V(m, dp, dsize - 2);
    VBound(m, at, dsize - 2);
    VBound(m, dp, dsize - 2);
    assert P(dsize - 1) == B * p && P(dsize) == B * (B * p);
    assert V(m, at, dsize + 1) == xlow + x2 * p + x1 * (B * p) + n * (B * (B * p)) by {
      VTop(m, at, dsize); VTop(m, at, dsize - 1); VTop(m, at, dsize - 2);
    }
    assert V(m, dp, dsize) == dlow + d1 * p + dX * (B * p) by {
      VTop(m, dp, dsize - 1); VTop(m, dp, dsize - 2);
    }
    hide V;
    hide P;
    CloseCases(n, x1, x2, xlow, dX, d1, dlow, p, q);
  }

  lemma CloseCases(n: int, x1: int, x2: int, xlow: int, dX: int, d1: int, dlow: int, p: int, q: int)
    requires p >= 1 && 0 <= xlow < p && 0 <= dlow < p && 0 <= x1 < B && 0 <= x2 < B && 0 <= d1 < B && B / 2 <= dX < B
    requires 0 <= n <= dX && 0 <= q < B
    requires n == dX ==> q == B - 1
    requires n < dX ==> Exact(n * (B * B) + x1 * B + x2, q, dX * B + d1)
    requires xlow + x2 * p + x1 * (B * p) + n * (B * (B * p)) < (dlow + d1 * p + dX * (B * p)) * B
    ensures AtMostOneOver(xlow + x2 * p + x1 * (B * p) + n * (B * (B * p)), q, dlow + d1 * p + dX * (B * p))
  {
    var x, d := xlow + x2 * p + x1 * (B * p) + n * (B * (B * p)), dlow + d1 * p + dX * (B * p);
    if n < dX {
      var t3, d2 := n * (B * B) + x1 * B + x2, dX * B + d1;
      Regroup(n, x1, x2, xlow, p);
      assert d == d2 * p + dlow by { MulDistr(p, dX * B, d1); MulAssoc(dX, B, p); }
      TopQuotientBound(t3, xlow, d2, dlow, p, q);
    } else {
      MulLe(0, x2, p);
      MulLe(0, x1, B * p);
      assert n * (B * (B * p)) == dX * (B * B * p);
      MulLe(d1, B - 1, p);
      MulDistr(B * p, dX, 1);
      MulLe(B / 2, dX, B * p);
      AllOnesBound(x, d, dX, p);
    }
  }

  lemma Regroup(n: int, x1: int, x2: int, xlow: int, p: int)
    ensures xlow + x2 * p + x1 * (B * p) + n * (B * (B * p)) == (n * (B * B) + x1 * B + x2) * p + xlow
  {
    MulDistr(p, n * (B * B) + x1 * B, x2);
    MulDistr(p, n * (B * B), x1 * B);
    MulAssoc(x1, B, p);
    MulAssoc(n, B * B, p);
  }

  // ----- The quotient, limb by limb -----

  /** The numerator with `qx` fraction limbs appended, without its lowest `i` limbs. */
  ghost function Numer(m: seq<Limb>, np: nat, nsize: nat, qx: nat, i: nat): int
    requires np + nsize <= |m| && i <= qx + nsize
  {
    if i >= qx then V(m, np + (i - qx), nsize - (i - qx)) else V(m, np, nsize) * P(qx - i)
  }

  ghost function NextLimb(m: seq<Limb>, np: nat, nsize: nat, qx: nat, i: nat): int
    requires np + nsize <= |m| && i < qx + nsize
  {
    if i >= qx then m[np + (i - qx)] else 0
  }

  lemma NumerStep(m: seq<Limb>, np: nat, nsize: nat, qx: nat, i: nat)
    requires np + nsize <= |m| && i < qx + nsize
    ensures Numer(m, np, nsize, qx, i) == Numer(m, np, nsize, qx, i + 1) * B + NextLimb(m, np, nsize, qx, i)
  {
    if i >= qx {
      VHead(m, np + (i - qx), nsize - (i - qx) - 1);
    } else {
      var v, p := V(m, np, nsize), P(qx - (i + 1));
      assert P(qx - i) == B * p;
      MulAssoc(v, B, p);
      if i + 1 == qx { assert P(0) == 1; }
    }
  }

  /** The `n` quotient limbs `qv` below the leading quotient limb `msq`, and the remainder `r`, so far. */
  ghost predicate QuotSoFar(m: seq<Limb>, np: nat, nsize: nat, qx: nat, i: nat, n: nat, msq: int, qv: int, d: int,
                            r: int)
    requires np + nsize <= |m| && i <= qx + nsize
  {
    Numer(m, np, nsize, qx, i) == (msq * P(n) + qv) * d + r
  }

  lemma QuotTurn(m: seq<Limb>, np: nat, nsize: nat, qx: nat, i: nat, n: nat, msq: int, qv: int, d: int, r: int,
                 q: int, r': int)
    requires np + nsize <= |m| && i < qx + nsize
    requires QuotSoFar(m, np, nsize, qx, i + 1, n, msq, qv, d, r)
    requires q * d + r' == r * B + NextLimb(m, np, nsize, qx, i)
    ensures QuotSoFar(m, np, nsize, qx, i, n + 1, msq, q + B * qv, d, r')
  {
    hide V;
    hide Numer;
    hide NextLimb;
    NumerStep(m, np, nsize, qx, i);
    assert msq * P(n + 1) == B * (msq * P(n)) by { MulAssoc(B, msq, P(n)); }
    QuotSum(Numer(m, np, nsize, qx, i + 1), NextLimb(m, np, nsize, qx, i), msq * P(n), qv, d, r, q, r');
  }

  lemma QuotSum(e: int, x: int, top: int, qv: int, d: int, r: int, q: int, r': int)
    requires e == (top + qv) * d + r && q * d + r' == r * B + x
    ensures e * B + x == (B * top + (q + B * qv)) * d + r'
  {
    assert ((top + qv) * d) * B == (B * (top + qv)) * d by { MulAssoc(B, top + qv, d); }
    MulDistr(d, B * (top + qv), q);
  }

  /** Quotient limbs `i` and up are stored at `qp`; `t` of them there will be. */
  ghost predicate Progress(m: seq<Limb>, np: nat, nsize: nat, qx: nat, s: seq<Limb>, qp: nat, t: nat, i: nat,
                           msq: int, d: int, r: int)
    requires np + nsize <= |m| && i <= t <= qx + nsize && qp + t <= |s|
  {
    QuotSoFar(m, np, nsize, qx, i, t - i, msq, V(s, qp + i, t - i), d, r)
  }

  lemma ProgressStart(m: seq<Limb>, np: nat, nsize: nat, qx: nat, s: seq<Limb>, qp: nat, dsize: nat, msq: int, d: int,
                      r: int)
    requires np + nsize <= |m| && dsize <= nsize && qp + (qx + nsize - dsize) <= |s|
    requires V(m, np + (nsize - dsize), dsize) == msq * d + r
    ensures Progress(m, np, nsize, qx, s, qp, qx + nsize - dsize, qx + nsize - dsize, msq, d, r)
  {
    assert P(0) == 1;
  }

  lemma ProgressDone(m: seq<Limb>, np: nat, nsize: nat, qx: nat, s: seq<Limb>, qp: nat, t: nat, msq: int, d: int,
                     r: int)
    requires np + nsize <= |m| && t <= qx + nsize && qp + t <= |s|
    requires Progress(m, np, nsize, qx, s, qp, t, 0, msq, d, r)
    ensures V(m, np, nsize) * P(qx) == (msq * P(t) + V(s, qp, t)) * d + r
  {
    hide V;
    NumerAll(m, np, nsize, qx);
    hide Numer;
  }

  lemma NumerAll(m: seq<Limb>, np: nat, nsize: nat, qx: nat)
    requires np + nsize <= |m|
    ensures Numer(m, np, nsize, qx, 0) == V(m, np, nsize) * P(qx)
  {
    hide V;
    assert P(0) == 1;
  }

  /** Changes elsewhere leave the stored quotient limbs alone. */
  lemma ProgressKeep(m: seq<Limb>, np: nat, nsize: nat, qx: nat, s: seq<Limb>, s': seq<Limb>, lo: int, hi: int,
                     qp: nat, t: nat, i: nat, msq: int, d: int, r: int)
    requires np + nsize <= |m| && i <= t <= qx + nsize && qp + t <= |s|
    requires Progress(m, np, nsize, qx, s, qp, t, i, msq, d, r)
    requires SameOutside(s, s', lo, hi) && (hi <= qp + i || qp + t <= lo || i == t)
    ensures Progress(m, np, nsize, qx, s', qp, t, i, msq, d, r)
  {
    if i < t { Keep(s, s', lo, hi, qp + i, t - i); }
  }

  /** Storing quotient limb `i` below those already there. */
  method StoreQ(mem: array<Limb>, qp: nat, i: nat, q: Limb, ghost t: nat,
                ghost m: seq<Limb>, ghost np: nat, ghost nsize: nat, ghost qx: nat, ghost msq: int, ghost d: int,
                ghost r: int, ghost r': int)
    requires np + nsize <= |m| && i < t <= qx + nsize && qp + t <= mem.Length
    requires Progress(m, np, nsize, qx, mem[..], qp, t, i + 1, msq, d, r)
    requires q * d + r' == r * B + NextLimb(m, np, nsize, qx, i)
    modifies mem
    ensures Progress(m, np, nsize, qx, mem[..], qp, t, i, msq, d, r')
    ensures SameOutside(old(mem[..]), mem[..], qp + i, qp + i + 1)
  {
    hide V;
    hide P;
    hide QuotSoFar;
    ghost var s := mem[..];
    mem[qp + i] := q;
    Keep(s, mem[..], qp + i, qp + i + 1, qp + (i + 1), t - (i + 1));
    VHead(mem[..], qp + i, t - (i + 1));
    QuotTurn(m, np, nsize, qx, i, t - (i + 1), msq, V(s, qp + (i + 1), t - (i + 1)), d, r, q, r');
  }

  // ----- mpn_divrem -----

  /** Limbs of the numerator's buffer that are written: line 200 uses one above the divisor's length. */
  function NumerLen(qx: nat, nsize: nat, dsize: nat): nat
  {
    if qx > 0 && dsize >= 3 && nsize == dsize then nsize + 1 else nsize
  }

  /** The quotient area is below the numerator, or at least `dsize` limbs above its start: then it may
      overlap the part of the numerator that is consumed before it is overwritten. */
  predicate DivremArgs(len: nat, qp: nat, qx: nat, np: nat, nsize: nat, dp: nat, dsize: nat)
  {
    && 1 <= dsize <= nsize && np + NumerLen(qx, nsize, dsize) <= len && dp + dsize <= len
    && qp + (qx + nsize - dsize) <= len
    && Apart(dp, dsize, np, NumerLen(qx, nsize, dsize)) && Apart(dp, dsize, qp, qx + nsize - dsize)
    && (np + dsize <= qp || qp + (qx + nsize - dsize) <= np || qx + nsize == dsize)
  }

  /** Lines 67-91. */
  method DivremOne(mem: array<Limb>, qp: nat, qx: nat, np: nat, nsize: nat, dp: nat) returns (msq: Limb)
    requires DivremArgs(mem.Length, qp, qx, np, nsize, dp, 1) && mem[dp] >= B / 2
    modifies mem
    ensures msq <= 1 && mem[np] < old(mem[dp])
    ensures V(old(mem[..]), np, nsize) * P(qx)
         == (msq * P(qx + nsize - 1) + V(mem[..], qp, qx + nsize - 1)) * old(mem[dp]) + mem[np]
    ensures SameOutside2(old(mem[..]), mem[..], np, nsize, qp, qx + nsize - 1)
  {
    ghost var m0 := mem[..];
    var t := qx + nsize - 1;
    var d, n1 := mem[dp], mem[np + nsize - 1];
    msq := 0;
    if n1 >= d {
      n1 := n1 - d;
      msq := 1;
    }
    OneLimb(m0, np + (nsize - 1));
    ProgressStart(m0, np, nsize, qx, m0, qp, 1, msq, d, n1);
    hide V;
    hide P;
    hide Progress;
    n1 := LoopOne(mem, qp, qx, np, nsize, n1, d, t, msq);
    ghost var m := mem[..];
    mem[np] := n1;
    ProgressKeep(m0, np, nsize, qx, m, mem[..], np, np + 1, qp, t, 0, msq, d, n1);
    ProgressDone(m0, np, nsize, qx, mem[..], qp, t, msq, d, n1);
  }

  method LoopOne(mem: array<Limb>, qp: nat, qx: nat, np: nat, nsize: nat, n: Limb, d: Limb, t: nat, ghost msq: Limb)
    returns (n1: Limb)
    requires nsize >= 1 && np + nsize <= mem.Length && t == qx + nsize - 1 && qp + t <= mem.Length
    requires np + 1 <= qp || qp + t <= np
    requires n < d && d >= B / 2 && Progress(mem[..], np, nsize, qx, mem[..], qp, t, t, msq, d, n)
    modifies mem
    ensures n1 < d && Progress(old(mem[..]), np, nsize, qx, mem[..], qp, t, 0, msq, d, n1)
    ensures SameOutside(old(mem[..]), mem[..], qp, qp + t)
  {
    hide Progress;
    ghost var m0 := mem[..];
    n1 := n;
    var i := t;
    while i > qx
      invariant qx <= i <= t && n1 < d
      invariant Progress(m0, np, nsize, qx, mem[..], qp, t, i, msq, d, n1)
      invariant SameOutside(m0, mem[..], qp + i, qp + t)
    {
      i := i - 1;
      n1 := StepOne(mem, qp, i, t, n1, mem[np + (i - qx)], d, m0, np, nsize, qx, msq);
    }
    while i > 0
      invariant 0 <= i <= qx && n1 < d
      invariant Progress(m0, np, nsize, qx, mem[..], qp, t, i, msq, d, n1)
      invariant SameOutside(m0, mem[..], qp + i, qp + t)
    {
      i := i - 1;
      n1 := StepOne(mem, qp, i, t, n1, 0, d, m0, np, nsize, qx, msq);
    }
  }

  method StepOne(mem: array<Limb>, qp: nat, i: nat, t: nat, n1: Limb, x: Limb, d: Limb,
                 ghost m0: seq<Limb>, ghost np: nat, ghost nsize: nat, ghost qx: nat, ghost msq: int) returns (r: Limb)
    requires np + nsize <= |m0| && i < t <= qx + nsize && qp + t <= mem.Length && n1 < d && d >= B / 2
    requires Progress(m0, np, nsize, qx, mem[..], qp, t, i + 1, msq, d, n1)
    requires x == NextLimb(m0, np, nsize, qx, i)
    requires SameOutside(m0, mem[..], qp + (i + 1), qp + t)
    modifies mem
    ensures r < d && Progress(m0, np, nsize, qx, mem[..], qp, t, i, msq, d, r)
    ensures SameOutside(m0, mem[..], qp + i, qp + t)
  {
    hide Progress;
    var q;
    q, r := UdivQrnnd(n1, x, d, true);
    StoreQ(mem, qp, i, q, t, m0, np, nsize, qx, msq, d, n1, r);
  }

  /** Lines 94-164. */
  method DivremTwo(mem: array<Limb>, qp: nat, qx: nat, np: nat, nsize: nat, dp: nat) returns (msq: Limb)
    requires DivremArgs(mem.Length, qp, qx, np, nsize, dp, 2) && mem[dp + 1] >= B / 2
    modifies mem
    ensures msq <= 1 && V(mem[..], np, 2) < V(old(mem[..]), dp, 2)
    ensures V(old(mem[..]), np, nsize) * P(qx)
         == (msq * P(qx + nsize - 2) + V(mem[..], qp, qx + nsize - 2)) * V(old(mem[..]), dp, 2) + V(mem[..], np, 2)
    ensures SameOutside2(old(mem[..]), mem[..], np, nsize, qp, qx + nsize - 2)
  {
    hide V;
    hide P;
    hide Progress;
    ghost var m0 := mem[..];
    var t := qx + nsize - 2;
    var d1, d0, n1, n0 := mem[dp + 1], mem[dp], mem[np + nsize - 1], mem[np + nsize - 2];
    ghost var d := d1 * B + d0;
    TwoLimbs(m0, dp);
    TwoLimbs(m0, np + (nsize - 2));
    msq := 0;
    if n1 >= d1 && (n1 > d1 || n0 >= d0) {
      n1, n0 := SubDdmmss(n1, n0, d1, d0);
      msq := 1;
    }
    ProgressStart(m0, np, nsize, qx, m0, qp, 2, msq, d, n1 * B + n0);
    n1, n0 := LoopTwo(mem, qp, qx, np, nsize, n1, n0, d1, d0, t, msq);
    ghost var m := mem[..];
    StoreTwo(mem, np, n1, n0);
    Widen2(m0, m, np, 1, qp, t, np, nsize, qp, t);
    Widen1(m, mem[..], np, 2, np, nsize, qp, t);
    SameTrans2(m0, m, mem[..], np, nsize, qp, t);
    hide SameOutside;
    hide SameOutside2;
    ProgressKeep(m0, np, nsize, qx, m, mem[..], np, np + 2, qp, t, 0, msq, d, n1 * B + n0);
    ProgressDone(m0, np, nsize, qx, mem[..], qp, t, msq, d, n1 * B + n0);
  }

  method StoreTwo(mem: array<Limb>, np: nat, n1: Limb, n0: Limb)
    requires np + 2 <= mem.Length
    modifies mem
    ensures V(mem[..], np, 2) == n1 * B + n0
    ensures SameOutside(old(mem[..]), mem[..], np, np + 2)
  {
    mem[np + 1] := n1;
    mem[np] := n0;
    TwoLimbs(mem[..], np);
  }

  lemma TwoLimbs(s: seq<Limb>, a: nat)
    requires a + 2 <= |s|
    ensures V(s, a, 2) == s[a + 1] * B + s[a]
  {
    VHead(s, a, 1);
    OneLimb(s, a + 1);
  }

  method LoopTwo(mem: array<Limb>, qp: nat, qx: nat, np: nat, nsize: nat, h: Limb, l: Limb, d1: Limb, d0: Limb,
                 t: nat, ghost msq: Limb)
    returns (n1: Limb, n0: Limb)
    requires nsize >= 2 && np + nsize <= mem.Length && t == qx + nsize - 2 && qp + t <= mem.Length
    requires np + 2 <= qp || qp + t <= np || t == 0
    requires d1 >= B / 2 && h * B + l < d1 * B + d0
    requires Progress(mem[..], np, nsize, qx, mem[..], qp, t, t, msq, d1 * B + d0, h * B + l)
    modifies mem
    ensures n1 * B + n0 < d1 * B + d0
    ensures Progress(old(mem[..]), np, nsize, qx, mem[..], qp, t, 0, msq, d1 * B + d0, n1 * B + n0)
    ensures SameOutside2(old(mem[..]), mem[..], np, 1, qp, t)
  {
    hide Progress;
    ghost var m0 := mem[..];
    n1, n0 := h, l;
    var i := t;
    while i > 0
      invariant 0 <= i <= t && n1 * B + n0 < d1 * B + d0
      invariant Progress(m0, np, nsize, qx, mem[..], qp, t, i, msq, d1 * B + d0, n1 * B + n0)
      invariant SameOutside2(m0, mem[..], np, if i < qx then 1 else 0, qp + i, t - i)
    {
      i := i - 1;
      ghost var m, r := mem[..], n1 * B + n0;
      var at := if i >= qx then np + (i - qx) else np;
      if i < qx {
        mem[at] := 0;
        ProgressKeep(m0, np, nsize, qx, m, mem[..], np, np + 1, qp, t, i + 1, msq, d1 * B + d0, r);
      }
      var q;
      ghost var over;
      q, n1, n0, over := StepTwo(n1, n0, mem[at], d1, d0);
      StoreQ(mem, qp, i, q, t, m0, np, nsize, qx, msq, d1 * B + d0, r, n1 * B + n0);
    }
  }

  /** Lines 173-190: at most one divisor is taken off the top of the numerator. */
  method ReduceTop(mem: array<Limb>, at: nat, dp: nat, dsize: nat) returns (msq: Limb)
    requires dsize >= 2 && at + dsize <= mem.Length && dp + dsize <= mem.Length && Apart(at, dsize, dp, dsize)
    requires mem[dp + dsize - 1] >= B / 2
    modifies mem
    ensures msq <= 1
    ensures V(old(mem[..]), at, dsize) == msq * V(old(mem[..]), dp, dsize) + V(mem[..], at, dsize)
    ensures V(mem[..], at, dsize) < V(old(mem[..]), dp, dsize)
    ensures SameOutside(old(mem[..]), mem[..], at, at + dsize)
  {
    hide V;
    hide P;
    ghost var m0 := mem[..];
    var dX, n0 := mem[dp + dsize - 1], mem[at + dsize - 1];
    msq := 0;
    TopDecides(m0, at, dp, dsize - 1);
    HalfDivisor(m0, at, dp, dsize);
    if n0 >= dX {
      var c := 1;
      if n0 == dX { c := Cmp(mem, at, dp, dsize - 1); }
      if n0 > dX || c >= 0 {
        var b := SubN(mem, at, at, dp, dsize);
        VBound(mem[..], at, dsize);
        NoBorrowOut(V(mem[..], at, dsize), b, P(dsize), V(m0, at, dsize) - V(m0, dp, dsize));
        msq := 1;
      }
    }
  }

  lemma NoBorrowOut(v: int, b: int, p: int, diff: int)
    requires v - b * p == diff && 0 <= v < p && 0 <= diff && 0 <= b
    ensures b == 0
  {
    if b >= 1 { MulLe(1, b, p); }
  }

  lemma TopDecides(m: seq<Limb>, a: nat, b: nat, n: nat)
    requires a + n < |m| && b + n < |m|
    ensures m[a + n] > m[b + n] ==> V(m, a, n + 1) > V(m, b, n + 1)
    ensures m[a + n] < m[b + n] ==> V(m, a, n + 1) < V(m, b, n + 1)
    ensures m[a + n] == m[b + n] ==> V(m, a, n + 1) - V(m, b, n + 1) == V(m, a, n) - V(m, b, n)
  {
    if m[a + n] > m[b + n] { HigherLimbDecides(m, b, a, n); }
    if m[a + n] < m[b + n] { HigherLimbDecides(m, a, b, n); }
  }

  /** A divisor with its top bit set is at least half of any number of its length. */
  lemma HalfDivisor(m: seq<Limb>, at: nat, dp: nat, dsize: nat)
    requires dsize >= 1 && at + dsize <= |m| && dp + dsize <= |m| && m[dp + dsize - 1] >= B / 2
    ensures V(m, at, dsize) < 2 * V(m, dp, dsize)
  {
    hide V;
    PStep(dsize - 1);
    hide P;
    VBound(m, at, dsize);
    VTop(m, dp, dsize - 1);
    MulLe(B / 2, m[dp + dsize - 1], P(dsize - 1));
  }

  lemma PStep(n: nat)
    ensures P(n + 1) == B * P(n)
  {
  }

  function Offset(qx: nat, i: nat): nat { if i >= qx then i - qx else 0 }

  /** The limbs of the numerator that are still to come. */
  ghost predicate Unread(m0: seq<Limb>, s: seq<Limb>, np: nat, n: nat)
  {
    np + n <= |m0| == |s| && forall k :: np <= k < np + n ==> s[k] == m0[k]
  }

  /** Lines 191-202: the next numerator limb, or a zero behind the remainder shifted up. */
  method BringDown(mem: array<Limb>, np: nat, nsize: nat, dsize: nat, qx: nat, i: nat, ghost m0: seq<Limb>)
    returns (n2: Limb)
    requires 3 <= dsize <= nsize && i < qx + nsize - dsize && np + NumerLen(qx, nsize, dsize) <= mem.Length == |m0|
    requires Unread(m0, mem[..], np, Offset(qx, i + 1))
    modifies mem
    ensures V(mem[..], np + Offset(qx, i), dsize + 1)
         == V(old(mem[..]), np + Offset(qx, i + 1), dsize) * B + NextLimb(m0, np, nsize, qx, i)
    ensures n2 == mem[np + Offset(qx, i) + dsize] == old(mem[np + Offset(qx, i + 1) + dsize - 1])
    ensures if i >= qx then mem[..] == old(mem[..]) else SameOutside(old(mem[..]), mem[..], np, np + dsize + 1)
  {
    hide V;
    hide P;
    ghost var m := mem[..];
    if i >= qx {
      n2 := mem[np + (i - qx) + dsize];
      VHead(m, np + (i - qx), dsize);
    } else {
      n2 := mem[np + dsize - 1];
      CopyDecr(mem, np + 1, np, dsize);
      ghost var m1 := mem[..];
      mem[np] := 0;
      Keep(m1, mem[..], np, np + 1, np + 1, dsize);
      VHead(mem[..], np, dsize);
    }
  }

  /** One turn of the loop of lines 187-240. */
  method TurnLarge(mem: array<Limb>, qp: nat, qx: nat, np: nat, nsize: nat, dp: nat, dsize: nat, dX: Limb, d1: Limb,
                   i: nat, n: Limb, ghost t: nat, ghost msq: Limb, ghost m0: seq<Limb>) returns (n0: Limb)
    requires dsize >= 3 && DivremArgs(mem.Length, qp, qx, np, nsize, dp, dsize) && t == qx + nsize - dsize && i < t
    requires |m0| == mem.Length && dX == mem[dp + dsize - 1] && d1 == mem[dp + dsize - 2] && dX >= B / 2
    requires n == mem[np + Offset(qx, i + 1) + dsize - 1]
    requires V(mem[..], np + Offset(qx, i + 1), dsize) < V(mem[..], dp, dsize)
    requires Unread(m0, mem[..], np, Offset(qx, i + 1))
    requires Progress(m0, np, nsize, qx, mem[..], qp, t, i + 1, msq, V(mem[..], dp, dsize),
        V(mem[..], np + Offset(qx, i + 1), dsize))
    modifies mem
    ensures n0 == mem[np + Offset(qx, i) + dsize - 1]
    ensures V(mem[..], dp, dsize) == V(old(mem[..]), dp, dsize) && mem[dp + dsize - 1] == dX
    ensures mem[dp + dsize - 2] == d1
    ensures V(mem[..], np + Offset(qx, i), dsize) < V(mem[..], dp, dsize)
    ensures Unread(m0, mem[..], np, Offset(qx, i))
    ensures Progress(m0, np, nsize, qx, mem[..], qp, t, i, msq, V(mem[..], dp, dsize),
        V(mem[..], np + Offset(qx, i), dsize))
    ensures SameOutside2(old(mem[..]), mem[..], np, NumerLen(qx, nsize, dsize), qp, t)
  {
    hide V;
    hide P;
    hide Exact;
    hide Progress;
    hide SameOutside;
    hide SameOutside2;
    hide Unread;
    ghost var m, len := mem[..], NumerLen(qx, nsize, dsize);
    ghost var d, r := V(m, dp, dsize), V(m, np + Offset(qx, i + 1), dsize);
    var q := DivideAt(mem, np, nsize, dp, dsize, dX, d1, qx, i, n, m0);
    ghost var m2 := mem[..];
    var at := np + Offset(qx, i);
    ghost var r' := V(m2, at, dsize);
    DivisorKept(m, m2, np, at + dsize + 1, dp, dsize);
    SameWiden(m, m2, np, np + len, np, at + dsize + 1);
    ProgressKeep(m0, np, nsize, qx, m, m2, np, at + dsize + 1, qp, t, i + 1, msq, d, r);
    StoreQ(mem, qp, i, q, t, m0, np, nsize, qx, msq, d, r, r');
    AfterStore(m2, mem[..], qp + i, at, dsize, dp, m0, np, Offset(qx, i));
    n0 := mem[at + dsize - 1];
    Widen1(m, m2, np, len, np, len, qp, t);
    Widen1(m2, mem[..], qp + i, 1, np, len, qp, t);
    SameTrans2(m, m2, mem[..], np, len, qp, t);
  }

  lemma DivisorKept(s: seq<Limb>, t: seq<Limb>, lo: nat, hi: nat, dp: nat, dsize: nat)
    requires SameOutside(s, t, lo, hi) && dsize >= 2 && dp + dsize <= |s| && (dp + dsize <= lo || hi <= dp)
    ensures |t| == |s| && V(t, dp, dsize) == V(s, dp, dsize)
    ensures t[dp + dsize - 1] == s[dp + dsize - 1] && t[dp + dsize - 2] == s[dp + dsize - 2]
  {
    Keep(s, t, lo, hi, dp, dsize);
  }

  /** Bringing down a limb and dividing it out. */
  method DivideAt(mem: array<Limb>, np: nat, nsize: nat, dp: nat, dsize: nat, dX: Limb, d1: Limb, qx: nat, i: nat,
                  n: Limb,
                  ghost m0: seq<Limb>) returns (q: Limb)
    requires 3 <= dsize <= nsize && i < qx + nsize - dsize && np + NumerLen(qx, nsize, dsize) <= mem.Length == |m0|
    requires dp + dsize <= mem.Length && Apart(dp, dsize, np, NumerLen(qx, nsize, dsize))
    requires dX == mem[dp + dsize - 1] && d1 == mem[dp + dsize - 2] && dX >= B / 2
    requires n == mem[np + Offset(qx, i + 1) + dsize - 1]
    requires V(mem[..], np + Offset(qx, i + 1), dsize) < V(mem[..], dp, dsize)
    requires Unread(m0, mem[..], np, Offset(qx, i + 1))
    modifies mem
    ensures V(mem[..], np + Offset(qx, i), dsize) < V(old(mem[..]), dp, dsize)
    ensures q * V(old(mem[..]), dp, dsize) + V(mem[..], np + Offset(qx, i), dsize)
         == V(old(mem[..]), np + Offset(qx, i + 1), dsize) * B + NextLimb(m0, np, nsize, qx, i)
    ensures Unread(m0, mem[..], np, Offset(qx, i))
    ensures SameOutside(old(mem[..]), mem[..], np, np + Offset(qx, i) + dsize + 1)
  {
    hide V;
    hide P;
    ghost var m := mem[..];
    var at := np + Offset(qx, i);
    var n2 := BringDown(mem, np, nsize, dsize, qx, i, m0);
    ghost var m1 := mem[..];
    assert SameOutside(m, m1, np, at + dsize + 1);
    Keep(m, m1, np, at + dsize + 1, dp, dsize);
    q := StepLarge(mem, at, dp, dsize, dX, d1, n, n2);
  }

  lemma AfterStore(s: seq<Limb>, t: seq<Limb>, k: nat, at: nat, dsize: nat, dp: nat, m0: seq<Limb>, np: nat, n: nat)
    requires SameOutside(s, t, k, k + 1) && Unread(m0, s, np, n) && at == np + n
    requires dsize >= 2 && at + dsize <= |s| && dp + dsize <= |s| && k < |s|
    requires (at + dsize <= k || k < np) && (k < dp || dp + dsize <= k)
    ensures V(t, at, dsize) == V(s, at, dsize) && V(t, dp, dsize) == V(s, dp, dsize)
    ensures t[dp + dsize - 1] == s[dp + dsize - 1] && t[dp + dsize - 2] == s[dp + dsize - 2]
    ensures Unread(m0, t, np, n)
  {
    Keep(s, t, k, k + 1, at, dsize);
    Keep(s, t, k, k + 1, dp, dsize);
  }

  /** Lines 166-241. */
  method DivremLarge(mem: array<Limb>, qp: nat, qx: nat, np: nat, nsize: nat, dp: nat, dsize: nat) returns (msq: Limb)
    requires dsize >= 3 && DivremArgs(mem.Length, qp, qx, np, nsize, dp, dsize) && mem[dp + dsize - 1] >= B / 2
    modifies mem
    ensures msq <= 1 && V(mem[..], np, dsize) < V(old(mem[..]), dp, dsize)
    ensures V(old(mem[..]), np, nsize) * P(qx)
         == (msq * P(qx + nsize - dsize) + V(mem[..], qp, qx + nsize - dsize)) * V(old(mem[..]), dp, dsize)
             + V(mem[..], np, dsize)
    ensures SameOutside2(old(mem[..]), mem[..], np, NumerLen(qx, nsize, dsize), qp, qx + nsize - dsize)
  {
    hide V;
    hide P;
    hide Progress;
    hide SameOutside2;
    ghost var m0, len := mem[..], NumerLen(qx, nsize, dsize);
    var t := qx + nsize - dsize;
    var dX, d1 := mem[dp + dsize - 1], mem[dp + dsize - 2];
    msq := ReduceTop(mem, np + (nsize - dsize), dp, dsize);
    var n0 := mem[np + nsize - 1];
    ghost var d := V(m0, dp, dsize);
    DivisorKept(m0, mem[..], np + (nsize - dsize), np + nsize, dp, dsize);
    ProgressStart(m0, np, nsize, qx, mem[..], qp, dsize, msq, d, V(mem[..], np + (nsize - dsize), dsize));
    Widen1(m0, mem[..], np + (nsize - dsize), dsize, np, len, qp, t);
    assert Unread(m0, mem[..], np, Offset(qx, t));
    hide SameOutside;
    hide Unread;
    var i := t;
    while i > 0
      invariant 0 <= i <= t && n0 == mem[np + Offset(qx, i) + dsize - 1]
      invariant V(mem[..], dp, dsize) == d && mem[dp + dsize - 1] == dX && mem[dp + dsize - 2] == d1
      invariant V(mem[..], np + Offset(qx, i), dsize) < d
      invariant Unread(m0, mem[..], np, Offset(qx, i))
      invariant Progress(m0, np, nsize, qx, mem[..], qp, t, i, msq, d, V(mem[..], np + Offset(qx, i), dsize))
      invariant SameOutside2(m0, mem[..], np, len, qp, t)
    {
      i := i - 1;
      ghost var m := mem[..];
      n0 := TurnLarge(mem, qp, qx, np, nsize, dp, dsize, dX, d1, i, n0, t, msq, m0);
      SameTrans2(m0, m, mem[..], np, len, qp, t);
    }
    ProgressDone(m0, np, nsize, qx, mem[..], qp, t, msq, d, V(mem[..], np, dsize));
  }

  /** mpn_divrem.  With Q the stored quotient limbs, R the remainder left in the numerator's low limbs
      and D the divisor: N * B^qx == (msq * B^(nsize - dsize + qx) + Q) * D + R, R < D, msq <= 1. */
  method Divrem(mem: array<Limb>, qp: nat, qx: nat, np: nat, nsize: nat, dp: nat, dsize: nat) returns (msq: Limb)
    requires DivremArgs(mem.Length, qp, qx, np, nsize, dp, dsize) && mem[dp + dsize - 1] >= B / 2
    modifies mem
    ensures msq <= 1 && V(mem[..], np, dsize) < V(old(mem[..]), dp, dsize)
    ensures V(old(mem[..]), np, nsize) * P(qx)
         == (msq * P(qx + nsize - dsize) + V(mem[..], qp, qx + nsize - dsize)) * V(old(mem[..]), dp, dsize)
             + V(mem[..], np, dsize)
    ensures SameOutside2(old(mem[..]), mem[..], np, NumerLen(qx, nsize, dsize), qp, qx + nsize - dsize)
  {
    hide V;
    hide P;
    hide SameOutside2;
    OneLimb(mem[..], dp);
    if dsize == 1 {
      msq := DivremOne(mem, qp, qx, np, nsize, dp);
      OneLimb(mem[..], np);
    } else if dsize == 2 {
      msq := DivremTwo(mem, qp, qx, np, nsize, dp);
    } else {
      msq := DivremLarge(mem, qp, qx, np, nsize, dp, dsize);
    }
  }
}
