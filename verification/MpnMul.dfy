/** Multiplication: the schoolbook loop, Karatsuba's recursion and squaring of
gmp/mpn-mul_n.c, and the block decomposition of gmp/mpn-mul.c.

The crossover `thr` (KARATSUBA_THRESHOLD) is a parameter: every result holds for
every value the code admits, that is, for every `thr >= 2`. */
module MpnMul {
  import opened Limbs
  import opened MpnLow
  import opened Karatsuba

  /** One row of the schoolbook product, with the shortcuts for the limbs 0 and 1. */
  method AddRow(mem: array<Limb>, dst: nat, up: nat, usize: nat, v: Limb) returns (cy: Limb)
    requires usize >= 1
    requires dst + usize < mem.Length && up + usize <= mem.Length
    requires Apart(dst, usize + 1, up, usize)
    modifies mem
    ensures V(mem[..], dst, usize + 1) == V(old(mem[..]), dst, usize) + V(old(mem[..]), up, usize) * v
    ensures cy == mem[dst + usize]
    ensures SameOutside(old(mem[..]), mem[..], dst, dst + usize + 1)
  {
    if v <= 1 {
      cy := 0;
      if v == 1 {
        cy := AddN(mem, dst, dst, up, usize);
      }
    } else {
      cy := AddMul1(mem, dst, up, usize, v);
    }
    ghost var m := mem[..];
    mem[dst + usize] := cy;
    VPut(m, mem[..], dst, usize);
  }

  /** The first row is stored, not added. */
  method FirstRow(mem: array<Limb>, dst: nat, up: nat, usize: nat, v: Limb) returns (cy: Limb)
    requires usize >= 1
    requires dst + usize < mem.Length && up + usize <= mem.Length
    requires Apart(dst, usize + 1, up, usize)
    modifies mem
    ensures V(mem[..], dst, usize + 1) == V(old(mem[..]), up, usize) * v
    ensures cy == mem[dst + usize]
    ensures SameOutside(old(mem[..]), mem[..], dst, dst + usize + 1)
  {
    if v <= 1 {
      if v == 1 {
        CopyIncr(mem, dst, up, usize);
      } else {
        Zero(mem, dst, usize);
      }
      cy := 0;
    } else {
      cy := Mul1(mem, dst, up, usize, v);
    }
    ghost var m := mem[..];
    mem[dst + usize] := cy;
    VPut(m, mem[..], dst, usize);
  }

  /** Adding row `i` to the rows below it. */
  lemma RowsGrow(m: seq<Limb>, t: seq<Limb>, prodp: nat, i: nat, usize: nat, m0: seq<Limb>, up: nat, vp: nat)
    requires prodp + i + usize < |m| == |t| == |m0| && up + usize <= |m0| && vp + i < |m0|
    requires SameOutside(m, t, prodp + i, prodp + i + usize + 1)
    requires V(m, prodp, usize + i) == V(m0, up, usize) * V(m0, vp, i)
    requires V(t, prodp + i, usize + 1) == V(m, prodp + i, usize) + V(m0, up, usize) * m0[vp + i]
    ensures V(t, prodp, usize + (i + 1)) == V(m0, up, usize) * V(m0, vp, i + 1)
  {
    var u, v, p := V(m0, up, usize), m0[vp + i], P(i);
    VSame(m, prodp, t, prodp, i);
    VSplit(m, prodp, i, usize);
    VSplit(t, prodp, i, usize + 1);
    MulDistr(p, V(m, prodp + i, usize), u * v);
    assert p * (u * v) == u * (v * p) by { MulAssoc(p, u, v); }
    MulDistr(u, V(m0, vp, i), v * p);
  }

  /** impn_mul_n_basecase, impn_sqr_n_basecase (with vp == up) and the first half of mpn_mul. */
  method MulBasecase(mem: array<Limb>, prodp: nat, up: nat, usize: nat, vp: nat, vsize: nat) returns (cy: Limb)
    requires usize >= 1 && vsize >= 1
    requires prodp + usize + vsize <= mem.Length && up + usize <= mem.Length && vp + vsize <= mem.Length
    requires Apart(prodp, usize + vsize, up, usize) && Apart(prodp, usize + vsize, vp, vsize)
    modifies mem
    ensures V(mem[..], prodp, usize + vsize) == V(old(mem[..]), up, usize) * V(old(mem[..]), vp, vsize)
    ensures SameOutside(old(mem[..]), mem[..], prodp, prodp + usize + vsize)
    ensures cy == mem[prodp + usize + vsize - 1]
  {
    hide V;
    hide P;
    ghost var m0 := mem[..];
    OneLimb(m0, vp);
    cy := FirstRow(mem, prodp, up, usize, mem[vp]);
    for i := 1 to vsize
      invariant V(mem[..], prodp, usize + i) == V(m0, up, usize) * V(m0, vp, i)
      invariant SameOutside(m0, mem[..], prodp, prodp + usize + i)
      invariant cy == mem[prodp + usize + i - 1]
    {
      ghost var m := mem[..];
      VSame(m0, up, m, up, usize);
      cy := AddRow(mem, prodp + i, up, usize, mem[vp + i]);
      RowsGrow(m, mem[..], prodp, i, usize, m0, up, vp);
    }
  }

  /** |high half - low half| of the `2*n` limbs at `a`, and whether the high half is the smaller. */
  method AbsDiff(mem: array<Limb>, res: nat, a: nat, n: nat) returns (neg: bool)
    requires n >= 1 && res + n <= mem.Length && a + 2 * n <= mem.Length && Apart(res, n, a, 2 * n)
    modifies mem
    ensures neg == (V(old(mem[..]), a + n, n) < V(old(mem[..]), a, n))
    ensures V(mem[..], res, n) == if neg then V(old(mem[..]), a, n) - V(old(mem[..]), a + n, n)
                                         else V(old(mem[..]), a + n, n) - V(old(mem[..]), a, n)
    ensures SameOutside(old(mem[..]), mem[..], res, res + n)
  {
    hide V;
    hide P;
    ghost var m := mem[..];
    var c := Cmp(mem, a + n, a, n);
    var cy: Limb;
    if c >= 0 {
      cy := SubN(mem, res, a + n, a, n);
      neg := false;
    } else {
      cy := SubN(mem, res, a, a + n, n);
      neg := true;
    }
    VBound(mem[..], res, n);
    NoBorrow(V(mem[..], res, n), cy, P(n));
  }

  lemma NoBorrow(v: int, cy: int, p: int)
    requires 0 < p && v < p && 0 <= cy && v - cy * p >= 0
    ensures cy == 0
  {
    if cy >= 1 { MulLe(1, cy, p); }
  }

  /** Lines 192-200: fold H and the signed M into the middle of the product.  The carry is kept
      as the wrapped limb `cy`; `c` is the signed carry it stands for. */
  method AddHM(mem: array<Limb>, prodp: nat, n: nat, tspace: nat, neg: bool) returns (cy: Limb, ghost c: int)
    requires n >= 1 && prodp + 4 * n <= mem.Length && tspace + 2 * n <= mem.Length
    requires Apart(prodp, 4 * n, tspace, 2 * n)
    modifies mem
    ensures -1 <= c <= 2 && cy == (if c < 0 then B - 1 else c)
    ensures V(mem[..], prodp + n, 2 * n) + c * (P(n) * P(n))
         == V(old(mem[..]), prodp + 2 * n, 2 * n) + P(n) * V(old(mem[..]), prodp + 2 * n, n)
            + (if neg then -V(old(mem[..]), tspace, 2 * n) else V(old(mem[..]), tspace, 2 * n))
    ensures SameOutside(old(mem[..]), mem[..], prodp + n, prodp + 3 * n)
  {
    hide V;
    hide P;
    hide SameOutside;
    ghost var m0 := mem[..];
    ghost var x := P(n);
    cy := AddHTwice(mem, prodp, n);
    ghost var m2, c0: int := mem[..], cy;
    Keep(m0, m2, prodp + n, prodp + 3 * n, tspace, 2 * n);
    PAdd(n, n);
    if neg {
      var b := SubN(mem, prodp + n, prodp + n, tspace, 2 * n);
      c := c0 - b;
      MulDistr(x * x, c0, b);
      cy := Sub(cy, b);
    } else {
      var b := AddN(mem, prodp + n, prodp + n, tspace, 2 * n);
      c := c0 + b;
      MulDistr(x * x, c0, b);
      cy := Add(cy, b);
    }
    SameTrans(m0, m2, mem[..], prodp + n, prodp + 3 * n, prodp + n, prodp + 3 * n, prodp + n, prodp + 3 * n);
  }

  method AddHTwice(mem: array<Limb>, prodp: nat, n: nat) returns (cy: Limb)
    requires n >= 1 && prodp + 4 * n <= mem.Length
    modifies mem
    ensures cy <= 1
    ensures V(mem[..], prodp + n, 2 * n) + cy * (P(n) * P(n))
         == V(old(mem[..]), prodp + 2 * n, 2 * n) + P(n) * V(old(mem[..]), prodp + 2 * n, n)
    ensures SameOutside(old(mem[..]), mem[..], prodp + n, prodp + 3 * n)
  {
    hide V;
    hide P;
    hide SameOutside;
    ghost var m0 := mem[..];
    CopyIncr(mem, prodp + n, prodp + 2 * n, n);
    ghost var m1 := mem[..];
    Keep(m0, m1, prodp + n, prodp + 2 * n, prodp + 2 * n, n);
    Keep(m0, m1, prodp + n, prodp + 2 * n, prodp + 3 * n, n);
    cy := AddN(mem, prodp + 2 * n, prodp + 2 * n, prodp + 3 * n, n);
    ghost var m2 := mem[..];
    Keep(m1, m2, prodp + 2 * n, prodp + 3 * n, prodp + n, n);
    HalvesSum(m0, m2, prodp, n, cy);
    SameTrans(m0, m1, m2, prodp + n, prodp + 3 * n, prodp + n, prodp + 2 * n, prodp + 2 * n, prodp + 3 * n);
  }

  lemma HalvesSum(m0: seq<Limb>, m2: seq<Limb>, prodp: nat, n: nat, c: int)
    requires prodp + 4 * n <= |m0| == |m2|
    requires V(m2, prodp + n, n) == V(m0, prodp + 2 * n, n)
    requires V(m2, prodp + 2 * n, n) + c * P(n) == V(m0, prodp + 2 * n, n) + V(m0, prodp + 3 * n, n)
    ensures V(m2, prodp + n, 2 * n) + c * (P(n) * P(n))
         == V(m0, prodp + 2 * n, 2 * n) + P(n) * V(m0, prodp + 2 * n, n)
  {
    hide V;
    hide P;
    var x := P(n);
    VSplit(m2, prodp + n, n, n);
    VSplit(m0, prodp + 2 * n, n, n);
    var h0, h1, w := V(m0, prodp + 2 * n, n), V(m0, prodp + 3 * n, n), V(m2, prodp + 2 * n, n);
    MulDistr(x, w, c * x);
    MulDistr(x, h0, h1);
    MulAssoc(c, x, x);
  }

  /** Lines 209-218: add L at both places and let the two remaining carries run out. */
  method AddL(mem: array<Limb>, prodp: nat, n: nat, tspace: nat, carry: Limb, ghost c: int,
              ghost u0: int, ghost u1: int, ghost v0: int, ghost v1: int, ghost h0: int)
    requires n >= 1 && prodp + 4 * n <= mem.Length && tspace + 2 * n <= mem.Length
    requires Apart(prodp, 4 * n, tspace, 2 * n)
    requires 0 <= u0 < P(n) && 0 <= u1 < P(n) && 0 <= v0 < P(n) && 0 <= v1 < P(n) && 0 <= h0 < P(n)
    requires -1 <= c <= 2 && carry == (if c < 0 then B - 1 else c)
    requires V(mem[..], tspace, 2 * n) == u0 * v0
    requires h0 + P(n) * V(mem[..], prodp + 3 * n, n) == u1 * v1
    requires V(mem[..], prodp + n, 2 * n) + c * (P(n) * P(n)) == u1 * v1 + P(n) * h0 + Cross(u0, u1, v0, v1)
    modifies mem
    ensures V(mem[..], prodp, 4 * n) == (u0 + P(n) * u1) * (v0 + P(n) * v1)
    ensures SameOutside(old(mem[..]), mem[..], prodp, prodp + 4 * n)
  {
    hide V;
    hide P;
    ghost var m0 := mem[..];
    ghost var x := P(n);
    PAdd(n, n);
    var cy := AddN(mem, prodp + n, prodp + n, tspace, 2 * n);
    ghost var m1 := mem[..];
    ghost var ct := c + cy;
    VSame(m0, prodp + 3 * n, m1, prodp + 3 * n, n);
    VSame(m0, tspace, m1, tspace, 2 * n);
    ghost var w := V(m1, prodp + n, 2 * n);
    MulDistr(x * x, c, cy);
    VBound(m1, prodp + n, 2 * n);
    CarryRange(u0, u1, v0, v1, x, h0, w, ct);
    cy := Add(carry, cy);
    assert cy == ct;
    VSplit(m1, tspace, n, n);
    ghost var l0, l1, h1 := V(m1, tspace, n), V(m1, tspace + n, n), V(m1, prodp + 3 * n, n);
    Assemble(u0, u1, v0, v1, x, h0, h1, l0, l1, w, ct);
    MixedBound(u0, u1, v0, v1, x);
    TopCarry(mem, prodp, n, cy, l0, l1, w, (u0 + x * u1) * (v0 + x * v1));
    ghost var m2 := mem[..];
    VSame(m1, tspace, m2, tspace, n);
    VSame(m1, tspace + n, m2, tspace + n, n);
    LowEnd(mem, prodp, n, tspace, (u0 + x * u1) * (v0 + x * v1));
  }

  /** Line 212: the carry is absorbed by the top quarter of the product. */
  method TopCarry(mem: array<Limb>, prodp: nat, n: nat, cy: Limb, ghost l0: int, ghost l1: int, ghost w: int,
                  ghost prod: int)
    requires n >= 1 && prodp + 4 * n <= mem.Length
    requires w == V(mem[..], prodp + n, 2 * n) && 0 <= l0 && 0 <= l1
    requires prod == l0 + P(n) * (w + (P(n) * P(n)) * (V(mem[..], prodp + 3 * n, n) + cy) + l1)
    requires prod < (P(n) * P(n)) * (P(n) * P(n))
    modifies mem
    ensures V(mem[..], prodp + n, 3 * n) == w + (P(n) * P(n)) * (V(old(mem[..]), prodp + 3 * n, n) + cy)
    ensures SameOutside(old(mem[..]), mem[..], prodp + 3 * n, prodp + 4 * n)
  {
    hide V;
    hide P;
    ghost var m0 := mem[..];
    ghost var x := P(n);
    ghost var h1 := V(m0, prodp + 3 * n, n);
    TopFits(l0, l1, w, h1 + cy, x, prod);
    if cy != 0 {
      var out := Add1(mem, prodp + 3 * n, prodp + 3 * n, n, cy);
      NoCarry(V(mem[..], prodp + 3 * n, n), out, x, h1 + cy);
    }
    VSame(m0, prodp + n, mem[..], prodp + n, 2 * n);
    VSplit(mem[..], prodp + n, 2 * n, n);
    PAdd(n, n);
  }

  lemma TopFits(l0: int, l1: int, w: int, t: int, x: int, prod: int)
    requires 0 <= l0 && 0 <= l1 && 0 <= w && x >= 1
    requires prod == l0 + x * (w + (x * x) * t + l1) && prod < (x * x) * (x * x)
    ensures t < x
  {
    var y := x * x;
    MulDistr(x, w + y * t, l1);
    MulDistr(x, w, y * t);
    MulLe(0, w, x);
    MulLe(0, l1, x);
    assert x * (y * t) < y * y;
    assert y * y == x * (y * x) by { MulAssoc(x, x, y); }
    if x <= t {
      MulLe(x, t, y);
      MulLe(y * x, y * t, x);
    }
  }

  /** Lines 215-218: the low quarter is L's, and L's high half is added once more. */
  method LowEnd(mem: array<Limb>, prodp: nat, n: nat, tspace: nat, ghost prod: int)
    requires n >= 1 && prodp + 4 * n <= mem.Length && tspace + 2 * n <= mem.Length
    requires Apart(prodp, 4 * n, tspace, 2 * n)
    requires prod == V(mem[..], tspace, n) + P(n) * (V(mem[..], prodp + n, 3 * n) + V(mem[..], tspace + n, n))
    requires prod < (P(n) * P(n)) * (P(n) * P(n))
    modifies mem
    ensures V(mem[..], prodp, 4 * n) == prod
    ensures SameOutside(old(mem[..]), mem[..], prodp, prodp + 4 * n)
  {
    hide V;
    hide P;
    hide SameOutside;
    ghost var m0 := mem[..];
    ghost var x := P(n);
    ghost var l0, l1, t := V(m0, tspace, n), V(m0, tspace + n, n), V(m0, prodp + n, 3 * n);
    CopyIncr(mem, prodp, tspace, n);
    ghost var m1 := mem[..];
    Keep(m0, m1, prodp, prodp + n, prodp + n, 3 * n);
    Keep(m0, m1, prodp, prodp + n, tspace + n, n);
    VSplit(m1, prodp + n, n, 2 * n);
    var cy := AddN(mem, prodp + n, prodp + n, tspace + n, n);
    ghost var m2 := mem[..];
    Keep(m1, m2, prodp + n, prodp + 2 * n, prodp, n);
    Keep(m1, m2, prodp + n, prodp + 2 * n, prodp + 2 * n, 2 * n);
    LowFits(l0, l1, t, V(m1, prodp + n, n), V(m2, prodp + 2 * n, 2 * n), V(m2, prodp + n, n), cy, x, prod);
    LastCarry(mem, prodp, n, cy, prod);
    SameTrans(m0, m1, m2, prodp, prodp + 4 * n, prodp, prodp + n, prodp + n, prodp + 2 * n);
    SameTrans(m0, m2, mem[..], prodp, prodp + 4 * n, prodp, prodp + 4 * n, prodp + 2 * n, prodp + 4 * n);
  }

  method LastCarry(mem: array<Limb>, prodp: nat, n: nat, cy: Limb, ghost prod: int)
    requires n >= 1 && prodp + 4 * n <= mem.Length && cy <= 1
    requires prod == V(mem[..], prodp, n)
                   + P(n) * (V(mem[..], prodp + n, n) + P(n) * (V(mem[..], prodp + 2 * n, 2 * n) + cy))
    requires V(mem[..], prodp + 2 * n, 2 * n) + cy < P(n) * P(n)
    modifies mem
    ensures V(mem[..], prodp, 4 * n) == prod
    ensures SameOutside(old(mem[..]), mem[..], prodp + 2 * n, prodp + 4 * n)
  {
    hide V;
    hide P;
    ghost var m := mem[..];
    PAdd(n, n);
    if cy != 0 {
      var out := Add1(mem, prodp + 2 * n, prodp + 2 * n, 2 * n, 1);
      NoCarry(V(mem[..], prodp + 2 * n, 2 * n), out, P(2 * n), V(m, prodp + 2 * n, 2 * n) + 1);
    }
    Quarters(m, mem[..], prodp, n);
  }

  lemma NoCarry(v: int, out: int, p: int, s: int)
    requires v + out * p == s && 0 <= v && 0 <= out && 0 < p && s < p
    ensures out == 0
  {
    if out >= 1 { MulLe(1, out, p); }
  }

  lemma Quarters(m: seq<Limb>, t: seq<Limb>, prodp: nat, n: nat)
    requires prodp + 4 * n <= |m| && SameOutside(m, t, prodp + 2 * n, prodp + 4 * n)
    ensures V(t, prodp, 4 * n) == V(m, prodp, n) + P(n) * (V(m, prodp + n, n) + P(n) * V(t, prodp + 2 * n, 2 * n))
  {
    hide V;
    hide P;
    hide SameOutside;
    Keep(m, t, prodp + 2 * n, prodp + 4 * n, prodp, n);
    Keep(m, t, prodp + 2 * n, prodp + 4 * n, prodp + n, n);
    VSplit(t, prodp, n, 3 * n);
    VSplit(t, prodp + n, n, 2 * n);
    Substitute(P(n), V(t, prodp + n, 3 * n), V(t, prodp + n, n), V(t, prodp + 2 * n, 2 * n));
  }

  lemma Substitute(x: int, w: int, b: int, c: int)
    requires w == b + x * c
    ensures x * w == x * (b + x * c)
  {
  }

  lemma LowFits(l0: int, l1: int, t: int, lo: int, b: int, a: int, cy: int, x: int, prod: int)
    requires 0 <= l0 && 0 <= a && x >= 1
    requires t == lo + x * b && a + cy * x == lo + l1
    requires prod == l0 + x * (t + l1) && prod < (x * x) * (x * x)
    ensures prod == l0 + x * (a + x * (b + cy))
    ensures b + cy < x * x
  {
    var y, h := x * x, b + cy;
    MulDistr(x, b, cy);
    assert t + l1 == a + x * h;
    MulDistr(x, a, x * h);
    MulLe(0, a, x);
    MulAssoc(x, x, h);
    if y <= h { MulLe(y, h, y); }
  }

  /** Product and work space (2*size limbs each) lie apart from each other and from both operands. */
  predicate MulArgs(len: nat, prodp: nat, up: nat, vp: nat, size: nat, tspace: nat)
  {
    && prodp + 2 * size <= len && tspace + 2 * size <= len && up + size <= len && vp + size <= len
    && Apart(prodp, 2 * size, tspace, 2 * size)
    && Apart(prodp, 2 * size, up, size) && Apart(prodp, 2 * size, vp, size)
    && Apart(tspace, 2 * size, up, size) && Apart(tspace, 2 * size, vp, size)
  }

  /** MPN_MUL_N_RECURSE (stdlib/gmp-impl.h). */
  method MulNRecurse(thr: nat, mem: array<Limb>, prodp: nat, up: nat, vp: nat, size: nat, tspace: nat)
    requires thr >= 2 && size >= 1 && MulArgs(mem.Length, prodp, up, vp, size, tspace)
    modifies mem
    ensures V(mem[..], prodp, 2 * size) == V(old(mem[..]), up, size) * V(old(mem[..]), vp, size)
    ensures SameOutside2(old(mem[..]), mem[..], prodp, 2 * size, tspace, 2 * size)
    decreases size, 3
  {
    if size < thr {
      hide V;
      hide P;
      ghost var m0 := mem[..];
      var _ := MulBasecase(mem, prodp, up, size, vp, size);
      Widen1(m0, mem[..], prodp, 2 * size, prodp, 2 * size, tspace, 2 * size);
    } else {
      MulN(thr, mem, prodp, up, vp, size, tspace);
    }
  }

  /** impn_mul_n: Karatsuba's method equals the product, for odd and even sizes. */
  method MulN(thr: nat, mem: array<Limb>, prodp: nat, up: nat, vp: nat, size: nat, tspace: nat)
    requires thr >= 2 && size >= 2 && MulArgs(mem.Length, prodp, up, vp, size, tspace)
    modifies mem
    ensures V(mem[..], prodp, 2 * size) == V(old(mem[..]), up, size) * V(old(mem[..]), vp, size)
    ensures SameOutside2(old(mem[..]), mem[..], prodp, 2 * size, tspace, 2 * size)
    decreases size, 2
  {
    if size % 2 != 0 {
      MulOdd(thr, mem, prodp, up, vp, size - 1, tspace);
    } else {
      MulEven(thr, mem, prodp, up, vp, size / 2, tspace);
    }
  }

  /** Lines 128-136: the odd top limbs are multiplied in separately. */
  method MulOdd(thr: nat, mem: array<Limb>, prodp: nat, up: nat, vp: nat, esize: nat, tspace: nat)
    requires thr >= 2 && esize >= 1 && MulArgs(mem.Length, prodp, up, vp, esize + 1, tspace)
    modifies mem
    ensures V(mem[..], prodp, 2 * (esize + 1)) == V(old(mem[..]), up, esize + 1) * V(old(mem[..]), vp, esize + 1)
    ensures SameOutside2(old(mem[..]), mem[..], prodp, 2 * (esize + 1), tspace, 2 * (esize + 1))
    decreases esize + 1, 1
  {
    hide V;
    hide P;
    hide SameOutside;
    hide SameOutside2;
    ghost var m0 := mem[..];
    ghost var size := esize + 1;
    MulNRecurse(thr, mem, prodp, up, vp, esize, tspace);
    ghost var m1 := mem[..];
    Keep2(m0, m1, prodp, 2 * esize, tspace, 2 * esize, up, esize);
    Keep2(m0, m1, prodp, 2 * esize, tspace, 2 * esize, vp, esize);
    Keep2(m0, m1, prodp, 2 * esize, tspace, 2 * esize, up, size);
    Keep2(m0, m1, prodp, 2 * esize, tspace, 2 * esize, vp, size);
    OddValue(m1, up, vp, esize);
    Widen2(m0, m1, prodp, 2 * esize, tspace, 2 * esize, prodp, 2 * size, tspace, 2 * size);
    OddTop(mem, prodp, up, vp, esize);
    Widen1(m1, mem[..], prodp, 2 * size, prodp, 2 * size, tspace, 2 * size);
    SameTrans2(m0, m1, mem[..], prodp, 2 * size, tspace, 2 * size);
  }

  lemma OddValue(m: seq<Limb>, up: nat, vp: nat, e: nat)
    requires up + e < |m| && vp + e < |m|
    ensures V(m, up, e + 1) * V(m, vp, e + 1)
         == V(m, up, e) * V(m, vp, e) + P(e) * (V(m, up, e) * m[vp + e]) + P(e) * (V(m, vp, e + 1) * m[up + e])
  {
    OddIdentity(V(m, up, e), m[up + e], V(m, vp, e), m[vp + e], P(e));
  }

  lemma OddIdentity(u: int, a: int, v: int, b: int, p: int)
    ensures (u + p * a) * (v + p * b) == u * v + p * (u * b) + p * ((v + p * b) * a)
  {
    MulDistr(v + p * b, u, p * a);
    MulDistr(u, v, p * b);
    MulAssoc(u, p, b);
    assert (p * a) * (v + p * b) == p * ((v + p * b) * a) by { MulAssoc(p, a, v + p * b); }
  }

  method OddTop(mem: array<Limb>, prodp: nat, up: nat, vp: nat, esize: nat)
    requires esize >= 1 && prodp + 2 * esize + 2 <= mem.Length && up + esize + 1 <= mem.Length
    requires vp + esize + 1 <= mem.Length
    requires Apart(prodp, 2 * esize + 2, up, esize + 1) && Apart(prodp, 2 * esize + 2, vp, esize + 1)
    modifies mem
    ensures V(mem[..], prodp, 2 * (esize + 1))
         == V(old(mem[..]), prodp, 2 * esize) + P(esize) * (V(old(mem[..]), up, esize) * old(mem[vp + esize]))
            + P(esize) * (V(old(mem[..]), vp, esize + 1) * old(mem[up + esize]))
    ensures SameOutside(old(mem[..]), mem[..], prodp, prodp + 2 * (esize + 1))
  {
    hide V;
    hide P;
    hide SameOutside;
    ghost var m0 := mem[..];
    AddMulStore(mem, prodp + esize, up, esize, mem[vp + esize]);
    ghost var m1 := mem[..];
    Keep(m0, m1, prodp + esize, prodp + 2 * esize + 1, vp, esize + 1);
    Keep(m0, m1, prodp + esize, prodp + 2 * esize + 1, up + esize, 1);
    OneLimb(m0, up + esize);
    OneLimb(m1, up + esize);
    AddMulStore(mem, prodp + esize, vp, esize + 1, mem[up + esize]);
    ghost var m2 := mem[..];
    SameTrans(m0, m1, m2, prodp + esize, prodp + 2 * esize + 2, prodp + esize, prodp + 2 * esize + 1,
              prodp + esize, prodp + 2 * esize + 2);
    Keep(m0, m2, prodp + esize, prodp + 2 * esize + 2, prodp, esize);
    SameWiden(m0, m2, prodp, prodp + 2 * esize + 2, prodp + esize, prodp + 2 * esize + 2);
    VSplit(m0, prodp, esize, esize);
    VSplit(m2, prodp, esize, esize + 2);
    Distribute(P(esize), V(m2, prodp + esize, esize + 2), V(m0, prodp + esize, esize),
               V(m0, up, esize) * m0[vp + esize], V(m0, vp, esize + 1) * m0[up + esize]);
  }

  /** mpn_addmul_1 with its carry stored above the result. */
  method AddMulStore(mem: array<Limb>, dst: nat, src: nat, size: nat, v: Limb)
    requires size >= 1 && dst + size < mem.Length && src + size <= mem.Length && Apart(dst, size + 1, src, size)
    modifies mem
    ensures V(mem[..], dst, size + 1) == V(old(mem[..]), dst, size) + V(old(mem[..]), src, size) * v
    ensures SameOutside(old(mem[..]), mem[..], dst, dst + size + 1)
  {
    hide V;
    hide P;
    var cy := AddMul1(mem, dst, src, size, v);
    ghost var m := mem[..];
    mem[dst + size] := cy;
    VPut(m, mem[..], dst, size);
  }

  lemma Distribute(p: int, w: int, a: int, b: int, c: int)
    requires w == a + b + c
    ensures p * w == p * a + p * b + p * c
  {
  }

  /** Lines 155-218, with hsize == n. */
  method MulEven(thr: nat, mem: array<Limb>, prodp: nat, up: nat, vp: nat, n: nat, tspace: nat)
    requires thr >= 2 && n >= 1 && MulArgs(mem.Length, prodp, up, vp, 2 * n, tspace)
    modifies mem
    ensures V(mem[..], prodp, 4 * n) == V(old(mem[..]), up, 2 * n) * V(old(mem[..]), vp, 2 * n)
    ensures SameOutside2(old(mem[..]), mem[..], prodp, 4 * n, tspace, 4 * n)
    decreases 2 * n, 1
  {
    hide V;
    hide P;
    hide SameOutside;
    hide SameOutside2;
    ghost var m0 := mem[..];
    ghost var u0, u1, v0, v1 := V(m0, up, n), V(m0, up + n, n), V(m0, vp, n), V(m0, vp + n, n);
    var cy, c, h0 := MulHM(thr, mem, prodp, up, vp, n, tspace);
    ghost var m1 := mem[..];
    Keep2(m0, m1, prodp, 4 * n, tspace, 4 * n, up, n);
    Keep2(m0, m1, prodp, 4 * n, tspace, 4 * n, vp, n);
    MulNRecurse(thr, mem, tspace, up, vp, n, tspace + 2 * n);
    ghost var m2 := mem[..];
    Keep2(m1, m2, tspace, 2 * n, tspace + 2 * n, 2 * n, prodp + n, 2 * n);
    Keep2(m1, m2, tspace, 2 * n, tspace + 2 * n, 2 * n, prodp + 3 * n, n);
    Widen2(m1, m2, tspace, 2 * n, tspace + 2 * n, 2 * n, prodp, 4 * n, tspace, 4 * n);
    SameTrans2(m0, m1, m2, prodp, 4 * n, tspace, 4 * n);
    HalfBounds(m0, up, vp, n);
    AddL(mem, prodp, n, tspace, cy, c, u0, u1, v0, v1, h0);
    Widen1(m2, mem[..], prodp, 4 * n, prodp, 4 * n, tspace, 4 * n);
    SameTrans2(m0, m2, mem[..], prodp, 4 * n, tspace, 4 * n);
    VSplit(m0, up, n, n);
    VSplit(m0, vp, n, n);
  }

  lemma HalfBounds(m: seq<Limb>, up: nat, vp: nat, n: nat)
    requires up + 2 * n <= |m| && vp + 2 * n <= |m|
    ensures 0 <= V(m, up, n) < P(n) && 0 <= V(m, up + n, n) < P(n)
    ensures 0 <= V(m, vp, n) < P(n) && 0 <= V(m, vp + n, n) < P(n)
  {
    VBound(m, up, n);
    VBound(m, up + n, n);
    VBound(m, vp, n);
    VBound(m, vp + n, n);
  }

  /** The operands keep all four halves while the product is made. */
  lemma KeepHalves(s: seq<Limb>, t: seq<Limb>, prodp: nat, up: nat, vp: nat, n: nat, tspace: nat)
    requires MulArgs(|s|, prodp, up, vp, 2 * n, tspace) && SameOutside2(s, t, prodp, 4 * n, tspace, 4 * n)
    ensures |t| == |s| && V(t, up, n) == V(s, up, n) && V(t, up + n, n) == V(s, up + n, n)
    ensures V(t, vp, n) == V(s, vp, n) && V(t, vp + n, n) == V(s, vp + n, n)
  {
    hide V;
    hide SameOutside2;
    Keep2(s, t, prodp, 4 * n, tspace, 4 * n, up, n);
    Keep2(s, t, prodp, 4 * n, tspace, 4 * n, up + n, n);
    Keep2(s, t, prodp, 4 * n, tspace, 4 * n, vp, n);
    Keep2(s, t, prodp, 4 * n, tspace, 4 * n, vp + n, n);
  }

  /** Lines 163-200: H and |M|, then H and M added into the middle. */
  method MulHM(thr: nat, mem: array<Limb>, prodp: nat, up: nat, vp: nat, n: nat, tspace: nat)
    returns (cy: Limb, ghost c: int, ghost h0: int)
    requires thr >= 2 && n >= 1 && MulArgs(mem.Length, prodp, up, vp, 2 * n, tspace)
    modifies mem
    ensures -1 <= c <= 2 && cy == (if c < 0 then B - 1 else c)
    ensures 0 <= h0 < P(n)
    ensures h0 + P(n) * V(mem[..], prodp + 3 * n, n) == V(old(mem[..]), up + n, n) * V(old(mem[..]), vp + n, n)
    ensures V(mem[..], prodp + n, 2 * n) + c * (P(n) * P(n))
         == V(old(mem[..]), up + n, n) * V(old(mem[..]), vp + n, n) + P(n) * h0
            + Cross(V(old(mem[..]), up, n), V(old(mem[..]), up + n, n), V(old(mem[..]), vp, n),
                V(old(mem[..]), vp + n, n))
    ensures SameOutside2(old(mem[..]), mem[..], prodp, 4 * n, tspace, 4 * n)
    decreases 2 * n, 0
  {
    hide V;
    hide P;
    hide Cross;
    hide SameOutside;
    hide SameOutside2;
    ghost var m0 := mem[..];
    MulNRecurse(thr, mem, prodp + 2 * n, up + n, vp + n, n, tspace);
    ghost var m1 := mem[..];
    Widen2(m0, m1, prodp + 2 * n, 2 * n, tspace, 2 * n, prodp, 4 * n, tspace, 4 * n);
    KeepHalves(m0, m1, prodp, up, vp, n, tspace);
    var neg := MulM(thr, mem, prodp, up, vp, n, tspace);
    ghost var m2 := mem[..];
    Keep2(m1, m2, prodp, 2 * n, tspace, 4 * n, prodp + 2 * n, 2 * n);
    Widen2(m1, m2, prodp, 2 * n, tspace, 4 * n, prodp, 4 * n, tspace, 4 * n);
    SameTrans2(m0, m1, m2, prodp, 4 * n, tspace, 4 * n);
    h0 := V(m2, prodp + 2 * n, n);
    VBound(m2, prodp + 2 * n, n);
    VSplit(m2, prodp + 2 * n, n, n);
    cy, c := AddHM(mem, prodp, n, tspace, neg);
    Keep(m2, mem[..], prodp + n, prodp + 3 * n, prodp + 3 * n, n);
    Widen1(m2, mem[..], prodp + n, 2 * n, prodp, 4 * n, tspace, 4 * n);
    SameTrans2(m0, m2, mem[..], prodp, 4 * n, tspace, 4 * n);
  }

  /** Lines 165-190: the product of the absolute differences, and the sign of (U1-U0)(V0-V1). */
  method MulM(thr: nat, mem: array<Limb>, prodp: nat, up: nat, vp: nat, n: nat, tspace: nat) returns (neg: bool)
    requires thr >= 2 && n >= 1 && MulArgs(mem.Length, prodp, up, vp, 2 * n, tspace)
    modifies mem
    ensures Cross(V(old(mem[..]), up, n), V(old(mem[..]), up + n, n), V(old(mem[..]), vp, n),
        V(old(mem[..]), vp + n, n))
         == if neg then -V(mem[..], tspace, 2 * n) else V(mem[..], tspace, 2 * n)
    ensures SameOutside2(old(mem[..]), mem[..], prodp, 2 * n, tspace, 4 * n)
    decreases n, 4
  {
    hide V;
    hide P;
    hide Cross;
    hide SameOutside;
    hide SameOutside2;
    ghost var m0 := mem[..];
    var neg1 := AbsDiff(mem, prodp, up, n);
    ghost var m1 := mem[..];
    Keep(m0, m1, prodp, prodp + n, vp, n);
    Keep(m0, m1, prodp, prodp + n, vp + n, n);
    var neg2 := AbsDiff(mem, prodp + n, vp, n);
    ghost var m2 := mem[..];
    Keep(m1, m2, prodp + n, prodp + 2 * n, prodp, n);
    SameTrans(m0, m1, m2, prodp, prodp + 2 * n, prodp, prodp + n, prodp + n, prodp + 2 * n);
    Widen1(m0, m2, prodp, 2 * n, prodp, 2 * n, tspace, 4 * n);
    neg := neg1 == neg2;
    MulNRecurse(thr, mem, tspace, prodp, prodp + n, n, tspace + 2 * n);
    Widen2(m2, mem[..], tspace, 2 * n, tspace + 2 * n, 2 * n, prodp, 2 * n, tspace, 4 * n);
    SameTrans2(m0, m2, mem[..], prodp, 2 * n, tspace, 4 * n);
    CrossSign(V(m0, up, n), V(m0, up + n, n), V(m0, vp, n), V(m0, vp + n, n), V(m2, prodp, n), V(m2, prodp + n, n));
  }

  lemma CrossSign(u0: int, u1: int, v0: int, v1: int, a: int, b: int)
    requires a == (if u1 < u0 then u0 - u1 else u1 - u0)
    requires b == (if v1 < v0 then v0 - v1 else v1 - v0)
    ensures Cross(u0, u1, v0, v1) == if (u1 < u0) == (v1 < v0) then -(a * b) else a * b
  {
  }

  predicate SqrArgs(len: nat, prodp: nat, up: nat, size: nat, tspace: nat)
  {
    && prodp + 2 * size <= len && tspace + 2 * size <= len && up + size <= len
    && Apart(prodp, 2 * size, tspace, 2 * size)
    && Apart(prodp, 2 * size, up, size) && Apart(tspace, 2 * size, up, size)
  }

  /** MPN_SQR_N_RECURSE (stdlib/gmp-impl.h). */
  method SqrNRecurse(thr: nat, mem: array<Limb>, prodp: nat, up: nat, size: nat, tspace: nat)
    requires thr >= 2 && size >= 1 && SqrArgs(mem.Length, prodp, up, size, tspace)
    modifies mem
    ensures V(mem[..], prodp, 2 * size) == V(old(mem[..]), up, size) * V(old(mem[..]), up, size)
    ensures SameOutside2(old(mem[..]), mem[..], prodp, 2 * size, tspace, 2 * size)
    decreases size, 3
  {
    if size < thr {
      hide V;
      hide P;
      ghost var m0 := mem[..];
      var _ := MulBasecase(mem, prodp, up, size, up, size);
      Widen1(m0, mem[..], prodp, 2 * size, prodp, 2 * size, tspace, 2 * size);
    } else {
      SqrN(thr, mem, prodp, up, size, tspace);
    }
  }

  /** impn_sqr_n: the squaring recursion, whose middle product is always subtracted. */
  method SqrN(thr: nat, mem: array<Limb>, prodp: nat, up: nat, size: nat, tspace: nat)
    requires thr >= 2 && size >= 2 && SqrArgs(mem.Length, prodp, up, size, tspace)
    modifies mem
    ensures V(mem[..], prodp, 2 * size) == V(old(mem[..]), up, size) * V(old(mem[..]), up, size)
    ensures SameOutside2(old(mem[..]), mem[..], prodp, 2 * size, tspace, 2 * size)
    decreases size, 2
  {
    if size % 2 != 0 {
      SqrOdd(thr, mem, prodp, up, size - 1, tspace);
    } else {
      SqrEven(thr, mem, prodp, up, size / 2, tspace);
    }
  }

  method SqrOdd(thr: nat, mem: array<Limb>, prodp: nat, up: nat, esize: nat, tspace: nat)
    requires thr >= 2 && esize >= 1 && SqrArgs(mem.Length, prodp, up, esize + 1, tspace)
    modifies mem
    ensures V(mem[..], prodp, 2 * (esize + 1)) == V(old(mem[..]), up, esize + 1) * V(old(mem[..]), up, esize + 1)
    ensures SameOutside2(old(mem[..]), mem[..], prodp, 2 * (esize + 1), tspace, 2 * (esize + 1))
    decreases esize + 1, 1
  {
    hide V;
    hide P;
    hide SameOutside;
    hide SameOutside2;
    ghost var m0 := mem[..];
    ghost var size := esize + 1;
    SqrNRecurse(thr, mem, prodp, up, esize, tspace);
    ghost var m1 := mem[..];
    Keep2(m0, m1, prodp, 2 * esize, tspace, 2 * esize, up, esize);
    Keep2(m0, m1, prodp, 2 * esize, tspace, 2 * esize, up, size);
    OddValue(m1, up, up, esize);
    Widen2(m0, m1, prodp, 2 * esize, tspace, 2 * esize, prodp, 2 * size, tspace, 2 * size);
    OddTop(mem, prodp, up, up, esize);
    Widen1(m1, mem[..], prodp, 2 * size, prodp, 2 * size, tspace, 2 * size);
    SameTrans2(m0, m1, mem[..], prodp, 2 * size, tspace, 2 * size);
  }

  method SqrEven(thr: nat, mem: array<Limb>, prodp: nat, up: nat, n: nat, tspace: nat)
    requires thr >= 2 && n >= 1 && SqrArgs(mem.Length, prodp, up, 2 * n, tspace)
    modifies mem
    ensures V(mem[..], prodp, 4 * n) == V(old(mem[..]), up, 2 * n) * V(old(mem[..]), up, 2 * n)
    ensures SameOutside2(old(mem[..]), mem[..], prodp, 4 * n, tspace, 4 * n)
    decreases 2 * n, 1
  {
    hide V;
    hide P;
    hide SameOutside;
    hide SameOutside2;
    ghost var m0 := mem[..];
    ghost var u0, u1 := V(m0, up, n), V(m0, up + n, n);
    var cy, c, h0 := SqrHM(thr, mem, prodp, up, n, tspace);
    ghost var m1 := mem[..];
    Keep2(m0, m1, prodp, 4 * n, tspace, 4 * n, up, n);
    SqrNRecurse(thr, mem, tspace, up, n, tspace + 2 * n);
    ghost var m2 := mem[..];
    Keep2(m1, m2, tspace, 2 * n, tspace + 2 * n, 2 * n, prodp + n, 2 * n);
    Keep2(m1, m2, tspace, 2 * n, tspace + 2 * n, 2 * n, prodp + 3 * n, n);
    Widen2(m1, m2, tspace, 2 * n, tspace + 2 * n, 2 * n, prodp, 4 * n, tspace, 4 * n);
    SameTrans2(m0, m1, m2, prodp, 4 * n, tspace, 4 * n);
    HalfBounds(m0, up, up, n);
    AddL(mem, prodp, n, tspace, cy, c, u0, u1, u0, u1, h0);
    Widen1(m2, mem[..], prodp, 4 * n, prodp, 4 * n, tspace, 4 * n);
    SameTrans2(m0, m2, mem[..], prodp, 4 * n, tspace, 4 * n);
    VSplit(m0, up, n, n);
  }

  /** Lines 315-338. */
  method SqrHM(thr: nat, mem: array<Limb>, prodp: nat, up: nat, n: nat, tspace: nat)
    returns (cy: Limb, ghost c: int, ghost h0: int)
    requires thr >= 2 && n >= 1 && SqrArgs(mem.Length, prodp, up, 2 * n, tspace)
    modifies mem
    ensures -1 <= c <= 2 && cy == (if c < 0 then B - 1 else c)
    ensures 0 <= h0 < P(n)
    ensures h0 + P(n) * V(mem[..], prodp + 3 * n, n) == V(old(mem[..]), up + n, n) * V(old(mem[..]), up + n, n)
    ensures V(mem[..], prodp + n, 2 * n) + c * (P(n) * P(n))
         == V(old(mem[..]), up + n, n) * V(old(mem[..]), up + n, n) + P(n) * h0
            + Cross(V(old(mem[..]), up, n), V(old(mem[..]), up + n, n), V(old(mem[..]), up, n),
                V(old(mem[..]), up + n, n))
    ensures SameOutside2(old(mem[..]), mem[..], prodp, 4 * n, tspace, 4 * n)
    decreases 2 * n, 0
  {
    hide V;
    hide P;
    hide Cross;
    hide SameOutside;
    hide SameOutside2;
    ghost var m0 := mem[..];
    SqrNRecurse(thr, mem, prodp + 2 * n, up + n, n, tspace);
    ghost var m1 := mem[..];
    Widen2(m0, m1, prodp + 2 * n, 2 * n, tspace, 2 * n, prodp, 4 * n, tspace, 4 * n);
    Keep2(m0, m1, prodp, 4 * n, tspace, 4 * n, up, n);
    Keep2(m0, m1, prodp, 4 * n, tspace, 4 * n, up + n, n);
    SqrM(thr, mem, prodp, up, n, tspace);
    ghost var m2 := mem[..];
    Keep2(m1, m2, prodp, 2 * n, tspace, 4 * n, prodp + 2 * n, 2 * n);
    Widen2(m1, m2, prodp, 2 * n, tspace, 4 * n, prodp, 4 * n, tspace, 4 * n);
    SameTrans2(m0, m1, m2, prodp, 4 * n, tspace, 4 * n);
    h0 := V(m2, prodp + 2 * n, n);
    VBound(m2, prodp + 2 * n, n);
    VSplit(m2, prodp + 2 * n, n, n);
    cy, c := AddHM(mem, prodp, n, tspace, true);
    Keep(m2, mem[..], prodp + n, prodp + 3 * n, prodp + 3 * n, n);
    Widen1(m2, mem[..], prodp + n, 2 * n, prodp, 4 * n, tspace, 4 * n);
    SameTrans2(m0, m2, mem[..], prodp, 4 * n, tspace, 4 * n);
  }

  method SqrM(thr: nat, mem: array<Limb>, prodp: nat, up: nat, n: nat, tspace: nat)
    requires thr >= 2 && n >= 1 && SqrArgs(mem.Length, prodp, up, 2 * n, tspace)
    modifies mem
    ensures Cross(V(old(mem[..]), up, n), V(old(mem[..]), up + n, n), V(old(mem[..]), up, n),
        V(old(mem[..]), up + n, n))
         == -V(mem[..], tspace, 2 * n)
    ensures SameOutside2(old(mem[..]), mem[..], prodp, 2 * n, tspace, 4 * n)
    decreases n, 4
  {
    hide V;
    hide P;
    hide Cross;
    hide SameOutside;
    hide SameOutside2;
    ghost var m0 := mem[..];
    var _ := AbsDiff(mem, prodp, up, n);
    ghost var m1 := mem[..];
    Widen1(m0, m1, prodp, n, prodp, 2 * n, tspace, 4 * n);
    SqrNRecurse(thr, mem, tspace, prodp, n, tspace + 2 * n);
    Widen2(m1, mem[..], tspace, 2 * n, tspace + 2 * n, 2 * n, prodp, 2 * n, tspace, 4 * n);
    SameTrans2(m0, m1, mem[..], prodp, 2 * n, tspace, 4 * n);
    CrossSign(V(m0, up, n), V(m0, up + n, n), V(m0, up, n), V(m0, up + n, n), V(m1, prodp, n), V(m1, prodp, n));
  }

  /** mpn_mul_n; `tspace` is the run that TMP_ALLOC returns. */
  method MulSameSize(thr: nat, mem: array<Limb>, prodp: nat, up: nat, vp: nat, size: nat, tspace: nat)
    requires thr >= 2 && size >= 1 && MulArgs(mem.Length, prodp, up, vp, size, tspace)
    modifies mem
    ensures V(mem[..], prodp, 2 * size) == V(old(mem[..]), up, size) * V(old(mem[..]), vp, size)
    ensures SameOutside2(old(mem[..]), mem[..], prodp, 2 * size, tspace, 2 * size)
  {
    if up == vp {
      SqrNRecurse(thr, mem, prodp, up, size, tspace);
    } else {
      MulNRecurse(thr, mem, prodp, up, vp, size, tspace);
    }
  }

  /** Limbs that mpn_mul and its recursive calls take from TMP_ALLOC. */
  function Scratch(thr: nat, usize: nat, vsize: nat): nat
    decreases vsize
  {
    if vsize < thr || vsize == 0 then 0
    else 4 * vsize + (if usize % vsize != 0 then Scratch(thr, vsize, usize % vsize) else 0)
  }

  /** Lines 130-131 and 146-147: add the block product at `tp` (v + w limbs) onto `v` limbs. */
  method AddBlock(mem: array<Limb>, prodp: nat, tp: nat, v: nat, w: nat)
    requires v >= 1 && w >= 1 && prodp + v + w <= mem.Length && tp + v + w <= mem.Length
    requires Apart(prodp, v + w, tp, v + w)
    requires V(mem[..], prodp, v) + V(mem[..], tp, v + w) < P(v + w)
    modifies mem
    ensures V(mem[..], prodp, v + w) == V(old(mem[..]), prodp, v) + V(old(mem[..]), tp, v + w)
    ensures SameOutside(old(mem[..]), mem[..], prodp, prodp + v + w)
  {
    hide V;
    hide P;
    hide SameOutside;
    ghost var m0 := mem[..];
    var cy := AddN(mem, prodp, prodp, tp, v);
    ghost var m1 := mem[..];
    Keep(m0, m1, prodp, prodp + v, tp + v, w);
    var out := Add1(mem, prodp + v, tp + v, w, cy);
    ghost var m2 := mem[..];
    Keep(m1, m2, prodp + v, prodp + v + w, prodp, v);
    SameTrans(m0, m1, m2, prodp, prodp + v + w, prodp, prodp + v, prodp + v, prodp + v + w);
    VSplit(m0, tp, v, w);
    VSplit(m2, prodp, v, w);
    PAdd(v, w);
    BlockSum(V(m0, prodp, v), V(m0, tp, v), V(m0, tp + v, w), V(m2, prodp, v), V(m2, prodp + v, w), cy, out, P(v),
        P(w));
  }

  lemma BlockSum(a: int, t0: int, t1: int, r0: int, r1: int, cy: int, out: int, p: int, q: int)
    requires r0 + cy * p == a + t0 && r1 + out * q == t1 + cy
    requires a + (t0 + p * t1) < p * q && 0 <= r0 && 0 <= r1 && 0 <= out && p >= 1 && q >= 1
    ensures out == 0 && r0 + p * r1 == a + (t0 + p * t1)
  {
    assert p * (r1 + out * q) == p * (t1 + cy);
    MulDistr(p, r1, out * q);
    MulDistr(p, t1, cy);
    MulAssoc(p, out, q);
    MulLe(0, r1, p);
    if out >= 1 { MulLe(1, out, p * q); }
  }

  /** After another block of U the low part holds the product with one block more. */
  lemma BlocksGrow(m: seq<Limb>, t: seq<Limb>, m0: seq<Limb>, prodp: nat, up: nat, vp: nat, d: nat, v: nat, w: nat)
    requires prodp + d + v + w <= |m| == |t| == |m0| && up + d + w <= |m0| && vp + v <= |m0|
    requires SameOutside(m, t, prodp + d, prodp + d + v + w)
    requires V(m, prodp, d + v) == V(m0, up, d) * V(m0, vp, v)
    requires V(t, prodp + d, v + w) == V(m, prodp + d, v) + V(m0, up + d, w) * V(m0, vp, v)
    ensures V(t, prodp, d + v + w) == V(m0, up, d + w) * V(m0, vp, v)
  {
    hide V;
    hide P;
    hide SameOutside;
    var x := V(m0, vp, v);
    Keep(m, t, prodp + d, prodp + d + v + w, prodp, d);
    VSplit(m, prodp, d, v);
    VSplit(t, prodp, d, v + w);
    VSplit(m0, up, d, w);
    GrowIdentity(P(d), V(t, prodp + d, v + w), V(m, prodp + d, v), V(m0, up, d), V(m0, up + d, w), x, V(m, prodp, d));
  }

  lemma GrowIdentity(p: int, z: int, y: int, u0: int, u1: int, x: int, lo: int)
    requires z == y + u1 * x && lo + p * y == u0 * x
    ensures lo + p * z == (u0 + p * u1) * x
  {
    MulDistr(p, y, u1 * x);
    MulDistr(x, u0, p * u1);
    MulAssoc(p, u1, x);
  }

  lemma BlockFits(a: int, u: int, x: int, p: int, q: int)
    requires 0 <= a < p && 0 <= u < q && 0 <= x < p
    ensures a + u * x < p * q
  {
    MulLe(u, q - 1, x);
    MulLe(x, p - 1, q - 1);
    MulDistr(q - 1, p, 1);
    MulDistr(p, q, 1);
  }

  predicate BlockArgs(len: nat, prodp: nat, up: nat, usize: nat, vp: nat, vsize: nat, sp: nat, need: nat)
  {
    && prodp + usize + vsize <= len && up + usize <= len && vp + vsize <= len && sp + need <= len
    && Apart(prodp, usize + vsize, up, usize) && Apart(prodp, usize + vsize, vp, vsize)
    && Apart(prodp, usize + vsize, sp, need) && Apart(up, usize, sp, need) && Apart(vp, vsize, sp, need)
  }

  /** mpn_mul: schoolbook below the threshold, otherwise blocks of vsize limbs and a recursive
      call for the rest.  Memory from `sp` on is what TMP_ALLOC hands out. */
  method Mul(thr: nat, mem: array<Limb>, prodp: nat, up: nat, usize: nat, vp: nat, vsize: nat, sp: nat)
    returns (top: Limb)
    requires thr >= 2 && usize >= vsize
    requires BlockArgs(mem.Length, prodp, up, usize, vp, vsize, sp, Scratch(thr, usize, vsize))
    modifies mem
    ensures vsize == 0 ==> top == 0 && mem[..] == old(mem[..])
    ensures vsize >= 1 ==> top == mem[prodp + usize + vsize - 1]
    ensures vsize >= 1 ==> V(mem[..], prodp, usize + vsize) == V(old(mem[..]), up, usize) * V(old(mem[..]), vp, vsize)
    ensures SameOutside2(old(mem[..]), mem[..], prodp, usize + vsize, sp, Scratch(thr, usize, vsize))
    decreases vsize, 1
  {
    hide V;
    hide P;
    ghost var m0 := mem[..];
    if vsize < thr {
      if vsize == 0 { return 0; }
      top := MulBasecase(mem, prodp, up, usize, vp, vsize);
      return;
    }
    ghost var need := Scratch(thr, usize, vsize);
    hide SameOutside;
    hide SameOutside2;
    var d := MulBlocks(thr, mem, prodp, up, usize, vp, vsize, sp);
    ghost var m1 := mem[..];
    Widen2(m0, m1, prodp, d + vsize, sp, 4 * vsize, prodp, usize + vsize, sp, need);
    if d != usize {
      BlockRest(thr, usize, vsize, d);
      MulRest(thr, mem, prodp, up, d, usize - d, vp, vsize, sp, m0, need);
      SameTrans2(m0, m1, mem[..], prodp, usize + vsize, sp, need);
    }
    top := mem[prodp + usize + vsize - 1];
  }

  lemma BlockRest(thr: nat, usize: nat, vsize: nat, d: nat)
    requires vsize >= 1 && thr <= vsize && d < usize < d + vsize && d % vsize == 0
    ensures Scratch(thr, usize, vsize) == 4 * vsize + Scratch(thr, vsize, usize - d)
  {
    var k := d / vsize;
    assert d == k * vsize;
    assert usize == k * vsize + (usize - d);
    QuotRem(usize, k, usize - d, vsize);
  }

  lemma NextMultiple(d: nat, v: nat)
    requires v >= 1 && d % v == 0
    ensures (d + v) % v == 0
  {
    QuotRem(d + v, d / v + 1, 0, v);
  }

  /** Lines 118-137: all whole blocks of U. */
  method MulBlocks(thr: nat, mem: array<Limb>, prodp: nat, up: nat, usize: nat, vp: nat, vsize: nat, sp: nat)
    returns (d: nat)
    requires thr >= 2 && usize >= vsize >= 1
    requires BlockArgs(mem.Length, prodp, up, usize, vp, vsize, sp, 4 * vsize)
    modifies mem
    ensures d <= usize < d + vsize && d % vsize == 0
    ensures V(mem[..], prodp, d + vsize) == V(old(mem[..]), up, d) * V(old(mem[..]), vp, vsize)
    ensures SameOutside2(old(mem[..]), mem[..], prodp, d + vsize, sp, 4 * vsize)
  {
    hide V;
    hide P;
    hide SameOutside;
    hide SameOutside2;
    ghost var m0 := mem[..];
    var tspace, tp := sp, sp + 2 * vsize;
    MulNRecurse(thr, mem, prodp, up, vp, vsize, tspace);
    Widen2(m0, mem[..], prodp, 2 * vsize, tspace, 2 * vsize, prodp, 2 * vsize, sp, 4 * vsize);
    d := vsize;
    QuotRem(d, 1, 0, vsize);
    while usize - d >= vsize
      invariant vsize <= d <= usize && d % vsize == 0
      invariant V(mem[..], prodp, d + vsize) == V(m0, up, d) * V(m0, vp, vsize)
      invariant SameOutside2(m0, mem[..], prodp, d + vsize, sp, 4 * vsize)
    {
      MulOneBlock(thr, mem, prodp, up, usize, vp, vsize, sp, d, m0);
      NextMultiple(d, vsize);
      d := d + vsize;
    }
  }

  /** One turn of the do loop of lines 127-136. */
  method MulOneBlock(thr: nat, mem: array<Limb>, prodp: nat, up: nat, usize: nat, vp: nat, vsize: nat, sp: nat,
                     d: nat, ghost m0: seq<Limb>)
    requires thr >= 2 && vsize >= 1 && d + vsize <= usize
    requires BlockArgs(mem.Length, prodp, up, usize, vp, vsize, sp, 4 * vsize)
    requires |m0| == mem.Length && V(mem[..], prodp, d + vsize) == V(m0, up, d) * V(m0, vp, vsize)
    requires SameOutside2(m0, mem[..], prodp, d + vsize, sp, 4 * vsize)
    modifies mem
    ensures V(mem[..], prodp, d + 2 * vsize) == V(m0, up, d + vsize) * V(m0, vp, vsize)
    ensures SameOutside2(m0, mem[..], prodp, d + 2 * vsize, sp, 4 * vsize)
  {
    hide V;
    hide P;
    hide SameOutside;
    hide SameOutside2;
    var tspace, tp := sp, sp + 2 * vsize;
    ghost var m1 := mem[..];
    Keep2(m0, m1, prodp, d + vsize, sp, 4 * vsize, up + d, vsize);
    Keep2(m0, m1, prodp, d + vsize, sp, 4 * vsize, vp, vsize);
    Widen2(m0, m1, prodp, d + vsize, sp, 4 * vsize, prodp, d + 2 * vsize, sp, 4 * vsize);
    MulNRecurse(thr, mem, tp, up + d, vp, vsize, tspace);
    ghost var m2 := mem[..];
    Keep2(m1, m2, tp, 2 * vsize, tspace, 2 * vsize, prodp + d, vsize);
    Keep2(m1, m2, tp, 2 * vsize, tspace, 2 * vsize, prodp, d + vsize);
    Widen2(m1, m2, tp, 2 * vsize, tspace, 2 * vsize, prodp, d + 2 * vsize, sp, 4 * vsize);
    SameTrans2(m0, m1, m2, prodp, d + 2 * vsize, sp, 4 * vsize);
    AddProduct(mem, prodp, up, vp, d, vsize, vsize, tp, m0);
    Widen1(m2, mem[..], prodp + d, 2 * vsize, prodp, d + 2 * vsize, sp, 4 * vsize);
    SameTrans2(m0, m2, mem[..], prodp, d + 2 * vsize, sp, 4 * vsize);
  }

  lemma FitsAt(m: seq<Limb>, a: nat, m0: seq<Limb>, up: nat, vp: nat, v: nat, w: nat)
    requires a + v <= |m| && up + w <= |m0| && vp + v <= |m0|
    ensures V(m, a, v) + V(m0, up, w) * V(m0, vp, v) < P(v + w)
  {
    VBound(m, a, v);
    VBound(m0, up, w);
    VBound(m0, vp, v);
    PAdd(v, w);
    BlockFits(V(m, a, v), V(m0, up, w), V(m0, vp, v), P(v), P(w));
  }

  /** The block product at `tp` joins the product of the first `d` limbs of U. */
  method AddProduct(mem: array<Limb>, prodp: nat, up: nat, vp: nat, d: nat, v: nat, w: nat, tp: nat,
                    ghost m0: seq<Limb>)
    requires v >= 1 && w >= 1 && prodp + d + v + w <= mem.Length == |m0| && tp + v + w <= mem.Length
    requires up + d + w <= |m0| && vp + v <= |m0| && Apart(prodp + d, v + w, tp, v + w)
    requires V(mem[..], prodp, d + v) == V(m0, up, d) * V(m0, vp, v)
    requires V(mem[..], tp, v + w) == V(m0, up + d, w) * V(m0, vp, v)
    modifies mem
    ensures V(mem[..], prodp, d + v + w) == V(m0, up, d + w) * V(m0, vp, v)
    ensures SameOutside(old(mem[..]), mem[..], prodp + d, prodp + d + v + w)
  {
    hide V;
    hide P;
    hide SameOutside;
    ghost var m := mem[..];
    FitsAt(m, prodp + d, m0, up + d, vp, v, w);
    AddBlock(mem, prodp + d, tp, v, w);
    BlocksGrow(m, mem[..], m0, prodp, up, vp, d, v, w);
  }

  lemma SwapFactors(x: int, x': int, y: int, y': int)
    requires x == x' && y == y'
    ensures x * y == y' * x'
  {
  }

  /** Lines 143-148: the remaining `w` limbs of U by a recursive call with the operands swapped. */
  method MulRest(thr: nat, mem: array<Limb>, prodp: nat, up: nat, d: nat, w: nat, vp: nat, vsize: nat, sp: nat,
                 ghost m0: seq<Limb>, ghost need: nat)
    requires thr >= 2 && thr <= vsize && 1 <= w < vsize
    requires need == 4 * vsize + Scratch(thr, vsize, w)
    requires BlockArgs(mem.Length, prodp, up, d + w, vp, vsize, sp, need)
    requires |m0| == mem.Length && V(mem[..], prodp, d + vsize) == V(m0, up, d) * V(m0, vp, vsize)
    requires SameOutside2(m0, mem[..], prodp, d + vsize + w, sp, need)
    modifies mem
    ensures V(mem[..], prodp, d + vsize + w) == V(m0, up, d + w) * V(m0, vp, vsize)
    ensures SameOutside2(old(mem[..]), mem[..], prodp, d + vsize + w, sp, need)
    decreases vsize, 0
  {
    ghost var rest := Scratch(thr, vsize, w);
    hide V;
    hide P;
    hide Scratch;
    hide SameOutside;
    hide SameOutside2;
    ghost var m1 := mem[..];
    Keep2(m0, m1, prodp, d + vsize + w, sp, need, up + d, w);
    Keep2(m0, m1, prodp, d + vsize + w, sp, need, vp, vsize);
    RestProduct(thr, mem, sp, vp, vsize, up + d, w, sp + 4 * vsize, m0);
    ghost var m2 := mem[..];
    Keep2(m1, m2, sp, vsize + w, sp + 4 * vsize, rest, prodp, d + vsize);
    Widen2(m1, m2, sp, vsize + w, sp + 4 * vsize, rest, prodp, d + vsize + w, sp, need);
    AddProduct(mem, prodp, up, vp, d, vsize, w, sp, m0);
    Widen1(m2, mem[..], prodp + d, vsize + w, prodp, d + vsize + w, sp, need);
    SameTrans2(m1, m2, mem[..], prodp, d + vsize + w, sp, need);
  }

  method RestProduct(thr: nat, mem: array<Limb>, tp: nat, vp: nat, vsize: nat, up: nat, w: nat, sp: nat,
                     ghost m0: seq<Limb>)
    requires thr >= 2 && vsize > w >= 1 && |m0| == mem.Length
    requires BlockArgs(mem.Length, tp, vp, vsize, up, w, sp, Scratch(thr, vsize, w))
    requires V(mem[..], vp, vsize) == V(m0, vp, vsize) && V(mem[..], up, w) == V(m0, up, w)
    modifies mem
    ensures V(mem[..], tp, vsize + w) == V(m0, up, w) * V(m0, vp, vsize)
    ensures SameOutside2(old(mem[..]), mem[..], tp, vsize + w, sp, Scratch(thr, vsize, w))
    decreases w, 2
  {
    hide V;
    ghost var m := mem[..];
    var _ := Mul(thr, mem, tp, vp, vsize, up, w, sp);
    SwapFactors(V(m, vp, vsize), V(m0, vp, vsize), V(m, up, w), V(m0, up, w));
  }
}
