/** The single-pass limb loops: gmp/mpn-add_n.c, mpn-sub_n.c, mpn-mul_1.c,
mpn-addmul_1.c, mpn-submul_1.c, mpn-cmp.c, and mpn_add_1 and the MPN_COPY
macros of stdlib/gmp.h and stdlib/gmp-impl.h. */
module MpnLow {
  import opened Limbs
  import opened LongLong

  /** Writing limb `j` of a run extends its value and keeps the limbs below. */
  lemma VPut(s: seq<Limb>, t: seq<Limb>, a: nat, j: nat)
    requires a + j < |s| && SameOutside(s, t, a + j, a + j + 1)
    ensures V(t, a, j + 1) == V(s, a, j) + t[a + j] * P(j)
  {
    VSame(s, a, t, a, j);
  }

  /** One column of a sum with carry: digit `t[a + j]` and carry `d` out, `x` and carry `c` in. */
  lemma Column(s: seq<Limb>, t: seq<Limb>, a: nat, j: nat, c: int, d: int, x: int)
    requires a + j < |s| && SameOutside(s, t, a + j, a + j + 1)
    requires t[a + j] + d * B == x + c
    ensures V(t, a, j + 1) + d * P(j + 1) == V(s, a, j) + c * P(j) + x * P(j)
  {
    VPut(s, t, a, j);
    var y, p := t[a + j], P(j);
    assert (y + d * B) * p == (x + c) * p;
    MulDistr(p, y, d * B);
    MulDistr(p, x, c);
    MulAssoc(d, B, p);
  }

  // The loop invariants: the first `j` columns are done and `c` (negative for a borrow) is the
  // carry into the next one.

  /** The run at `a` holds the sum of the run at `b` and `sign` times the run at `e`. */
  ghost predicate SumUpTo(m0: seq<Limb>, t: seq<Limb>, a: nat, b: nat, e: nat, j: nat, c: int, sign: int)
    requires a + j <= |t| && b + j <= |m0| && e + j <= |m0|
  {
    V(t, a, j) + c * P(j) == V(m0, b, j) + sign * V(m0, e, j)
  }

  /** The run at `a` holds `base` times its old value plus `v` times the run at `b`. */
  ghost predicate ProductUpTo(m0: seq<Limb>, t: seq<Limb>, a: nat, b: nat, j: nat, c: int, base: int, v: int)
    requires a + j <= |t| == |m0| && b + j <= |m0|
  {
    V(t, a, j) + c * P(j) == base * V(m0, a, j) + V(m0, b, j) * v
  }

  lemma SumTurn(m0: seq<Limb>, s: seq<Limb>, t: seq<Limb>, a: nat, b: nat, e: nat, j: nat, c: int, d: int, sign: int)
    requires a + j < |s| && SameOutside(s, t, a + j, a + j + 1) && b + j < |m0| && e + j < |m0|
    requires SumUpTo(m0, s, a, b, e, j, c, sign) && (sign == 1 || sign == -1)
    requires t[a + j] + d * B == m0[b + j] + sign * m0[e + j] + c
    ensures SumUpTo(m0, t, a, b, e, j + 1, d, sign)
  {
    var x: int, y: int, p := m0[b + j], sign * m0[e + j], P(j);
    Column(s, t, a, j, c, d, x + y);
    MulDistr(p, x, y);
    MulDistr(sign, V(m0, e, j), m0[e + j] * p);
    MulAssoc(sign, m0[e + j], p);
  }

  lemma ProductTurn(m0: seq<Limb>, s: seq<Limb>, t: seq<Limb>, a: nat, b: nat, j: nat, c: int, d: int, base: int,
                    v: int)
    requires a + j < |s| == |m0| && SameOutside(s, t, a + j, a + j + 1) && b + j < |m0|
    requires ProductUpTo(m0, s, a, b, j, c, base, v) && 0 <= base <= 1
    requires t[a + j] + d * B == base * m0[a + j] + m0[b + j] * v + c
    ensures ProductUpTo(m0, t, a, b, j + 1, d, base, v)
  {
    var x: int, w: int, p, u := base * m0[a + j], m0[b + j], P(j), V(m0, b, j);
    Column(s, t, a, j, c, d, x + w * v);
    MulDistr(p, x, w * v);
    assert (u + w * p) * v == u * v + (w * v) * p by {
      MulDistr(v, u, w * p);
      MulAssoc(v, w, p);
    }
  }

  lemma MulNeg(x: int, y: int)
    ensures (-x) * y == -(x * y) == y * (-x)
  {
  }

  /** The product and its carry in, the head of all three multiplying loops. */
  method UmulAdd(u: Limb, v: Limb, c: Limb) returns (lo: Limb, cy: Limb)
    ensures lo + cy * B == u * v + c
    ensures cy == B - 1 ==> lo == 0
  {
    var hi;
    hi, lo := UmulPpmm(u, v);
    lo := Add(lo, c);
    cy := (if lo < c then 1 else 0) + hi;
    ProductBound(u, v, B - 1);
  }

  /** One column of mpn_addmul_1: the carry stays within one limb. */
  method UmulAddAdd(u: Limb, v: Limb, c: Limb, x: Limb) returns (lo: Limb, cy: Limb)
    ensures lo + cy * B == x + u * v + c
  {
    lo, cy := UmulAdd(u, v, c);
    lo := Add(x, lo);
    cy := cy + (if lo < x then 1 else 0);
  }

  /** One column of mpn_submul_1: the borrow stays within one limb. */
  method UmulAddSub(u: Limb, v: Limb, c: Limb, x: Limb) returns (lo: Limb, cy: Limb)
    ensures lo + (0 - cy) * B == x + u * (0 - v) + (0 - c)
  {
    lo, cy := UmulAdd(u, v, c);
    lo := Sub(x, lo);
    cy := cy + (if lo > x then 1 else 0);
    MulNeg(v, u);
  }

  lemma ProductBound(u: int, v: int, m: int)
    requires 0 <= u <= m && 0 <= v <= m
    ensures 0 <= u * v <= m * m
  {
    MulLe(u, m, v);
    MulLe(v, m, m);
  }

  method AddN(mem: array<Limb>, res: nat, s1: nat, s2: nat, size: nat) returns (cy: Limb)
    requires size >= 1
    requires res + size <= mem.Length && s1 + size <= mem.Length && s2 + size <= mem.Length
    requires ReadsAhead(res, s1, size) && ReadsAhead(res, s2, size)
    modifies mem
    ensures cy <= 1
    ensures V(mem[..], res, size) + cy * P(size) == V(old(mem[..]), s1, size) + V(old(mem[..]), s2, size)
    ensures SameOutside(old(mem[..]), mem[..], res, res + size)
  {
    ghost var m0 := mem[..];
    cy := 0;
    var j := 0;
    assert SumUpTo(m0, m0, res, s1, s2, 0, 0, 1);
    hide V;
    hide P;
    hide SumUpTo;
    while j < size
      invariant 0 <= j <= size
      invariant cy <= 1
      invariant SumUpTo(m0, mem[..], res, s1, s2, j, cy, 1)
      invariant SameOutside(m0, mem[..], res, res + j)
    {
      ghost var m, c: int := mem[..], cy;
      var y := mem[s2 + j];
      var x := mem[s1 + j];
      y := Add(y, cy);
      cy := if y < cy then 1 else 0;
      y := Add(x, y);
      cy := (if y < x then 1 else 0) + cy;
      mem[res + j] := y;
      SumTurn(m0, m, mem[..], res, s1, s2, j, c, cy, 1);
      j := j + 1;
    }
    SumDone(m0, mem[..], res, s1, s2, size, cy, 1);
  }

  lemma SumDone(m0: seq<Limb>, t: seq<Limb>, a: nat, b: nat, e: nat, j: nat, c: int, sign: int)
    requires a + j <= |t| && b + j <= |m0| && e + j <= |m0| && SumUpTo(m0, t, a, b, e, j, c, sign)
    ensures V(t, a, j) + c * P(j) == V(m0, b, j) + sign * V(m0, e, j)
  {
  }

  lemma ProductDone(m0: seq<Limb>, t: seq<Limb>, a: nat, b: nat, j: nat, c: int, base: int, v: int)
    requires a + j <= |t| == |m0| && b + j <= |m0| && ProductUpTo(m0, t, a, b, j, c, base, v)
    ensures V(t, a, j) + c * P(j) == base * V(m0, a, j) + V(m0, b, j) * v
  {
  }

  method SubN(mem: array<Limb>, res: nat, s1: nat, s2: nat, size: nat) returns (cy: Limb)
    requires size >= 1
    requires res + size <= mem.Length && s1 + size <= mem.Length && s2 + size <= mem.Length
    requires ReadsAhead(res, s1, size) && ReadsAhead(res, s2, size)
    modifies mem
    ensures cy <= 1
    ensures V(mem[..], res, size) - cy * P(size) == V(old(mem[..]), s1, size) - V(old(mem[..]), s2, size)
    ensures SameOutside(old(mem[..]), mem[..], res, res + size)
  {
    ghost var m0 := mem[..];
    cy := 0;
    var j := 0;
    assert SumUpTo(m0, m0, res, s1, s2, 0, 0, -1);
    hide V;
    hide P;
    hide SumUpTo;
    while j < size
      invariant 0 <= j <= size
      invariant cy <= 1
      invariant SumUpTo(m0, mem[..], res, s1, s2, j, 0 - cy, -1)
      invariant SameOutside(m0, mem[..], res, res + j)
    {
      ghost var m, c: int := mem[..], cy;
      var y := mem[s2 + j];
      var x := mem[s1 + j];
      y := Add(y, cy);
      cy := if y < cy then 1 else 0;
      y := Sub(x, y);
      cy := (if y > x then 1 else 0) + cy;
      mem[res + j] := y;
      SumTurn(m0, m, mem[..], res, s1, s2, j, 0 - c, 0 - cy, -1);
      j := j + 1;
    }
    SumDone(m0, mem[..], res, s1, s2, size, 0 - cy, -1);
    MulNeg(cy, P(size));
  }

  method Mul1(mem: array<Limb>, res: nat, s1: nat, size: nat, v: Limb) returns (cy: Limb)
    requires size >= 1
    requires res + size <= mem.Length && s1 + size <= mem.Length
    requires ReadsAhead(res, s1, size)
    modifies mem
    ensures V(mem[..], res, size) + cy * P(size) == V(old(mem[..]), s1, size) * v
    ensures SameOutside(old(mem[..]), mem[..], res, res + size)
  {
    ghost var m0 := mem[..];
    cy := 0;
    var j := 0;
    assert ProductUpTo(m0, m0, res, s1, 0, 0, 0, v);
    hide V;
    hide P;
    hide ProductUpTo;
    while j < size
      invariant 0 <= j <= size
      invariant ProductUpTo(m0, mem[..], res, s1, j, cy, 0, v)
      invariant SameOutside(m0, mem[..], res, res + j)
    {
      ghost var m, c: int := mem[..], cy;
      var lo;
      lo, cy := UmulAdd(mem[s1 + j], v, cy);
      mem[res + j] := lo;
      ProductTurn(m0, m, mem[..], res, s1, j, c, cy, 0, v);
      j := j + 1;
    }
    ProductDone(m0, mem[..], res, s1, size, cy, 0, v);
  }

  method AddMul1(mem: array<Limb>, res: nat, s1: nat, size: nat, v: Limb) returns (cy: Limb)
    requires size >= 1
    requires res + size <= mem.Length && s1 + size <= mem.Length
    requires ReadsAhead(res, s1, size)
    modifies mem
    ensures V(mem[..], res, size) + cy * P(size) == V(old(mem[..]), res, size) + V(old(mem[..]), s1, size) * v
    ensures SameOutside(old(mem[..]), mem[..], res, res + size)
  {
    ghost var m0 := mem[..];
    cy := 0;
    var j := 0;
    assert ProductUpTo(m0, m0, res, s1, 0, 0, 1, v);
    hide V;
    hide P;
    hide ProductUpTo;
    while j < size
      invariant 0 <= j <= size
      invariant ProductUpTo(m0, mem[..], res, s1, j, cy, 1, v)
      invariant SameOutside(m0, mem[..], res, res + j)
    {
      ghost var m, c: int := mem[..], cy;
      var lo;
      lo, cy := UmulAddAdd(mem[s1 + j], v, cy, mem[res + j]);
      mem[res + j] := lo;
      ProductTurn(m0, m, mem[..], res, s1, j, c, cy, 1, v);
      j := j + 1;
    }
    ProductDone(m0, mem[..], res, s1, size, cy, 1, v);
  }

  method SubMul1(mem: array<Limb>, res: nat, s1: nat, size: nat, v: Limb) returns (cy: Limb)
    requires size >= 1
    requires res + size <= mem.Length && s1 + size <= mem.Length
    requires ReadsAhead(res, s1, size)
    modifies mem
    ensures V(mem[..], res, size) - cy * P(size) == V(old(mem[..]), res, size) - V(old(mem[..]), s1, size) * v
    ensures SameOutside(old(mem[..]), mem[..], res, res + size)
  {
    ghost var m0 := mem[..];
    cy := 0;
    var j := 0;
    assert ProductUpTo(m0, m0, res, s1, 0, 0, 1, 0 - v);
    hide V;
    hide P;
    hide ProductUpTo;
    while j < size
      invariant 0 <= j <= size
      invariant ProductUpTo(m0, mem[..], res, s1, j, 0 - cy, 1, 0 - v)
      invariant SameOutside(m0, mem[..], res, res + j)
    {
      ghost var m, c: int := mem[..], cy;
      var lo;
      lo, cy := UmulAddSub(mem[s1 + j], v, cy, mem[res + j]);
      mem[res + j] := lo;
      ProductTurn(m0, m, mem[..], res, s1, j, 0 - c, 0 - cy, 1, 0 - v);
      j := j + 1;
    }
    ProductDone(m0, mem[..], res, s1, size, 0 - cy, 1, 0 - v);
    MulNeg(cy, P(size));
    MulNeg(v, V(m0, s1, size));
  }

  /** mpn_add_1, with its early exit and the copy of the untouched rest. */
  method Add1(mem: array<Limb>, res: nat, s1: nat, size: nat, v: Limb) returns (cy: Limb)
    requires size >= 1
    requires res + size <= mem.Length && s1 + size <= mem.Length
    requires ReadsAhead(res, s1, size)
    modifies mem
    ensures cy <= 1
    ensures V(mem[..], res, size) + cy * P(size) == V(old(mem[..]), s1, size) + v
    ensures SameOutside(old(mem[..]), mem[..], res, res + size)
  {
    hide V;
    hide P;
    ghost var m0 := mem[..];
    var x := mem[s1];
    var y := Add(x, v);
    mem[res] := y;
    var j := 1;
    cy := if y < x then 1 else 0;
    OneLimb(m0, s1);
    OneLimb(mem[..], res);
    while cy == 1 && j < size
      invariant 1 <= j <= size && cy <= 1
      invariant V(mem[..], res, j) + (if cy == 1 then P(j) else 0) == V(m0, s1, j) + v
      invariant SameOutside(m0, mem[..], res, res + j)
    {
      ghost var m := mem[..];
      x := Add(mem[s1 + j], 1);
      mem[res + j] := x;
      cy := if x != 0 then 0 else 1;
      CarryTurn(m0, m, mem[..], res, s1, j, cy, v);
      j := j + 1;
    }
    if cy == 1 { return; }
    CopyRest(mem, res, s1, j, size, m0);
  }

  /** The end of mpn_add_1 once the carry has died out. */
  method CopyRest(mem: array<Limb>, res: nat, s1: nat, j: nat, size: nat, ghost m0: seq<Limb>)
    requires j <= size && res + size <= mem.Length && s1 + size <= mem.Length
    requires ReadsAhead(res, s1, size) && SameOutside(m0, mem[..], res, res + j)
    modifies mem
    ensures V(mem[..], res, size) - V(m0, s1, size) == V(old(mem[..]), res, j) - V(m0, s1, j)
    ensures SameOutside(m0, mem[..], res, res + size)
  {
    hide V;
    hide P;
    if res != s1 {
      ghost var m := mem[..];
      CopyIncr(mem, res + j, s1 + j, size - j);
      Keep(m, mem[..], res + j, res + size, res, j);
    }
    UntouchedRest(m0, s1, mem[..], res, j, size - j);
  }

  lemma OneLimb(s: seq<Limb>, a: nat)
    requires a < |s|
    ensures V(s, a, 1) == s[a] && P(1) == B
  {
    assert P(0) == 1 && V(s, a, 0) == 0;
  }

  lemma CarryTurn(m0: seq<Limb>, s: seq<Limb>, t: seq<Limb>, a: nat, b: nat, j: nat, d: int, v: int)
    requires a + j < |s| && SameOutside(s, t, a + j, a + j + 1) && b + j < |m0|
    requires V(s, a, j) + P(j) == V(m0, b, j) + v
    requires 0 <= d <= 1 && t[a + j] + d * B == 1 + m0[b + j] as int
    ensures V(t, a, j + 1) + (if d == 1 then P(j + 1) else 0) == V(m0, b, j + 1) + v
  {
    Column(s, t, a, j, 1, d, m0[b + j]);
  }

  lemma UntouchedRest(s: seq<Limb>, a: nat, t: seq<Limb>, b: nat, j: nat, r: nat)
    requires a + j + r <= |s| && b + j + r <= |t|
    requires forall k :: a + j <= k < a + j + r ==> s[k] == t[k - a + b]
    ensures V(t, b, j + r) - V(s, a, j + r) == V(t, b, j) - V(s, a, j)
  {
    hide V;
    hide P;
    VSame(s, a + j, t, b + j, r);
    VSplit(t, b, j, r);
    VSplit(s, a, j, r);
  }

  method CopyIncr(mem: array<Limb>, dst: nat, src: nat, size: nat)
    requires dst + size <= mem.Length && src + size <= mem.Length
    requires ReadsAhead(dst, src, size)
    modifies mem
    ensures forall k :: dst <= k < dst + size ==> mem[k] == old(mem[..])[k - dst + src]
    ensures V(mem[..], dst, size) == V(old(mem[..]), src, size)
    ensures SameOutside(old(mem[..]), mem[..], dst, dst + size)
  {
    ghost var m0 := mem[..];
    for i := 0 to size
      invariant forall k :: dst <= k < dst + i ==> mem[k] == m0[k - dst + src]
      invariant SameOutside(m0, mem[..], dst, dst + i)
    {
      mem[dst + i] := mem[src + i];
    }
    VSame(mem[..], dst, m0, src, size);
  }

  /** Copying downwards, for a destination above an overlapping source. */
  method CopyDecr(mem: array<Limb>, dst: nat, src: nat, size: nat)
    requires dst + size <= mem.Length && src + size <= mem.Length
    requires src <= dst || dst + size <= src
    modifies mem
    ensures forall k :: dst <= k < dst + size ==> mem[k] == old(mem[..])[k - dst + src]
    ensures V(mem[..], dst, size) == V(old(mem[..]), src, size)
    ensures SameOutside(old(mem[..]), mem[..], dst, dst + size)
  {
    ghost var m0 := mem[..];
    for i := size downto 0
      invariant forall k :: dst + i <= k < dst + size ==> mem[k] == m0[k - dst + src]
      invariant SameOutside(m0, mem[..], dst + i, dst + size)
    {
      mem[dst + i] := mem[src + i];
    }
    VSame(mem[..], dst, m0, src, size);
  }

  method Zero(mem: array<Limb>, dst: nat, size: nat)
    requires dst + size <= mem.Length
    modifies mem
    ensures V(mem[..], dst, size) == 0
    ensures SameOutside(old(mem[..]), mem[..], dst, dst + size)
  {
    ghost var m0 := mem[..];
    for i := 0 to size
      invariant V(mem[..], dst, i) == 0
      invariant SameOutside(m0, mem[..], dst, dst + i)
    {
      ghost var m := mem[..];
      mem[dst + i] := 0;
      VPut(m, mem[..], dst, i);
    }
  }

  lemma HigherLimbDecides(m: seq<Limb>, a: nat, b: nat, i: nat)
    requires a + i < |m| && b + i < |m| && m[a + i] < m[b + i]
    ensures V(m, a, i + 1) < V(m, b, i + 1)
  {
    VBound(m, a, i);
    MulLe(m[a + i] + 1, m[b + i], P(i));
    MulDistr(P(i), m[a + i], 1);
  }

  /** mpn_cmp orders two runs of the same length by their values. */
  method Cmp(mem: array<Limb>, op1: nat, op2: nat, size: nat) returns (c: int)
    requires op1 + size <= mem.Length && op2 + size <= mem.Length
    ensures c == 1 <==> V(mem[..], op1, size) > V(mem[..], op2, size)
    ensures c == 0 <==> V(mem[..], op1, size) == V(mem[..], op2, size)
    ensures c == -1 <==> V(mem[..], op1, size) < V(mem[..], op2, size)
  {
    ghost var m := mem[..];
    var i := size - 1;
    while i >= 0
      invariant -1 <= i < size
      invariant V(m, op1, size) - V(m, op2, size) == V(m, op1, i + 1) - V(m, op2, i + 1)
    {
      var x, y := mem[op1 + i], mem[op2 + i];
      if x != y {
        if x > y { HigherLimbDecides(m, op2, op1, i); } else { HigherLimbDecides(m, op1, op2, i); }
        return if x > y then 1 else -1;
      }
      i := i - 1;
    }
    return 0;
  }
}
