/** Natural numbers as runs of limbs in memory (stdlib/gmp.h, stdlib/gmp-mparam.h).

Every `mp_ptr` of the library is an offset into one array `mem`, so that source
and destination may overlap exactly as they may in C.  `V(s, a, n)` is the
number held by the `n` limbs at offset `a`, least significant limb first. */
module Limbs {

  const LIMB_BITS := 32
  const B: int := 0x1_0000_0000

  type Limb = x: int | 0 <= x < B

  /** The weight of limb `n`: B to the power `n`. */
  ghost function P(n: nat): (p: int)
    ensures p >= 1
  {
    if n == 0 then 1 else B * P(n - 1)
  }

  lemma {:induction false} PAdd(m: nat, n: nat)
    ensures P(m + n) == P(m) * P(n)
    decreases n
  {
    if n != 0 {
      PAdd(m, n - 1);
      assert P(m + n) == B * (P(m) * P(n - 1)) == P(m) * (B * P(n - 1));
    }
  }

  /** The value of the `n` limbs at offset `a`. */
  ghost function V(s: seq<Limb>, a: nat, n: nat): (v: int)
    requires a + n <= |s|
    ensures 0 <= v
    decreases n
  {
    if n == 0 then 0 else V(s, a, n - 1) + s[a + n - 1] * P(n - 1)
  }

  /** `n` limbs hold a number below B^n. */
  lemma {:induction false} VBound(s: seq<Limb>, a: nat, n: nat)
    requires a + n <= |s|
    ensures V(s, a, n) < P(n)
    decreases n
  {
    if n != 0 {
      VBound(s, a, n - 1);
      MulLe(s[a + n - 1], B - 1, P(n - 1));
    }
  }

  /** The value depends on the limbs only. */
  lemma {:induction false} VSame(s: seq<Limb>, a: nat, t: seq<Limb>, b: nat, n: nat)
    requires a + n <= |s| && b + n <= |t|
    requires forall k :: a <= k < a + n ==> s[k] == t[k - a + b]
    ensures V(s, a, n) == V(t, b, n)
    decreases n
  {
    if n != 0 {
      VSame(s, a, t, b, n - 1);
    }
  }

  /** Cutting a run of limbs in two. */
  lemma {:induction false} VSplit(s: seq<Limb>, a: nat, m: nat, n: nat)
    requires a + m + n <= |s|
    ensures V(s, a, m + n) == V(s, a, m) + P(m) * V(s, a + m, n)
    decreases n
  {
    if n != 0 {
      VSplit(s, a, m, n - 1);
      PAdd(m, n - 1);
      var x := s[a + m + n - 1];
      assert x * P(m + n - 1) == P(m) * (x * P(n - 1)) by {
        assert P(m + n - 1) == P(m) * P(n - 1);
        MulAssoc(x, P(m), P(n - 1));
      }
      MulDistr(P(m), V(s, a + m, n - 1), x * P(n - 1));
    }
  }

  /** The value from its lowest limb. */
  lemma VHead(s: seq<Limb>, a: nat, n: nat)
    requires a + n < |s|
    ensures V(s, a, n + 1) == s[a] + B * V(s, a + 1, n)
  {
    VSplit(s, a, 1, n);
    assert V(s, a, 0) == 0 && P(0) == 1;
    assert V(s, a, 1) == s[a] && P(1) == B;
  }

  lemma TopDigit(u: int, x: int, v: int, y: int, p: int)
    requires 0 <= u < p && 0 <= v < p && u + x * p == v + y * p
    ensures x == y && u == v
  {
    if x < y { MulLe(x + 1, y, p); }
    if y < x { MulLe(y + 1, x, p); }
  }

  /** A number is held by exactly one run of `n` limbs. */
  lemma {:induction false} VUnique(s: seq<Limb>, a: nat, t: seq<Limb>, b: nat, n: nat)
    requires a + n <= |s| && b + n <= |t|
    requires V(s, a, n) == V(t, b, n)
    ensures forall k :: a <= k < a + n ==> s[k] == t[k - a + b]
    decreases n
  {
    if n != 0 {
      VBound(s, a, n - 1);
      VBound(t, b, n - 1);
      var x, y := s[a + n - 1], t[b + n - 1];
      TopDigit(V(s, a, n - 1), x, V(t, b, n - 1), y, P(n - 1));
      VUnique(s, a, t, b, n - 1);
    }
  }

  /** Nothing changed outside the offsets `lo` to `hi`. */
  ghost predicate SameOutside(s: seq<Limb>, t: seq<Limb>, lo: int, hi: int)
  {
    |s| == |t| && forall k :: 0 <= k < |s| && !(lo <= k < hi) ==> t[k] == s[k]
  }

  lemma Keep(s: seq<Limb>, t: seq<Limb>, lo: int, hi: int, a: nat, n: nat)
    requires SameOutside(s, t, lo, hi) && a + n <= |s| && (a + n <= lo || hi <= a)
    ensures |t| == |s| && V(t, a, n) == V(s, a, n)
  {
    VSame(s, a, t, a, n);
  }

  lemma SameTrans(s: seq<Limb>, t: seq<Limb>, u: seq<Limb>, lo: int, hi: int, lo1: int, hi1: int, lo2: int, hi2: int)
    requires SameOutside(s, t, lo1, hi1) && SameOutside(t, u, lo2, hi2)
    requires lo <= lo1 && hi1 <= hi && lo <= lo2 && hi2 <= hi
    ensures SameOutside(s, u, lo, hi)
  {
  }

  lemma SameWiden(s: seq<Limb>, t: seq<Limb>, lo: int, hi: int, lo1: int, hi1: int)
    requires SameOutside(s, t, lo1, hi1) && lo <= lo1 && hi1 <= hi
    ensures SameOutside(s, t, lo, hi)
  {
  }

  /** Nothing changed outside two runs. */
  ghost predicate SameOutside2(s: seq<Limb>, t: seq<Limb>, a: nat, m: nat, b: nat, n: nat)
  {
    |s| == |t| && forall k :: 0 <= k < |s| && !(a <= k < a + m) && !(b <= k < b + n) ==> t[k] == s[k]
  }

  lemma Keep2(s: seq<Limb>, t: seq<Limb>, a: nat, m: nat, b: nat, n: nat, c: nat, l: nat)
    requires SameOutside2(s, t, a, m, b, n) && c + l <= |s| && Apart(a, m, c, l) && Apart(b, n, c, l)
    ensures |t| == |s| && V(t, c, l) == V(s, c, l)
  {
    VSame(s, c, t, c, l);
  }

  predicate Within(a: nat, m: nat, b: nat, n: nat)
  {
    b <= a && a + m <= b + n
  }

  lemma Widen2(s: seq<Limb>, t: seq<Limb>, a: nat, m: nat, b: nat, n: nat, c: nat, k: nat, d: nat, l: nat)
    requires SameOutside2(s, t, a, m, b, n)
    requires Within(a, m, c, k) || Within(a, m, d, l)
    requires Within(b, n, c, k) || Within(b, n, d, l)
    ensures SameOutside2(s, t, c, k, d, l)
  {
  }

  lemma Widen1(s: seq<Limb>, t: seq<Limb>, a: nat, m: nat, c: nat, k: nat, d: nat, l: nat)
    requires SameOutside(s, t, a, a + m)
    requires Within(a, m, c, k) || Within(a, m, d, l)
    ensures SameOutside2(s, t, c, k, d, l)
  {
  }

  lemma SameTrans2(s: seq<Limb>, t: seq<Limb>, u: seq<Limb>, a: nat, m: nat, b: nat, n: nat)
    requires SameOutside2(s, t, a, m, b, n) && SameOutside2(t, u, a, m, b, n)
    ensures SameOutside2(s, u, a, m, b, n)
  {
  }

  /** A loop that fills `res` upwards reads limb `j` of `src` before it is overwritten. */
  predicate ReadsAhead(res: nat, src: nat, size: nat)
  {
    res <= src || src + size <= res
  }

  predicate Apart(a: nat, m: nat, b: nat, n: nat)
  {
    a + m <= b || b + n <= a
  }

  // Wrapping arithmetic of mp_limb_t.

  function Add(x: Limb, y: Limb): Limb { if x + y < B then x + y else x + y - B }

  function Sub(x: Limb, y: Limb): Limb { if x >= y then x - y else x - y + B }

  // Steps of nonlinear arithmetic, named so that the proofs can point at them.

  lemma MulLe(x: int, y: int, z: int)
    requires x <= y && 0 <= z
    ensures x * z <= y * z && z * x <= z * y
  {
  }

  lemma MulLt(x: int, y: int, z: int)
    requires x < y && 0 < z
    ensures x * z < y * z && z * x < z * y
  {
  }

  lemma MulDistr(x: int, y: int, z: int)
    ensures x * (y + z) == x * y + x * z && (y + z) * x == y * x + z * x
    ensures x * (y - z) == x * y - x * z && (y - z) * x == y * x - z * x
  {
  }

  lemma MulAssoc(x: int, y: int, z: int)
    ensures x * (y * z) == (x * y) * z == y * (x * z)
  {
  }

  /** Quotient and remainder are unique. */
  lemma QuotRem(n: int, q: int, r: int, d: int)
    requires n == q * d + r && 0 <= r < d
    ensures n / d == q && n % d == r
  {
    var q', r' := n / d, n % d;
    if q < q' { MulLe(q + 1, q', d); }
    if q' < q { MulLe(q' + 1, q, d); }
  }
}
