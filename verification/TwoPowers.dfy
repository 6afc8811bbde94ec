/** Powers of two of either sign, as real numbers. */
module TwoPowers {
  import opened Bits

  /** 2^e. */
  function Two(e: int): (r: real)
    ensures r > 0.0
    decreases if e < 0 then -e else e
  {
    if e == 0 then 1.0 else if e > 0 then 2.0 * Two(e - 1) else Two(e + 1) / 2.0
  }

  lemma TwoNext(e: int)
    ensures Two(e + 1) == 2.0 * Two(e)
  {
  }

  lemma {:induction false} TwoAdd(d: int, e: int)
    ensures Two(d + e) == Two(d) * Two(e)
    decreases if e < 0 then -e else e
  {
    hide Two;
    if e > 0 {
      TwoAdd(d, e - 1);
      TwoNext(d + e - 1);
      TwoNext(e - 1);
      ProductUp(Two(d), Two(e - 1), Two(e), Two(d + e - 1), Two(d + e));
    } else if e < 0 {
      TwoAdd(d, e + 1);
      TwoNext(d + e);
      TwoNext(e);
      ProductDown(Two(d), Two(e), Two(e + 1), Two(d + e), Two(d + e + 1));
    } else {
      TwoZero();
    }
  }

  lemma TwoZero()
    ensures Two(0) == 1.0
  {
  }

  lemma ProductUp(x: real, y: real, y': real, z: real, z': real)
    requires z == x * y && z' == 2.0 * z && y' == 2.0 * y
    ensures z' == x * y'
  {
  }

  lemma ProductDown(x: real, y: real, y': real, z: real, z': real)
    requires z' == x * y' && z' == 2.0 * z && y' == 2.0 * y
    ensures z == x * y
  {
  }

  lemma {:induction false} TwoPow(n: nat)
    ensures Two(n) == Pow2(n) as real
  {
    if n > 0 { TwoPow(n - 1); }
  }

  /** m times 2^e. */
  function Scaled(m: int, e: int): real { m as real * Two(e) }

  lemma ScaledShift(f: int, e: int, s: nat)
    ensures Scaled(f, e) == Scaled(f * Pow2(s), e - s)
  {
    TwoPow(s);
    TwoAdd(s, e - s);
    hide Two;
    Regroup(f as real, Pow2(s) as real, Two(e - s));
  }

  lemma ScaledDouble(m: int, e: int)
    ensures Scaled(m, e) == Scaled(m * 2, e - 1)
  {
    TwoNext(e - 1);
    hide Two;
    Regroup(m as real, 2.0, Two(e - 1));
  }

  lemma Regroup(x: real, y: real, z: real)
    ensures x * (y * z) == (x * y) * z
  {
  }
}
