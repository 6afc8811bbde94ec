/** Machine words and bit strings as sequences of bits, most significant bit first. */
module BitSeq {
  import opened Bits

  type BitStr = seq<bool>
  type Word = w: seq<bool> | |w| == 32 witness seq(32, _ => false)

  function Zeros(n: nat): (z: BitStr)
    ensures |z| == n && forall i :: 0 <= i < n ==> !z[i]
  {
    seq(n, _ => false)
  }

  function Xor(a: BitStr, b: BitStr): (c: BitStr)
    requires |a| == |b|
    ensures |c| == |a| && forall i :: 0 <= i < |c| ==> c[i] == (a[i] != b[i])
  {
    seq(|a|, i requires 0 <= i < |a| => a[i] != b[i])
  }

  function And(a: BitStr, b: BitStr): (c: BitStr)
    requires |a| == |b|
    ensures |c| == |a| && forall i :: 0 <= i < |c| ==> c[i] == (a[i] && b[i])
  {
    seq(|a|, i requires 0 <= i < |a| => a[i] && b[i])
  }

  function Or(a: BitStr, b: BitStr): (c: BitStr)
    requires |a| == |b|
    ensures |c| == |a| && forall i :: 0 <= i < |c| ==> c[i] == (a[i] || b[i])
  {
    seq(|a|, i requires 0 <= i < |a| => a[i] || b[i])
  }

  /** Logical shift right. */
  function Shr(a: BitStr, n: nat): (c: BitStr)
    requires n <= |a|
    ensures |c| == |a|
  {
    Zeros(n) + a[..|a| - n]
  }

  /** Shift left, dropping the bits shifted out. */
  function Shl(a: BitStr, n: nat): (c: BitStr)
    requires n <= |a|
    ensures |c| == |a|
  {
    a[n..] + Zeros(n)
  }

  /** The unsigned number a bit string stands for. */
  function ToNat(a: BitStr): (n: nat)
    ensures n < Pow2(|a|)
  {
    if a == [] then 0 else 2 * ToNat(a[..|a| - 1]) + (if a[|a| - 1] then 1 else 0)
  }

  /** The `len` low bits of a number. */
  function FromNat(n: nat, len: nat): (a: BitStr)
    ensures |a| == len
  {
    if len == 0 then [] else FromNat(n / 2, len - 1) + [n % 2 == 1]
  }

  lemma {:induction false} FromToNat(a: BitStr)
    ensures FromNat(ToNat(a), |a|) == a
    decreases |a|
  {
    if a != [] {
      FromToNat(a[..|a| - 1]);
    }
  }

  lemma {:induction false} ToFromNat(n: nat, len: nat)
    requires n < Pow2(len)
    ensures ToNat(FromNat(n, len)) == n
    decreases len
  {
    if len != 0 {
      ToFromNat(n / 2, len - 1);
      var a := FromNat(n, len);
      assert a[..len - 1] == FromNat(n / 2, len - 1);
    }
  }

  lemma {:induction false} ToNatAppend(a: BitStr, b: BitStr)
    ensures ToNat(a + b) == ToNat(a) * Pow2(|b|) + ToNat(b)
    decreases |b|
  {
    if b == [] {
      assert a + b == a;
    } else {
      var c := b[..|b| - 1];
      assert (a + b)[..|a + b| - 1] == a + c;
      ToNatAppend(a, c);
      ShiftIn(ToNat(a), Pow2(|c|), ToNat(c), if b[|b| - 1] then 1 else 0);
    }
  }

  lemma ShiftIn(x: int, p: int, y: int, b: int)
    ensures 2 * (x * p + y) + b == x * (2 * p) + (2 * y + b)
  {
  }

  lemma {:induction false} ToNatZeros(n: nat)
    ensures ToNat(Zeros(n)) == 0
    decreases n
  {
    if n != 0 {
      assert Zeros(n)[..n - 1] == Zeros(n - 1);
      ToNatZeros(n - 1);
    }
  }

  /** (v >> shift) with all but its low n bits masked off. */
  function Field(v: Word, shift: nat, n: nat): (j: nat)
    requires shift + n <= 32
    ensures j < Pow2(n)
  {
    ToNat(Shr(v, shift)[32 - n..])
  }

  lemma FieldIs(v: Word, shift: nat, n: nat)
    requires shift + n <= 32
    ensures Field(v, shift, n) == ToNat(v[32 - shift - n..32 - shift])
  {
    assert Shr(v, shift)[32 - n..] == v[32 - shift - n..32 - shift];
  }
}
