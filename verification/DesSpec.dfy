/** The Data Encryption Standard as FIPS 46-3 defines it, bit by bit, with the one change of crypt(3):
a salt that swaps bits of the expansion.  This is what the table-driven engine is measured against.

The permutation tables are those of crypt/crypt_util.c; the S-box contents are a parameter. */
module DesSpec {
  import opened BitSeq

  const PC1: seq<nat> :=
    [57, 49, 41, 33, 25, 17, 9, 1, 58, 50, 42, 34, 26, 18] +
    [10, 2, 59, 51, 43, 35, 27, 19, 11, 3, 60, 52, 44, 36] +
    [63, 55, 47, 39, 31, 23, 15, 7, 62, 54, 46, 38, 30, 22] +
    [14, 6, 61, 53, 45, 37, 29, 21, 13, 5, 28, 20, 12, 4]

  const ROTS: seq<nat> := [1, 1, 2, 2, 2, 2, 2, 2, 1, 2, 2, 2, 2, 2, 2, 1]

  const PC2: seq<nat> :=
    [14, 17, 11, 24, 1, 5, 3, 28, 15, 6, 21, 10] +
    [23, 19, 12, 4, 26, 8, 16, 7, 27, 20, 13, 2] +
    [41, 52, 31, 37, 47, 55, 30, 40, 51, 45, 33, 48] +
    [44, 49, 39, 56, 34, 53, 46, 42, 50, 36, 29, 32]

  const ESEL: seq<nat> :=
    [32, 1, 2, 3, 4, 5, 4, 5, 6, 7, 8, 9] +
    [8, 9, 10, 11, 12, 13, 12, 13, 14, 15, 16, 17] +
    [16, 17, 18, 19, 20, 21, 20, 21, 22, 23, 24, 25] +
    [24, 25, 26, 27, 28, 29, 28, 29, 30, 31, 32, 1]

  const PERM32: seq<nat> :=
    [16, 7, 20, 21, 29, 12, 28, 17, 1, 15, 23, 26, 5, 18, 31, 10] +
    [2, 8, 24, 14, 32, 27, 3, 9, 19, 13, 30, 6, 22, 11, 4, 25]

  const INITIAL_PERM: seq<nat> :=
    [58, 50, 42, 34, 26, 18, 10, 2] +
    [60, 52, 44, 36, 28, 20, 12, 4] +
    [62, 54, 46, 38, 30, 22, 14, 6] +
    [64, 56, 48, 40, 32, 24, 16, 8] +
    [57, 49, 41, 33, 25, 17, 9, 1] +
    [59, 51, 43, 35, 27, 19, 11, 3] +
    [61, 53, 45, 37, 29, 21, 13, 5] +
    [63, 55, 47, 39, 31, 23, 15, 7]

  const FINAL_PERM: seq<nat> :=
    [40, 8, 48, 16, 56, 24, 64, 32] +
    [39, 7, 47, 15, 55, 23, 63, 31] +
    [38, 6, 46, 14, 54, 22, 62, 30] +
    [37, 5, 45, 13, 53, 21, 61, 29] +
    [36, 4, 44, 12, 52, 20, 60, 28] +
    [35, 3, 43, 11, 51, 19, 59, 27] +
    [34, 2, 42, 10, 50, 18, 58, 26] +
    [33, 1, 41, 9, 49, 17, 57, 25]

  predicate ValidTable(t: seq<nat>, n: nat) { forall i :: 0 <= i < |t| ==> 1 <= t[i] <= n }

  lemma Pc1Valid() ensures |PC1| == 56 && ValidTable(PC1, 64) {}

  lemma Pc2Valid() ensures |PC2| == 48 && ValidTable(PC2, 56) {}

  lemma EselValid() ensures |ESEL| == 48 && ValidTable(ESEL, 32) {}

  lemma Perm32Valid() ensures |PERM32| == 32 && ValidTable(PERM32, 32) {}

  lemma InitialPermValid() ensures |INITIAL_PERM| == 64 && ValidTable(INITIAL_PERM, 64) {}

  lemma FinalPermValid() ensures |FINAL_PERM| == 64 && ValidTable(FINAL_PERM, 64) {}

  /** Output bit i is input bit t[i], counting from 1. */
  function Select(x: BitStr, t: seq<nat>): (y: BitStr)
    requires ValidTable(t, |x|)
    ensures |y| == |t| && forall i :: 0 <= i < |t| ==> y[i] == x[t[i] - 1]
  {
    seq(|t|, i requires 0 <= i < |t| => x[t[i] - 1])
  }

  /** Selections commute with exclusive or. */
  lemma SelectXor(x: BitStr, y: BitStr, t: seq<nat>)
    requires |x| == |y| && ValidTable(t, |x|)
    ensures Select(Xor(x, y), t) == Xor(Select(x, t), Select(y, t))
  {
  }

  // Row r and column c of IP and FP as 8 by 8 squares.

  function IpAt(r: int, c: int): int { (if r < 4 then 58 + 2 * r else 49 + 2 * r) - 8 * c }

  function FpAt(r: int, c: int): int { (if c % 2 == 0 then 40 + 4 * c else 4 + 4 * c) - r }

  lemma IpRow(r: nat, c: nat)
    requires r < 8 && c < 8
    ensures |INITIAL_PERM| == 64 && INITIAL_PERM[8 * r + c] == IpAt(r, c)
  {
    hide *;
    if r < 4 { IpUpper(r, c); } else { IpLower(r, c); }
  }

  lemma IpUpper(r: nat, c: nat)
    requires r < 4 && c < 8
    ensures |INITIAL_PERM| == 64 && INITIAL_PERM[8 * r + c] == IpAt(r, c) == 58 + 2 * r - 8 * c
  {
    if r == 0 {} else if r == 1 {} else if r == 2 {} else {}
  }

  lemma IpLower(r: nat, c: nat)
    requires 4 <= r < 8 && c < 8
    ensures |INITIAL_PERM| == 64 && INITIAL_PERM[8 * r + c] == IpAt(r, c) == 49 + 2 * r - 8 * c
  {
    if r == 4 {} else if r == 5 {} else if r == 6 {} else {}
  }
  lemma FpRow(r: nat, c: nat)
    requires r < 8 && c < 8
    ensures |FINAL_PERM| == 64 && FINAL_PERM[8 * r + c] == FpAt(r, c)
  {
    hide *;
    if r < 4 { FpUpper(r, c); } else { FpLower(r, c); }
  }

  lemma FpUpper(r: nat, c: nat)
    requires r < 4 && c < 8
    ensures |FINAL_PERM| == 64 && FINAL_PERM[8 * r + c] == FpAt(r, c)
  {
    if r == 0 {} else if r == 1 {} else if r == 2 {} else {}
  }

  lemma FpLower(r: nat, c: nat)
    requires 4 <= r < 8 && c < 8
    ensures |FINAL_PERM| == 64 && FINAL_PERM[8 * r + c] == FpAt(r, c)
  {
    if r == 4 {} else if r == 5 {} else if r == 6 {} else {}
  }
  lemma InverseAt(i: nat)
    requires i < 64
    ensures |INITIAL_PERM| == |FINAL_PERM| == 64
    ensures 1 <= FINAL_PERM[i] <= 64 && INITIAL_PERM[FINAL_PERM[i] - 1] == i + 1
    ensures 1 <= INITIAL_PERM[i] <= 64 && FINAL_PERM[INITIAL_PERM[i] - 1] == i + 1
  {
    hide INITIAL_PERM;
    hide FINAL_PERM;
    var r, c := i / 8, i % 8;
    IpRow(r, c);
    FpRow(r, c);
    FpRow(7 - c, if r < 4 then 2 * r + 1 else 2 * r - 8);
    IpRow(if c % 2 == 1 then c / 2 else c / 2 + 4, 7 - r);
  }

  /** FP undoes IP and IP undoes FP. */
  lemma PermsInverse(x: BitStr)
    requires |x| == 64 && ValidTable(INITIAL_PERM, 64) && ValidTable(FINAL_PERM, 64)
    ensures |INITIAL_PERM| == |FINAL_PERM| == 64
    ensures Select(Select(x, INITIAL_PERM), FINAL_PERM) == x
    ensures Select(Select(x, FINAL_PERM), INITIAL_PERM) == x
  {
    InitialPermValid();
    FinalPermValid();
    hide INITIAL_PERM;
    hide FINAL_PERM;
    forall i | 0 <= i < 64
      ensures Select(Select(x, INITIAL_PERM), FINAL_PERM)[i] == x[i]
      ensures Select(Select(x, FINAL_PERM), INITIAL_PERM)[i] == x[i]
    {
      InverseAt(i);
    }
  }

  // ----- The cipher function f -----

  function E(x: BitStr): (y: BitStr)
    requires |x| == 32
    ensures |y| == 48
  {
    EselValid();
    Select(x, ESEL)
  }

  /** Block g of six selects bits 4g to 4g + 5, cyclically. */
  lemma EselRow(g: nat, k: nat)
    requires g < 8 && k < 6
    ensures |ESEL| == 48 && ESEL[6 * g + k] == if 4 * g + k == 0 then 32 else if 4 * g + k == 33 then 1 else 4 * g + k
  {
    if g == 0 {} else if g == 1 {} else if g == 2 {} else if g == 3 {} else if g == 4 {}
    else if g == 5 {} else if g == 6 {} else {}
  }

  /** E uses every bit. */
  lemma EselHits(f: nat)
    requires f < 32
    ensures |ESEL| == 48 && ESEL[6 * (f / 4) + f % 4 + 1] == f + 1
  {
    hide ESEL;
    EselRow(f / 4, f % 4 + 1);
  }

  function P32(x: BitStr): (y: BitStr)
    requires |x| == 32
    ensures |y| == 32
  {
    Perm32Valid();
    Select(x, PERM32)
  }

  /** Bits of `a`, but those of `b` wherever the salt has a one. */
  function Mix(a: BitStr, b: BitStr, salt: BitStr): (c: BitStr)
    requires |a| == |b| == |salt|
    ensures |c| == |a| && forall i :: 0 <= i < |c| ==> c[i] == if salt[i] then b[i] else a[i]
  {
    seq(|a|, i requires 0 <= i < |a| => if salt[i] then b[i] else a[i])
  }

  /** The expansion with bits i and i + 24 swapped wherever salt bit i is set; no salt, no swap. */
  function SaltedE(x: BitStr, salt: BitStr): (y: BitStr)
    requires |x| == 32 && |salt| == 24
    ensures |y| == 48
  {
    var a, b := E(x)[..24], E(x)[24..];
    Mix(a, b, salt) + Mix(b, a, salt)
  }

  lemma ExpandedBit(x: BitStr, g: nat, k: nat)
    requires |x| == 32 && g < 8 && k < 6
    ensures E(x)[6 * g + k] == x[if 4 * g + k == 0 then 31 else if 4 * g + k == 33 then 0 else 4 * g + k - 1]
  {
    EselRow(g, k);
    hide ESEL;
  }

  lemma SaltedBit(x: BitStr, salt: BitStr, n: nat)
    requires |x| == 32 && |salt| == 24 && n < 48
    ensures SaltedE(x, salt)[n] == E(x)[if salt[n % 24] then (n + 24) % 48 else n]
  {
    hide E;
    assert n % 24 == (if n < 24 then n else n - 24) && (n + 24) % 48 == if n < 24 then n + 24 else n - 24;
  }

  /** The salt exchanges the bits k and k + 24 of the expansion; bit k of the expansion's block g is bit 4g + k - 1,
      cyclically. */
  lemma SaltedEMeans(x: BitStr, salt: BitStr, g: nat, k: nat)
    requires |x| == 32 && |salt| == 24 && g < 8 && k < 6
    ensures var n := 6 * g + k; SaltedE(x, salt)[n] == E(x)[if salt[n % 24] then (n + 24) % 48 else n]
    ensures E(x)[6 * g + k] == x[if 4 * g + k == 0 then 31 else if 4 * g + k == 33 then 0 else 4 * g + k - 1]
  {
    hide *;
    SaltedBit(x, salt, 6 * g + k);
    ExpandedBit(x, g, k);
  }

  lemma UnsaltedE(x: BitStr)
    requires |x| == 32
    ensures SaltedE(x, Zeros(24)) == E(x)
  {
  }

  type SBoxes = seq<seq<seq<nat>>>

  predicate ValidSBoxes(sbox: SBoxes)
  {
    && |sbox| == 8
    && (forall i :: 0 <= i < 8 ==> |sbox[i]| == 4)
    && (forall i, r :: 0 <= i < 8 && 0 <= r < 4 ==> |sbox[i][r]| == 16)
    && (forall i, r, c :: 0 <= i < 8 && 0 <= r < 4 && 0 <= c < 16 ==> sbox[i][r][c] < 16)
  }

  /** S-box i: the outer two of six bits choose the row, the inner four the column. */
  function SBoxOut(sbox: SBoxes, i: nat, v: BitStr): (y: BitStr)
    requires ValidSBoxes(sbox) && i < 8 && |v| == 6
    ensures |y| == 4
  {
    FromNat(sbox[i][ToNat([v[0], v[5]])][ToNat(v[1..5])], 4)
  }

  function S(sbox: SBoxes, x: BitStr): (y: BitStr)
    requires ValidSBoxes(sbox) && |x| == 48
    ensures |y| == 32
  {
    seq(32, i requires 0 <= i < 32 => SBoxOut(sbox, i / 4, x[6 * (i / 4)..6 * (i / 4) + 6])[i % 4])
  }

  function F(sbox: SBoxes, salt: BitStr, r: BitStr, k: BitStr): (y: BitStr)
    requires ValidSBoxes(sbox) && |salt| == 24 && |r| == 32 && |k| == 48
    ensures |y| == 32
  {
    P32(S(sbox, Xor(k, SaltedE(r, salt))))
  }

  // ----- The key schedule KS -----

  function RotL(c: BitStr, n: nat): (d: BitStr)
    requires n <= |c|
    ensures |d| == |c|
  {
    c[n..] + c[..n]
  }

  /** Rounds 1, 2, 9 and 16 rotate by one, the others by two. */
  lemma RotsValid()
    ensures |ROTS| == 16
    ensures forall i :: 0 <= i < 16 ==> ROTS[i] == if i == 0 || i == 1 || i == 8 || i == 15 then 1 else 2
  {
  }

  /** The registers C and D before round i: half h of PC1 of the key, rotated. */
  function Register(key: BitStr, h: nat, i: nat): (c: BitStr)
    requires |key| == 64 && h < 2 && i <= 16
    ensures |c| == 28
  {
    Pc1Valid();
    RotsValid();
    if i == 0 then Select(key, PC1)[28 * h..28 * h + 28] else RotL(Register(key, h, i - 1), ROTS[i - 1])
  }

  function RoundKey(key: BitStr, i: nat): (k: BitStr)
    requires |key| == 64 && i < 16
    ensures |k| == 48
  {
    Pc2Valid();
    Select(Register(key, 0, i + 1) + Register(key, 1, i + 1), PC2)
  }

  function Schedule(key: BitStr): (ks: seq<Key48>)
    requires |key| == 64
    ensures |ks| == 16 && forall i :: 0 <= i < 16 ==> ks[i] == RoundKey(key, i)
  {
    seq(16, i requires 0 <= i < 16 => RoundKey(key, i))
  }

  /** Before each round both registers are rotated to the left, then PC2 selects the round key. */
  lemma ScheduleMeans(key: BitStr, i: nat)
    requires |key| == 64 && i < 16
    ensures |PC1| == 56 && ValidTable(PC1, 64) && |PC2| == 48 && ValidTable(PC2, 56)
    ensures Register(key, 0, 0) + Register(key, 1, 0) == Select(key, PC1)
    ensures forall h :: 0 <= h < 2 ==>
              var c, n := Register(key, h, i), if i == 0 || i == 1 || i == 8 || i == 15 then 1 else 2;
              Register(key, h, i + 1) == c[n..] + c[..n]
    ensures Schedule(key)[i] == Select(Register(key, 0, i + 1) + Register(key, 1, i + 1), PC2)
  {
    Pc1Valid();
    Pc2Valid();
    RotsValid();
    hide PC1;
    hide PC2;
    hide ROTS;
  }

  // ----- Enciphering and deciphering -----

  type Half = x: seq<bool> | |x| == 32 witness seq(32, _ => false)
  type Key48 = k: seq<bool> | |k| == 48 witness seq(48, _ => false)
  type Block = x: seq<bool> | |x| == 64 witness seq(64, _ => false)

  datatype Halves = Halves(l: Half, r: Half)

  /** The halves of the permuted input. */
  function EnterHalves(b: Block): Halves
  {
    InitialPermValid();
    var x := Select(b, INITIAL_PERM);
    Halves(x[..32], x[32..])
  }

  /** The permuted output. */
  function LeaveHalves(y: Halves): Block
  {
    FinalPermValid();
    Select(y.l + y.r, FINAL_PERM)
  }

  lemma LeaveEnter(b: Block)
    ensures LeaveHalves(EnterHalves(b)) == b
  {
    InitialPermValid();
    FinalPermValid();
    PermsInverse(b);
    hide INITIAL_PERM;
    hide FINAL_PERM;
    assert EnterHalves(b).l + EnterHalves(b).r == Select(b, INITIAL_PERM);
  }

  lemma EnterLeave(y: Halves)
    ensures EnterHalves(LeaveHalves(y)) == y
  {
    InitialPermValid();
    FinalPermValid();
    PermsInverse(y.l + y.r);
    hide INITIAL_PERM;
    hide FINAL_PERM;
    assert (y.l + y.r)[..32] == y.l && (y.l + y.r)[32..] == y.r;
  }

  datatype Cipher = Cipher(sbox: SBoxes, salt: BitStr) {
    predicate Valid() { ValidSBoxes(sbox) && |salt| == 24 }

    function Round(x: Halves, k: Key48): Halves
      requires Valid()
    {
      Halves(x.r, Xor(x.l, F(sbox, salt, x.r, k)))
    }

    function Rounds(x: Halves, ks: seq<Key48>): Halves
      requires Valid()
      decreases |ks|
    {
      if ks == [] then x else Round(Rounds(x, ks[..|ks| - 1]), ks[|ks| - 1])
    }

    /** All rounds, then the exchange of the halves. */
    function Core(x: Halves, ks: seq<Key48>): Halves
      requires Valid()
    {
      var y := Rounds(x, ks);
      Halves(y.r, y.l)
    }

    function Iterate(n: nat, x: Halves, ks: seq<Key48>): Halves
      requires Valid()
    {
      if n == 0 then x else Core(Iterate(n - 1, x, ks), ks)
    }

    function Encipher(b: Block, ks: seq<Key48>): Block
      requires Valid()
    {
      LeaveHalves(Core(EnterHalves(b), ks))
    }

    function EncipherTimes(n: nat, b: Block, ks: seq<Key48>): Block
      requires Valid()
    {
      if n == 0 then b else Encipher(EncipherTimes(n - 1, b, ks), ks)
    }

    /** Between two uses of the cipher FP and IP cancel, so n uses are one IP, n times the rounds, and one FP. */
    lemma {:induction false} TimesIterated(n: nat, b: Block, ks: seq<Key48>)
      requires Valid()
      ensures var y := Iterate(n, EnterHalves(b), ks); EncipherTimes(n, b, ks) == LeaveHalves(y)
    {
      LeaveEnter(b);
      hide EnterHalves;
      hide LeaveHalves;
      hide Core;
      if n != 0 {
        TimesIterated(n - 1, b, ks);
        EnterLeave(Iterate(n - 1, EnterHalves(b), ks));
      }
    }

    /** IP, then one round for each key, L' = R and R' = L xor f(R, K), then the halves exchanged and FP. */
    lemma EncipherMeans(b: Block, ks: seq<Key48>, x: Halves, k: Key48)
      requires Valid()
      ensures |INITIAL_PERM| == 64 && ValidTable(INITIAL_PERM, 64) && |FINAL_PERM| == 64 && ValidTable(FINAL_PERM, 64)
      ensures var p := Select(b, INITIAL_PERM);
              var y := Rounds(Halves(p[..32], p[32..]), ks);
              Encipher(b, ks) == Select(y.r + y.l, FINAL_PERM)
      ensures Rounds(x, []) == x && Rounds(x, ks + [k]) == Round(Rounds(x, ks), k)
      ensures Round(x, k) == Halves(x.r, Xor(x.l, P32(S(sbox, Xor(k, SaltedE(x.r, salt))))))
    {
      InitialPermValid();
      FinalPermValid();
      hide INITIAL_PERM;
      hide FINAL_PERM;
      hide S;
      hide SaltedE;
      hide P32;
      assert (ks + [k])[..|ks|] == ks;
    }

    lemma {:induction false} RoundsSplit(x: Halves, ks: seq<Key48>, ks': seq<Key48>)
      requires Valid()
      ensures Rounds(x, ks + ks') == Rounds(Rounds(x, ks), ks')
      decreases |ks'|
    {
      if ks' == [] {
        assert ks + ks' == ks;
      } else {
        var h := ks'[..|ks'| - 1];
        RoundsSplit(x, ks, h);
        assert (ks + ks')[..|ks + ks'| - 1] == ks + h;
      }
    }

    /** The rounds with the keys in reverse undo the rounds, whatever the S-boxes and the salt are. */
    lemma {:induction false} CoreInverse(x: Halves, ks: seq<Key48>)
      requires Valid()
      ensures Core(Core(x, ks), Reverse(ks)) == x
      decreases |ks|
    {
      if ks != [] {
        var h, k := ks[..|ks| - 1], ks[|ks| - 1];
        var y := Rounds(x, h);
        assert Reverse(ks) == [k] + Reverse(h);
        var z := Core(x, ks);
        RoundsSplit(z, [k], Reverse(h));
        assert Rounds(z, [k]) == Round(Rounds(z, []), k);
        assert Round(z, k) == Core(x, h) by {
          XorTwice(y.l, F(sbox, salt, y.r, k));
        }
        CoreInverse(x, h);
      }
    }

    /** Deciphering is enciphering with the key schedule reversed. */
    lemma DecipherEncipher(b: Block, ks: seq<Key48>)
      requires Valid()
      ensures Encipher(Encipher(b, ks), Reverse(ks)) == b
    {
      EnterLeave(Core(EnterHalves(b), ks));
      CoreInverse(EnterHalves(b), ks);
      LeaveEnter(b);
    }
  }

  lemma XorTwice(x: BitStr, y: BitStr)
    requires |x| == |y|
    ensures Xor(Xor(x, y), y) == x
  {
  }

  function Reverse<T>(s: seq<T>): (r: seq<T>)
    ensures |r| == |s| && forall i :: 0 <= i < |s| ==> r[i] == s[|s| - 1 - i]
  {
    seq(|s|, i requires 0 <= i < |s| => s[|s| - 1 - i])
  }
}
