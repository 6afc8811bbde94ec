/** Which salts change the sb tables: with S-boxes that take every value, all that swap a bit. */
module UfcSalt {
  import opened Bits
  import opened BitSeq
  import opened DesSpec
  import opened UfcTables
  import opened UfcInit

  /** Every S-box takes every value, as those of FIPS 46-3 do in each of their rows. */
  ghost predicate Onto(sbox: SBoxes)
    requires ValidSBoxes(sbox)
  {
    forall i, x :: 0 <= i < 8 && 0 <= x < 16 ==> Takes(sbox, i, x)
  }

  ghost predicate Takes(sbox: SBoxes, i: nat, x: nat)
    requires ValidSBoxes(sbox) && i < 8
  {
    exists r, c :: 0 <= r < 4 && 0 <= c < 16 && sbox[i][r][c] == x
  }

  /** The tables are the same with the mask and without. */
  ghost predicate SameTables(sbox: SBoxes, m: Word)
    requires ValidSBoxes(sbox)
  {
    forall sg: nat, v: BitStr :: sg < 4 && |v| == 12 ==>
      SaltedEntry(sbox, sg, v, m) == SaltedEntry(sbox, sg, v, Zeros(32))
  }

  /** The bit string of length n with bit j alone set. */
  function Unit(n: nat, j: nat): (u: BitStr)
    requires j < n
    ensures |u| == n && forall i :: 0 <= i < n ==> u[i] == (i == j)
  {
    seq(n, i requires 0 <= i < n => i == j)
  }

  /** Shuffling changes the tables exactly if the mask has a swap bit. */
  lemma {:induction false} SameExactly(sbox: SBoxes, b: BitStr)
    requires ValidSBoxes(sbox) && Onto(sbox) && |b| == 24
    ensures SameTables(sbox, Pack24(b)) <==> b == Zeros(24)
  {
    if b == Zeros(24) {
      assert Pack24(b) == Zeros(32);
    } else {
      var k :| 0 <= k < 24 && b[k];
      SwapShows(sbox, b, k);
    }
  }

  lemma {:induction false} SwapShows(sbox: SBoxes, b: BitStr, k: nat)
    requires ValidSBoxes(sbox) && Onto(sbox) && |b| == 24 && k < 24 && b[k]
    ensures !SameTables(sbox, Pack24(b))
  {
    var j := ExpandedUnit(k);
    var v := UnitInput(sbox, j);
    EntryMoves(sbox, j, v, b, k);
  }

  /** The entry for that input differs. */
  lemma {:induction false} EntryMoves(sbox: SBoxes, j: nat, v: BitStr, b: BitStr, k: nat)
    requires ValidSBoxes(sbox) && j < 32 && |v| == 12 && Nibbles(sbox, j / 8, v) == Unit(32, j) && |b| == 24 && k < 24
    requires b[k]
    requires E(P32(Unit(32, j)))[k] && !E(P32(Unit(32, j)))[24 + k]
    ensures SaltedEntry(sbox, j / 8, v, Pack24(b)) != SaltedEntry(sbox, j / 8, v, Zeros(32))
  {
    var e := E(P32(Unit(32, j)));
    hide E;
    hide P32;
    hide Nibbles;
    assert BaseEntry(sbox, j / 8, v) == Pack(e);
    ShuffleByZero(Pack(e));
    assert e[..24][k] && !e[24..][k];
    assert Pack(e).a[BitIndex(k)] && !Pack(e).b[BitIndex(k)] && Pack24(b)[BitIndex(k)];
    assert !Shuffle(Pack(e), Pack24(b)).a[BitIndex(k)];
  }

  /** Some bit of the S-box outputs reaches place k of the expansion and not place 24 + k. */
  lemma ExpandedUnit(k: nat) returns (j: nat)
    requires k < 24
    ensures j < 32 && E(P32(Unit(32, j)))[k] && !E(P32(Unit(32, j)))[24 + k]
  {
    EselValid();
    Perm32Valid();
    EselDiffers(k);
    hide ESEL;
    hide PERM32;
    j := PERM32[ESEL[k] - 1] - 1;
    Perm32OneToOne(ESEL[k] - 1, ESEL[24 + k] - 1);
  }

  lemma EselDiffers(k: nat)
    requires k < 24
    ensures |ESEL| == 48 && ESEL[k] != ESEL[24 + k]
  {
    EselRow(k / 6, k % 6);
    EselRow(k / 6 + 4, k % 6);
    hide ESEL;
  }

  /** Where P puts each bit. */
  const PLACE32: seq<nat> :=
    [8, 16, 22, 30, 12, 27, 1, 17, 23, 15, 29, 5, 25, 19, 9, 0] +
    [7, 13, 24, 2, 3, 28, 10, 18, 31, 11, 21, 6, 4, 26, 14, 20]

  lemma PlaceUndoes(n: nat)
    requires n < 32
    ensures |PERM32| == |PLACE32| == 32 && 1 <= PERM32[n] <= 32 && PLACE32[PERM32[n] - 1] == n
  {
  }

  lemma Perm32OneToOne(m: nat, n: nat)
    requires m < 32 && n < 32 && m != n
    ensures |PERM32| == 32 && PERM32[m] != PERM32[n]
  {
    PlaceUndoes(m);
    PlaceUndoes(n);
    hide PERM32;
    hide PLACE32;
  }

  // ----- Inputs with a given output -----

  lemma {:induction false} InputFor(sbox: SBoxes, i: nat, x: nat) returns (v: BitStr)
    requires ValidSBoxes(sbox) && Onto(sbox) && i < 8 && x < 16
    ensures |v| == 6 && SBoxOut(sbox, i, v) == FromNat(x, 4)
  {
    assert Takes(sbox, i, x);
    hide Onto;
    hide ValidSBoxes;
    var r: nat, c: nat :| r < 4 && c < 16 && sbox[i][r][c] == x;
    v := Address(r, c);
  }

  /** The six bits that address row r and column c. */
  lemma Address(r: nat, c: nat) returns (v: BitStr)
    requires r < 4 && c < 16
    ensures |v| == 6 && ToNat([v[0], v[5]]) == r && ToNat(v[1..5]) == c
  {
    assert Pow2(2) == 4 && Pow2(4) == 16;
    ToFromNat(r, 2);
    ToFromNat(c, 4);
    hide FromNat;
    hide ToNat;
    v := [FromNat(r, 2)[0]] + FromNat(c, 4) + [FromNat(r, 2)[1]];
    assert [v[0], v[5]] == FromNat(r, 2);
    assert v[1..5] == FromNat(c, 4);
  }

  lemma UnitNibble(p: nat) returns (x: nat)
    requires p < 4
    ensures x < 16 && FromNat(x, 4) == Unit(4, p)
  {
    x := if p == 0 then 8 else if p == 1 then 4 else if p == 2 then 2 else 1;
  }

  /** Every single bit is what a pair of S-boxes puts out for some input. */
  lemma {:induction false} UnitInput(sbox: SBoxes, j: nat) returns (v: BitStr)
    requires ValidSBoxes(sbox) && Onto(sbox) && j < 32
    ensures |v| == 12 && Nibbles(sbox, j / 8, v) == Unit(32, j)
  {
    var x := UnitNibble(j % 4);
    assert FromNat(0, 4) == Zeros(4);
    var first := j % 8 < 4;
    var a := InputFor(sbox, 2 * (j / 8), if first then x else 0);
    var b := InputFor(sbox, 2 * (j / 8) + 1, if first then 0 else x);
    v := a + b;
    assert v[..6] == a && v[6..] == b;
    hide *;
    UnitNibbles(sbox, j, v);
  }

  lemma {:induction false} UnitNibbles(sbox: SBoxes, j: nat, v: BitStr)
    requires ValidSBoxes(sbox) && j < 32 && |v| == 12
    requires SBoxOut(sbox, 2 * (j / 8), v[..6]) == if j % 8 < 4 then Unit(4, j % 4) else Zeros(4)
    requires SBoxOut(sbox, 2 * (j / 8) + 1, v[6..]) == if j % 8 < 4 then Zeros(4) else Unit(4, j % 4)
    ensures Nibbles(sbox, j / 8, v) == Unit(32, j)
  {
    hide SBoxOut;
    hide ValidSBoxes;
    forall i | 0 <= i < 32
      ensures Nibbles(sbox, j / 8, v)[i] == (i == j)
    {
      NibbleBitAt(sbox, j / 8, v, i);
      hide Nibbles;
      SamePlace(i, j);
    }
  }

  lemma NibbleBitAt(sbox: SBoxes, sg: nat, v: BitStr, i: nat)
    requires ValidSBoxes(sbox) && sg < 4 && |v| == 12 && i < 32
    ensures Nibbles(sbox, sg, v)[i] == (i / 8 == sg &&
      if i % 8 < 4 then SBoxOut(sbox, 2 * sg, v[..6])[i % 4] else SBoxOut(sbox, 2 * sg + 1, v[6..])[i % 4])
  {
  }

  lemma SamePlace(i: nat, j: nat)
    ensures i == j <==> i / 8 == j / 8 && (i % 8 < 4 <==> j % 8 < 4) && i % 4 == j % 4
  {
  }
}
