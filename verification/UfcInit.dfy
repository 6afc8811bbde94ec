/** The precomputed tables of UFC-crypt: __init_des_r, crypt/crypt_util.c:351-547. */
module UfcInit {
  import opened Bits
  import opened BitSeq
  import opened DesSpec
  import opened UfcTables
  import opened Ufc
  import opened SelectTable

  // ----- The layouts -----

  /** The places of BITMASK. */
  function Places24(): (p: seq<nat>)
    ensures |p| == 24
    ensures forall k :: 0 <= k < 24 ==> p[k] == BitIndex(k)
  {
    seq(24, k requires 0 <= k < 24 => BitIndex(k))
  }

  /** n places that end at the lowest bit. */
  function LowPlaces(n: nat): (p: seq<nat>)
    requires n <= 32
    ensures |p| == n && forall k :: 0 <= k < n ==> p[k] == k + 32 - n
  {
    seq(n, k requires 0 <= k < n => k + 32 - n)
  }

  /** eperm32tab: P, then E, packed. */
  function EpermLayout(): (t: Layout)
    ensures t.Valid() && t.w == 8 && t.groups == 4 && t.per == 24 && t.halves == 2 && t.place == Places24()
    ensures |t.from| == 48 && forall o :: 0 <= o < 48 ==> 1 <= ESEL[o] <= 32 && t.from[o] == PERM32[ESEL[o] - 1] - 1
  {
    EselValid();
    Perm32Valid();
    Layout(seq(48, o requires 0 <= o < 48 => PERM32[ESEL[o] - 1] - 1), 8, 4, 24, Places24(), 2)
  }

  /** Packing is the only word with the given bits at the places of BITMASK and zeros elsewhere. */
  lemma PackedUnique(v: Word, b: BitStr)
    requires |b| == 24
    requires forall k :: 0 <= k < 24 ==> v[BitIndex(k)] == b[k]
    requires forall i :: 0 <= i < 32 && i !in Places24() ==> !v[i]
    ensures v == Pack24(b)
  {
    forall i | 0 <= i < 32
      ensures v[i] == Pack24(b)[i]
    {
      if 1 <= i < 13 {
        assert v[BitIndex(i - 1)] == b[i - 1];
      } else if 17 <= i < 29 {
        assert v[BitIndex(i - 5)] == b[i - 5];
      } else {
        assert i !in Places24();
      }
    }
  }

  lemma EpermSelects(v: Word, x: BitStr, h: nat)
    requires |x| == 32 && h < 2 && Selected(v, EpermLayout(), x, h)
    ensures v == Pack24(E(P32(x))[24 * h..24 * h + 24])
  {
    var b := E(P32(x))[24 * h..24 * h + 24];
    hide EpermLayout;
    forall k | 0 <= k < 24
      ensures v[BitIndex(k)] == b[k]
    {
      EpermBit(v, x, h, k);
    }
    PackedUnique(v, b);
  }

  lemma EpermBit(v: Word, x: BitStr, h: nat, k: nat)
    requires |x| == 32 && h < 2 && Selected(v, EpermLayout(), x, h) && k < 24
    ensures v[BitIndex(k)] == E(P32(x))[24 * h + k]
  {
    var t := EpermLayout();
    EselValid();
    Perm32Valid();
    hide ESEL;
    hide PERM32;
    assert t.place[k] == BitIndex(k);
    assert t.from[24 * h + k] == t.Source(h, k);
  }

  // ----- The sb tables -----

  /** The macro s_lookup: row from the outer bits, column from the inner ones. */
  function SLookup(sbox: SBoxes, i: nat, s: nat): (y: nat)
    requires ValidSBoxes(sbox) && i < 8 && s < 64
    ensures y < 16
  {
    sbox[i][2 * (s / 32) + s % 2][s / 2 % 16]
  }

  lemma SixBits(v: BitStr)
    requires |v| == 6
    ensures ToNat([v[0], v[5]]) == 2 * (ToNat(v) / 32) + ToNat(v) % 2 && ToNat(v[1..5]) == ToNat(v) / 2 % 16
    ensures ToNat(v) < 64
  {
    Pow2Small();
    var h, m, l := v[..1], v[1..5], v[5..];
    assert v == (h + m) + l;
    ToNatAppend(h + m, l);
    ToNatAppend(h, m);
    assert [v[0], v[5]] == h + l;
    ToNatAppend(h, l);
    hide ToNat;
    Digits(ToNat(h), ToNat(m), ToNat(l));
  }

  lemma Digits(h: nat, m: nat, l: nat)
    requires h < 2 && m < 16 && l < 2
    ensures var n := (h * 16 + m) * 2 + l; n < 64 && n / 32 == h && n % 2 == l && n / 2 % 16 == m
  {
  }

  lemma Pow2Small()
    ensures Pow2(1) == 2 && Pow2(4) == 16 && Pow2(6) == 64 && Pow2(7) == 128 && Pow2(12) == 4096
  {
    Pow2Add(6, 6);
  }

  lemma SLookupIs(sbox: SBoxes, i: nat, v: BitStr)
    requires ValidSBoxes(sbox) && i < 8 && |v| == 6
    ensures ToNat(v) < 64 && FromNat(SLookup(sbox, i, ToNat(v)), 4) == SBoxOut(sbox, i, v)
  {
    SixBits(v);
  }

  lemma {:induction false} FromNatPad(n: nat, len: nat, pad: nat)
    requires n < Pow2(len)
    ensures FromNat(n, pad + len) == Zeros(pad) + FromNat(n, len)
    decreases len
  {
    if len == 0 {
      ZeroBits(pad);
    } else {
      FromNatPad(n / 2, len - 1, pad);
    }
  }

  lemma {:induction false} ZeroBits(n: nat)
    ensures FromNat(0, n) == Zeros(n)
  {
    if n != 0 { ZeroBits(n - 1); }
  }

  /** ((s1 << 4) | s2) << (24 - 8 * sg), lines 513-514. */
  function ToPermute(s1: nat, s2: nat, sg: nat): Word
    requires sg < 4
  {
    Shl(Or(Shl(FromNat(s1, 32), 4), FromNat(s2, 32)), 24 - 8 * sg)
  }

  lemma ToPermuteIs(sbox: SBoxes, sg: nat, v: BitStr)
    requires ValidSBoxes(sbox) && sg < 4 && |v| == 12
    ensures ToNat(v[..6]) < 64 && ToNat(v[6..]) < 64
    ensures ToPermute(SLookup(sbox, 2 * sg, ToNat(v[..6])), SLookup(sbox, 2 * sg + 1, ToNat(v[6..])), sg)
        == Nibbles(sbox, sg, v)
  {
    SLookupIs(sbox, 2 * sg, v[..6]);
    SLookupIs(sbox, 2 * sg + 1, v[6..]);
    Pow2Small();
    var s1, s2 := SLookup(sbox, 2 * sg, ToNat(v[..6])), SLookup(sbox, 2 * sg + 1, ToNat(v[6..]));
    FromNatPad(s1, 4, 28);
    FromNatPad(s2, 4, 28);
    hide FromNat;
    hide SLookup;
    hide SBoxOut;
    var a, b := FromNat(s1, 4), FromNat(s2, 4);
    PlacedBits(a, b, FromNat(s1, 32), FromNat(s2, 32), 8 * sg);
    NibblesAre(sbox, sg, v);
    hide *;
  }

  lemma NibblesAre(sbox: SBoxes, sg: nat, v: BitStr)
    requires ValidSBoxes(sbox) && sg < 4 && |v| == 12
    ensures Nibbles(sbox, sg, v)
         == Zeros(8 * sg) + SBoxOut(sbox, 2 * sg, v[..6]) + SBoxOut(sbox, 2 * sg + 1, v[6..]) + Zeros(24 - 8 * sg)
  {
    hide SBoxOut;
    hide ValidSBoxes;
    var w := Zeros(8 * sg) + SBoxOut(sbox, 2 * sg, v[..6]) + SBoxOut(sbox, 2 * sg + 1, v[6..]) + Zeros(24 - 8 * sg);
    forall i | 0 <= i < 32
      ensures Nibbles(sbox, sg, v)[i] == w[i]
    {
      if i < 8 * sg {} else if i < 8 * sg + 4 {} else if i < 8 * sg + 8 {} else {}
    }
  }

  lemma PlacedBits(a: BitStr, b: BitStr, x: Word, y: Word, n: nat)
    requires |a| == |b| == 4 && n <= 24 && x == Zeros(28) + a && y == Zeros(28) + b
    ensures Shl(Or(Shl(x, 4), y), 24 - n) == Zeros(n) + a + b + Zeros(24 - n)
  {
    var w := Or(Shl(x, 4), y);
    assert w == Zeros(24) + a + b;
    assert w[24 - n..] == Zeros(n) + a + b;
  }

  /** Lines 518-525, for one of the two words: the four bytes looked up in turn. */
  method PermuteExpand(eperm: array3<Word>, x: Word, h: nat) returns (v: Word)
    requires h < 2 && Filled(eperm, EpermLayout(), 48)
    ensures v == Pack24(E(P32(x))[24 * h..24 * h + 24])
  {
    ghost var t := EpermLayout();
    BytesOf(x);
    NothingGathered(t, x, h, 0);
    hide *;
    v := LookUp(eperm, t, Zeros(32), h, 0, Field(x, 24, 8), x, 0, 0);
    v := LookUp(eperm, t, v, h, 1, Field(x, 16, 8), x, 0, 1);
    v := LookUp(eperm, t, v, h, 2, Field(x, 8, 8), x, 0, 2);
    v := LookUp(eperm, t, v, h, 3, Field(x, 0, 8), x, 0, 3);
    AllGathered(v, t, x, h);
    EpermSelects(v, x, h);
  }

  lemma BytesOf(x: Word)
    ensures Field(x, 24, 8) == GroupIndex(x, 8, 0) && Field(x, 16, 8) == GroupIndex(x, 8, 1)
    ensures Field(x, 8, 8) == GroupIndex(x, 8, 2) && Field(x, 0, 8) == GroupIndex(x, 8, 3)
  {
    FieldIs(x, 24, 8);
    FieldIs(x, 16, 8);
    FieldIs(x, 8, 8);
    FieldIs(x, 0, 8);
  }

  /** The first n entries of table sg hold what they should before any salt. */
  ghost predicate BaseUpTo(tab: seq<Word>, base: nat, sbox: SBoxes, sg: nat, n: nat)
    requires ValidSBoxes(sbox) && sg < 4
  {
    && base + 8192 <= |tab| && n <= 4096
    && forall i :: 0 <= i < n ==> EntryAt(tab, base, i) == BaseEntry(sbox, sg, FromNat(i, 12))
  }

  lemma BaseGrows(tab: seq<Word>, tab': seq<Word>, base: nat, sbox: SBoxes, sg: nat, n: nat)
    requires ValidSBoxes(sbox) && sg < 4 && n < 4096 && BaseUpTo(tab, base, sbox, sg, n)
    requires |tab'| == |tab| && tab'[..base + 2 * n] == tab[..base + 2 * n]
    requires EntryAt(tab', base, n) == BaseEntry(sbox, sg, FromNat(n, 12))
    ensures BaseUpTo(tab', base, sbox, sg, n + 1)
  {
    hide ValidSBoxes;
    hide FromNat;
    hide BaseEntry;
    forall i | 0 <= i < n
      ensures EntryAt(tab', base, i) == BaseEntry(sbox, sg, FromNat(i, 12))
    {
      var m := base + 2 * n;
      assert tab'[..m][base + 2 * i] == tab[..m][base + 2 * i];
      assert tab'[..m][base + 2 * i + 1] == tab[..m][base + 2 * i + 1];
      assert EntryAt(tab, base, i) == BaseEntry(sbox, sg, FromNat(i, 12));
    }
  }

  lemma EntryComputed(sbox: SBoxes, sg: nat, j1: nat, j2: nat)
    requires ValidSBoxes(sbox) && sg < 4 && j1 < 64 && j2 < 64
    ensures Pack(E(P32(ToPermute(SLookup(sbox, 2 * sg, j1), SLookup(sbox, 2 * sg + 1, j2), sg))))
         == BaseEntry(sbox, sg, FromNat(64 * j1 + j2, 12))
  {
    IndexHalves(j1, j2);
    ToPermuteIs(sbox, sg, FromNat(64 * j1 + j2, 12));
    hide ValidSBoxes;
    hide Nibbles;
    hide ToPermute;
    hide SLookup;
    hide FromNat;
    hide ToNat;
    hide E;
    hide P32;
    hide Pack;
  }

  /** The twelve bits of an index are the bits of j1, then those of j2. */
  lemma IndexHalves(j1: nat, j2: nat)
    requires j1 < 64 && j2 < 64
    ensures ToNat(FromNat(64 * j1 + j2, 12)[..6]) == j1 && ToNat(FromNat(64 * j1 + j2, 12)[6..]) == j2
  {
    Pow2Small();
    var v := FromNat(j1, 6) + FromNat(j2, 6);
    ToFromNat(j1, 6);
    ToFromNat(j2, 6);
    ToNatAppend(FromNat(j1, 6), FromNat(j2, 6));
    FromToNat(v);
  }

  /** Lines 503-544 for one sg. */
  method FillSb(tab: array<Word>, base: nat, sbox: SBoxes, sg: nat, eperm: array3<Word>)
    requires ValidSBoxes(sbox) && sg < 4 && base + 8192 <= tab.Length && Filled(eperm, EpermLayout(), 48)
    modifies tab
    ensures SbTable(tab[..], base, sbox, sg, Zeros(32))
    ensures forall i :: 0 <= i < tab.Length && !(base <= i < base + 8192) ==> tab[i] == old(tab[i])
  {
    hide SLookup;
    hide ValidSBoxes;
    for j1 := 0 to 64
      invariant BaseUpTo(tab[..], base, sbox, sg, 64 * j1)
      invariant forall i :: 0 <= i < tab.Length && !(base <= i < base + 8192) ==> tab[i] == old(tab[i])
    {
      var s1 := SLookup(sbox, 2 * sg, j1);
      for j2 := 0 to 64
        invariant BaseUpTo(tab[..], base, sbox, sg, 64 * j1 + j2)
        invariant forall i :: 0 <= i < tab.Length && !(base <= i < base + 8192) ==> tab[i] == old(tab[i])
      {
        hide BaseUpTo;
        FillEntry(tab, base, sbox, sg, eperm, j1, j2, s1);
      }
    }
    BaseComplete(tab[..], base, sbox, sg);
  }

  method FillEntry(tab: array<Word>, base: nat, sbox: SBoxes, sg: nat, eperm: array3<Word>, j1: nat, j2: nat, s1: nat)
    requires ValidSBoxes(sbox) && sg < 4 && base + 8192 <= tab.Length && Filled(eperm, EpermLayout(), 48)
    requires j1 < 64 && j2 < 64 && s1 == SLookup(sbox, 2 * sg, j1) && BaseUpTo(tab[..], base, sbox, sg, 64 * j1 + j2)
    modifies tab
    ensures BaseUpTo(tab[..], base, sbox, sg, 64 * j1 + j2 + 1)
    ensures forall i :: 0 <= i < tab.Length && !(base <= i < base + 8192) ==> tab[i] == old(tab[i])
  {
    hide BaseUpTo;
    hide ToPermute;
    hide E;
    hide P32;
    hide SLookup;
    hide ValidSBoxes;
    hide Pack24;
    var s2 := SLookup(sbox, 2 * sg + 1, j2);
    var x := ToPermute(s1, s2, sg);
    var inx := 2 * (64 * j1 + j2);
    var a := PermuteExpand(eperm, x, 0);
    var b := PermuteExpand(eperm, x, 1);
    tab[base + inx], tab[base + inx + 1] := a, b;
    assert E(P32(x))[0..24] == E(P32(x))[..24] && E(P32(x))[24..48] == E(P32(x))[24..];
    assert Pack(E(P32(x))) == Pair(a, b);
    EntryComputed(sbox, sg, j1, j2);
    BaseGrows(old(tab[..]), tab[..], base, sbox, sg, 64 * j1 + j2);
  }

  lemma BaseComplete(tab: seq<Word>, base: nat, sbox: SBoxes, sg: nat)
    requires ValidSBoxes(sbox) && sg < 4 && BaseUpTo(tab, base, sbox, sg, 4096)
    ensures SbTable(tab, base, sbox, sg, Zeros(32))
  {
    forall v: BitStr | |v| == 12
      ensures EntryAt(tab, base, Index12(v)) == SaltedEntry(sbox, sg, v, Zeros(32))
    {
      FromToNat(v);
      hide BaseEntry;
      ShuffleByZero(BaseEntry(sbox, sg, v));
    }
  }

  lemma ShuffleByZero(p: Pair)
    ensures Shuffle(p, Zeros(32)) == p
  {
    assert Shuffle(p, Zeros(32)).a == p.a;
    assert Shuffle(p, Zeros(32)).b == p.b;
  }

  // ----- Undoing E -----

  /** e_inverse: for every bit f of the two halves a place in their expansions that holds it. */
  ghost predicate UndoesE(inv: seq<nat>)
  {
    |inv| == 64 && |ESEL| == 48
    && forall f :: 0 <= f < 32 ==> Found(ESEL, inv, f)
  }

  /** Place inv[f] holds bit f. */
  ghost predicate Found(esel: seq<nat>, inv: seq<nat>, f: nat)
    requires |esel| == 48 && |inv| == 64
  {
    f < 32 && inv[f] < 48 && esel[inv[f]] == f + 1 && inv[f + 32] == inv[f] + 48
  }

  /** Lines 438-441. */
  method EInverse(esel: seq<nat>) returns (inv: array<nat>)
    requires |esel| == 48 && ValidTable(esel, 32)
    ensures fresh(inv) && inv.Length == 64
    ensures forall b :: 0 <= b < 48 ==> Found(esel, inv[..], esel[b] - 1)
  {
    inv := new nat[64];
    var bit := 48;
    while bit != 0
      invariant 0 <= bit <= 48
      invariant forall b :: bit <= b < 48 ==> Found(esel, inv[..], esel[b] - 1)
    {
      bit := bit - 1;
      ghost var was := inv[..];
      inv[esel[bit] - 1] := bit;
      inv[esel[bit] - 1 + 32] := bit + 48;
      forall b | bit <= b < 48
        ensures Found(esel, inv[..], esel[b] - 1)
      {
        if esel[b] != esel[bit] { assert Found(esel, was, esel[b] - 1); }
      }
    }
  }

  /** E uses every bit, so its inverse is defined everywhere. */
  lemma InverseComplete(inv: seq<nat>)
    requires |ESEL| == 48 && ValidTable(ESEL, 32) && |inv| == 64
    requires forall b :: 0 <= b < 48 ==> Found(ESEL, inv, ESEL[b] - 1)
    ensures UndoesE(inv)
  {
    hide ESEL;
    forall f | 0 <= f < 32
      ensures Found(ESEL, inv, f)
    {
      EselHits(f);
    }
  }

  /** Where output bit o of FP is found in the expansions. */
  function EfpAt(inv: seq<nat>, o: nat): (i: nat)
    requires o < 64 && |inv| == 64 && forall f :: 0 <= f < 64 ==> inv[f] < 96
    ensures i < 96
  {
    FinalPermValid();
    hide FINAL_PERM;
    inv[FINAL_PERM[o] - 1]
  }

  function EfpLayout(inv: seq<nat>): (t: Layout)
    requires |inv| == 64 && forall f :: 0 <= f < 64 ==> inv[f] < 96
    ensures t.Valid() && t.w == 6 && t.groups == 16 && t.per == 32 && t.halves == 2 && t.place == LowPlaces(32)
    ensures |t.from| == 64 && forall o :: 0 <= o < 64 ==> t.from[o] == EfpAt(inv, o)
  {
    hide EfpAt;
    Layout(seq(64, o requires 0 <= o < 64 => EfpAt(inv, o)), 6, 16, 32, LowPlaces(32), 2)
  }

  lemma UndoBound(inv: seq<nat>)
    requires UndoesE(inv)
    ensures forall f :: 0 <= f < 64 ==> inv[f] < 96
  {
    hide ESEL;
    forall f | 0 <= f < 64
      ensures inv[f] < 96
    {
      assert Found(ESEL, inv, f % 32);
    }
  }

  /** Looked up by the expansions of both halves, efp yields FP of the halves. */
  lemma EfpSelects(v: Word, inv: seq<nat>, l: Half, r: Half, h: nat)
    requires UndoesE(inv) && h < 2 && (forall f :: 0 <= f < 64 ==> inv[f] < 96)
    requires Selected(v, EfpLayout(inv), E(l) + E(r), h)
    ensures |FINAL_PERM| == 64 && ValidTable(FINAL_PERM, 64) && v == Select(l + r, FINAL_PERM)[32 * h..32 * h + 32]
  {
    var t, x := EfpLayout(inv), E(l) + E(r);
    FinalPermValid();
    hide FINAL_PERM;
    hide E;
    forall k | 0 <= k < 32
      ensures v[k] == Select(l + r, FINAL_PERM)[32 * h + k]
    {
      assert t.place[k] == k;
      assert t.from[32 * h + k] == t.Source(h, k);
      Unexpand(inv, l, r, FINAL_PERM[32 * h + k] - 1);
    }
  }

  lemma Unexpand(inv: seq<nat>, l: Half, r: Half, f: nat)
    requires UndoesE(inv) && f < 64
    ensures inv[f] < 96 && (E(l) + E(r))[inv[f]] == (l + r)[f]
  {
    EselValid();
    hide ESEL;
    assert Found(ESEL, inv, f % 32);
    if f < 32 {
      assert (E(l) + E(r))[inv[f]] == E(l)[inv[f]];
    } else {
      assert (E(l) + E(r))[inv[f]] == E(r)[inv[f - 32]];
    }
  }
}
