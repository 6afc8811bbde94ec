/** The round loop of UFC-crypt, crypt/crypt.c:38-70 (32-bit version). */
module Ufc {
  import opened Bits
  import opened BitSeq
  import opened DesSpec
  import opened UfcTables

  // ----- Words as table offsets -----

  function Index12(v: BitStr): (n: nat)
    requires |v| == 12
    ensures n < 4096
  {
    Pow2Values();
    Pow2Add(8, 4);
    ToNat(v)
  }

  /** A packed key word with bit 0x8000 set: its low half then points into the second table. */
  function KeyWord(v: BitStr): Word
    requires |v| == 24
  {
    Pack24(v)[16 := true]
  }

  lemma KeyWordXor(k: BitStr, r: BitStr)
    requires |k| == |r| == 24
    ensures Xor(KeyWord(k), Pack24(r)) == KeyWord(Xor(k, r))
  {
  }

  /** A run of 12 bits followed by three zeros is a byte offset to an entry of two words. */
  lemma OffsetOf(h: BitStr, b: bool, v: BitStr)
    requires |v| == 12 && h == [b] + v + Zeros(3)
    ensures ToNat(h) == (if b then 32768 else 0) + 8 * Index12(v)
  {
    Pow2Values();
    ToNatZeros(3);
    ToNatAppend([b] + v, Zeros(3));
    ToNatAppend([b], v);
    Pow2Add(8, 4);
    assert ToNat([b]) == if b then 1 else 0 by {
      assert [b][..0] == [];
    }
  }

  lemma KeyWordOffsets(x: BitStr)
    requires |x| == 24
    ensures ToNat(KeyWord(x)[..16]) == 8 * Index12(x[..12])
    ensures ToNat(KeyWord(x)[16..]) == 32768 + 8 * Index12(x[12..])
  {
    var w := KeyWord(x);
    assert w[..16] == [false] + x[..12] + Zeros(3);
    assert w[16..] == [true] + x[12..] + Zeros(3);
    OffsetOf(w[..16], false, x[..12]);
    OffsetOf(w[16..], true, x[12..]);
  }

  // ----- The sb tables -----

  /** Entry n of the table that starts at word `base`. */
  function EntryAt(tab: seq<Word>, base: nat, n: nat): Pair
    requires n < 4096 && base + 8192 <= |tab|
  {
    Pair(tab[base + 2 * n], tab[base + 2 * n + 1])
  }

  /** Every entry of table sg is the base entry shuffled by the mask. */
  ghost predicate SbTable(tab: seq<Word>, base: nat, sbox: SBoxes, sg: nat, m: Word)
    requires ValidSBoxes(sbox) && sg < 4
  {
    && base + 8192 <= |tab|
    && forall v: BitStr :: |v| == 12 ==> EntryAt(tab, base, Index12(v)) == SaltedEntry(sbox, sg, v, m)
  }

  /** sb0 and sb1 (sb2 and sb3) lie one behind the other, so that one offset reaches both. */
  ghost predicate SbPair(tab: seq<Word>, sbox: SBoxes, sg: nat, m: Word)
    requires ValidSBoxes(sbox) && sg < 3
  {
    |tab| == 16384 && SbTable(tab, 0, sbox, sg, m) && SbTable(tab, 8192, sbox, sg + 1, m)
  }

  /** The two words that SBA fetches at a byte offset and four bytes behind it. */
  function Sba(tab: seq<Word>, off: nat): Pair
    requires (off + 4) / 4 < |tab|
  {
    Pair(tab[off / 4], tab[(off + 4) / 4])
  }

  /** Every access is within the tables and hits the entries for the word's two runs of bits. */
  lemma SbaFinds(tab: seq<Word>, sbox: SBoxes, sg: nat, m: Word, x: BitStr)
    requires ValidSBoxes(sbox) && sg < 3 && SbPair(tab, sbox, sg, m) && |x| == 24
    ensures (ToNat(KeyWord(x)[16..]) + 4) / 4 < |tab| && (ToNat(KeyWord(x)[..16]) + 4) / 4 < |tab|
    ensures Sba(tab, ToNat(KeyWord(x)[16..])) == SaltedEntry(sbox, sg + 1, x[12..], m)
    ensures Sba(tab, ToNat(KeyWord(x)[..16])) == SaltedEntry(sbox, sg, x[..12], m)
  {
    hide KeyWord;
    hide Index12;
    hide SaltedEntry;
    hide SbTable;
    hide ValidSBoxes;
    hide ToNat;
    KeyWordOffsets(x);
    EntryFound(tab, 8192, sbox, sg + 1, m, x[12..]);
    EntryFound(tab, 0, sbox, sg, m, x[..12]);
  }

  lemma EntryFound(tab: seq<Word>, base: nat, sbox: SBoxes, sg: nat, m: Word, v: BitStr)
    requires ValidSBoxes(sbox) && sg < 4 && SbTable(tab, base, sbox, sg, m) && |v| == 12
    ensures base + 8192 <= |tab| && EntryAt(tab, base, Index12(v)) == SaltedEntry(sbox, sg, v, m)
  {
  }

  /** Lines 53-55: the lookups of one word, low half first. */
  method LookupWord(tab: array<Word>, s: Word, l: Pair, ghost sbox: SBoxes, ghost sg: nat, ghost m: Word,
                    ghost x: BitStr)
    returns (r: Pair)
    requires ValidSBoxes(sbox) && sg < 3 && SbPair(tab[..], sbox, sg, m) && |x| == 24 && s == KeyWord(x)
    ensures r == Xor2(Xor2(l, SaltedEntry(sbox, sg + 1, x[12..], m)), SaltedEntry(sbox, sg, x[..12], m))
  {
    SbaFinds(tab[..], sbox, sg, m, x);
    hide *;
    r := Xor2(l, Sba(tab[..], ToNat(s[16..])));
    r := Xor2(r, Sba(tab[..], ToNat(s[..16])));
  }

  lemma Xor2Regroup(l: Pair, a: Pair, b: Pair, c: Pair, d: Pair)
    ensures Xor2(Xor2(Xor2(Xor2(l, b), a), d), c) == Xor2(l, Xor2(Xor2(a, b), Xor2(c, d)))
  {
    var x, y := Xor2(Xor2(Xor2(Xor2(l, b), a), d), c), Xor2(l, Xor2(Xor2(a, b), Xor2(c, d)));
    assert x.a == y.a;
    assert x.b == y.b;
  }

  // ----- The rounds -----

  /** The 32 words of the key schedule hold the 16 round keys. */
  ghost predicate KeySched(kt: seq<Word>, ks: seq<Key48>)
  {
    |kt| == 32 && |ks| == 16
    && forall i :: 0 <= i < 16 ==> kt[2 * i] == KeyWord(ks[i][..24]) && kt[2 * i + 1] == KeyWord(ks[i][24..])
  }

  /** What the four tables hold for the current salt. */
  ghost predicate Tables(sb01: seq<Word>, sb23: seq<Word>, c: Cipher)
  {
    c.Valid() && SbPair(sb01, c.sbox, 0, Pack24(c.salt)) && SbPair(sb23, c.sbox, 2, Pack24(c.salt))
  }

  /** Lines 53-58: one round, on the E-expanded halves. */
  method UfcRound(sb01: array<Word>, sb23: array<Word>, k1: Word, k2: Word, l: Pair, r: Pair,
                  ghost c: Cipher, ghost k: Key48, ghost left: Half, ghost right: Half) returns (l': Pair)
    requires Tables(sb01[..], sb23[..], c) && k1 == KeyWord(k[..24]) && k2 == KeyWord(k[24..])
    requires l == Expanded(left, c.salt) && r == Expanded(right, c.salt)
    ensures l' == Expanded(Xor(left, F(c.sbox, c.salt, right, k)), c.salt)
  {
    hide *;
    RoundSetup(sb01[..], sb23[..], c, k, right);
    ghost var e := SaltedE(right, c.salt);
    ghost var x := Xor(k, e);
    RoundInputs(k, e);
    var s := Xor(k1, r.a);
    l' := LookupWord(sb01, s, l, c.sbox, 0, Pack24(c.salt), x[..24]);
    s := Xor(k2, r.b);
    l' := LookupWord(sb23, s, l', c.sbox, 2, Pack24(c.salt), x[24..]);
    RoundOutputs(c, x, l, left);
  }

  lemma RoundSetup(sb01: seq<Word>, sb23: seq<Word>, c: Cipher, k: Key48, right: Half)
    requires Tables(sb01, sb23, c)
    ensures c.Valid() && |c.salt| == 24 && ValidSBoxes(c.sbox)
    ensures SbPair(sb01, c.sbox, 0, Pack24(c.salt)) && SbPair(sb23, c.sbox, 2, Pack24(c.salt))
    ensures Expanded(right, c.salt) == Pack(SaltedE(right, c.salt))
    ensures F(c.sbox, c.salt, right, k) == P32(S(c.sbox, Xor(k, SaltedE(right, c.salt))))
  {
  }

  lemma RoundInputs(k: Key48, e: Key48)
    ensures Xor(KeyWord(k[..24]), Pack(e).a) == KeyWord(Xor(k, e)[..24])
    ensures Xor(KeyWord(k[24..]), Pack(e).b) == KeyWord(Xor(k, e)[24..])
  {
    KeyWordXor(k[..24], e[..24]);
    KeyWordXor(k[24..], e[24..]);
    assert Xor(k, e)[..24] == Xor(k[..24], e[..24]);
    assert Xor(k, e)[24..] == Xor(k[24..], e[24..]);
  }

  lemma RoundOutputs(c: Cipher, x: Key48, l: Pair, left: Half)
    requires c.Valid() && l == Expanded(left, c.salt)
    ensures Xor2(Xor2(Xor2(Xor2(l, SaltedEntry(c.sbox, 1, x[..24][12..], Pack24(c.salt))),
                           SaltedEntry(c.sbox, 0, x[..24][..12], Pack24(c.salt))),
                      SaltedEntry(c.sbox, 3, x[24..][12..], Pack24(c.salt))),
                 SaltedEntry(c.sbox, 2, x[24..][..12], Pack24(c.salt)))
         == Expanded(Xor(left, P32(S(c.sbox, x))), c.salt)
  {
    assert x[..24][12..] == x[12..24] && x[..24][..12] == x[..12];
    assert x[24..][12..] == x[36..] && x[24..][..12] == x[24..36];
    var m := Pack24(c.salt);
    EntriesSum(c.sbox, c.salt, x);
    ExpandedXor(left, P32(S(c.sbox, x)), c.salt);
    hide SaltedEntry;
    hide Expanded;
    hide P32;
    hide S;
    Xor2Regroup(l, SaltedEntry(c.sbox, 0, x[..12], m), SaltedEntry(c.sbox, 1, x[12..24], m),
                SaltedEntry(c.sbox, 2, x[24..36], m), SaltedEntry(c.sbox, 3, x[36..], m));
  }

  /** The working state holds both halves E-expanded. */
  ghost predicate Represents(l: Pair, r: Pair, x: Halves, salt: BitStr)
    requires |salt| == 24
  {
    l == Expanded(x.l, salt) && r == Expanded(x.r, salt)
  }

  /** Lines 53-65: one turn of the loop. */
  method RoundPair(sb01: array<Word>, sb23: array<Word>, kt: array<Word>, k: nat, l: Pair, r: Pair,
                   ghost c: Cipher, ghost ks: seq<Key48>, ghost n: nat, ghost y: Halves) returns (l': Pair, r': Pair)
    requires Tables(sb01[..], sb23[..], c) && KeySched(kt[..], ks) && c.Valid() && Represents(l, r, y, c.salt)
    requires n < 15 && k == 2 * n
    ensures var h := Xor(y.l, F(c.sbox, c.salt, y.r, ks[n]));
            Represents(l', r', Halves(h, Xor(y.r, F(c.sbox, c.salt, h, ks[n + 1]))), c.salt)
  {
    hide Expanded;
    hide KeyWord;
    hide Tables;
    hide F;
    KeysAt(kt[..], ks, n);
    KeysAt(kt[..], ks, n + 1);
    l' := UfcRound(sb01, sb23, kt[k], kt[k + 1], l, r, c, ks[n], y.l, y.r);
    r' := UfcRound(sb01, sb23, kt[k + 2], kt[k + 3], r, l', c, ks[n + 1], y.r, Xor(y.l, F(c.sbox, c.salt, y.r, ks[n])));
  }

  /** Lines 51-66: two rounds per turn, without exchanging the halves in between. */
  method SixteenRounds(sb01: array<Word>, sb23: array<Word>, kt: array<Word>, l0: Pair, r0: Pair,
                       ghost c: Cipher, ghost ks: seq<Key48>, ghost x: Halves) returns (l: Pair, r: Pair)
    requires Tables(sb01[..], sb23[..], c) && KeySched(kt[..], ks) && c.Valid() && Represents(l0, r0, x, c.salt)
    ensures Represents(l, r, c.Rounds(x, ks), c.salt)
  {
    hide Represents;
    hide KeyWord;
    hide Tables;
    hide F;
    l, r := l0, r0;
    assert ks[..2 * 0] == [];
    var k := 0;
    for i := 0 to 8
      invariant k == 4 * i
      invariant Represents(l, r, c.Rounds(x, ks[..2 * i]), c.salt)
    {
      TwoRounds(c, x, ks, 2 * i);
      l, r := RoundPair(sb01, sb23, kt, k, l, r, c, ks, 2 * i, c.Rounds(x, ks[..2 * i]));
      k := k + 4;
    }
    assert ks[..16] == ks;
  }

  lemma KeysAt(kt: seq<Word>, ks: seq<Key48>, i: nat)
    requires KeySched(kt, ks) && i < 16
    ensures kt[2 * i] == KeyWord(ks[i][..24]) && kt[2 * i + 1] == KeyWord(ks[i][24..])
  {
  }

  lemma TwoRounds(c: Cipher, x: Halves, ks: seq<Key48>, n: nat)
    requires c.Valid() && n + 2 <= |ks|
    ensures var y := c.Rounds(x, ks[..n]);
            var l := Xor(y.l, F(c.sbox, c.salt, y.r, ks[n]));
            c.Rounds(x, ks[..n + 2]) == Halves(l, Xor(y.r, F(c.sbox, c.salt, l, ks[n + 1])))
  {
    hide F;
    assert ks[..n + 2][..n + 1] == ks[..n + 1];
    assert ks[..n + 1][..n] == ks[..n];
  }

  /** _ufc_doit_r: `itr` runs of the cipher, with the halves exchanged after each.  The engine's state is
      the salted expansion of the textbook state throughout. */
  method Doit(itr: nat, sb01: array<Word>, sb23: array<Word>, kt: array<Word>, res: array<Word>,
              ghost c: Cipher, ghost ks: seq<Key48>, ghost x: Halves)
    requires res.Length == 4 && Tables(sb01[..], sb23[..], c) && KeySched(kt[..], ks) && c.Valid()
    requires res != sb01 && res != sb23 && res != kt
    requires Represents(Pair(res[0], res[1]), Pair(res[2], res[3]), x, c.salt)
    modifies res
    ensures Represents(Pair(res[0], res[1]), Pair(res[2], res[3]), c.Iterate(itr, x, ks), c.salt)
  {
    hide Expanded;
    hide Tables;
    hide KeySched;
    var l, r := Pair(res[0], res[1]), Pair(res[2], res[3]);
    for n := 0 to itr
      invariant Represents(l, r, c.Iterate(n, x, ks), c.salt)
    {
      l, r := SixteenRounds(sb01, sb23, kt, l, r, c, ks, c.Iterate(n, x, ks));
      l, r := r, l;
    }
    res[0], res[1], res[2], res[3] := l.a, l.b, r.a, r.b;
  }
}
