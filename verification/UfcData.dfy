/** What the entry points of UFC-crypt work with: the tables built on first use, the swap bits of a salt,
the repair of the sb tables for a new salt, and the loops into and out of the expanded form
(crypt/crypt_util.c:351-838). */
module UfcData {
  import opened Bits
  import opened BitSeq
  import opened DesSpec
  import opened UfcTables
  import opened Ufc
  import opened UfcInit
  import opened UfcKeys
  import opened SelectTable

  // ----- The file-scope tables, built once and shared by all crypt_data objects -----

  ghost predicate KeyTables(pc1: array3<Word>, pc2a: array3<Word>, pc2b: array3<Word>)
    reads pc1, pc2a, pc2b
  {
    Filled(pc1, Pc1Layout(), 56) && Filled(pc2a, Pc2Layout(0), 24) && Filled(pc2b, Pc2Layout(1), 24)
  }

  ghost predicate BlockTables(eperm: array3<Word>, efp: array3<Word>, inv: seq<nat>)
    reads eperm, efp
  {
    && UndoesE(inv) && (forall f :: 0 <= f < 64 ==> inv[f] < 96)
    && Filled(eperm, EpermLayout(), 48) && Filled(efp, EfpLayout(inv), 64)
  }

  /** Lines 384-409. */
  method BuildKeyTables() returns (pc1: array3<Word>, pc2a: array3<Word>, pc2b: array3<Word>)
    ensures fresh(pc1) && fresh(pc2a) && fresh(pc2b) && KeyTables(pc1, pc2a, pc2b)
  {
    hide Filled;
    hide Pc1Layout;
    hide Pc2Layout;
    pc1 := Build(Pc1Layout());
    pc2a := Build(Pc2Layout(0));
    pc2b := Build(Pc2Layout(1));
  }

  /** Lines 423-477. */
  method BuildBlockTables() returns (eperm: array3<Word>, efp: array3<Word>, ghost inv: seq<nat>)
    ensures fresh(eperm) && fresh(efp) && BlockTables(eperm, efp, inv)
  {
    EselValid();
    hide Filled;
    hide UndoesE;
    hide Found;
    hide EpermLayout;
    hide EfpLayout;
    hide EfpAt;
    hide ESEL;
    hide PERM32;
    eperm := Build(EpermLayout());
    var e := EInverse(ESEL);
    InverseComplete(e[..]);
    UndoBound(e[..]);
    inv := e[..];
    efp := Build(EfpLayout(e[..]));
  }

  class SmallTables {
    var initialized: bool
    var pc1: array3<Word>
    var pc2a: array3<Word>
    var pc2b: array3<Word>
    var eperm: array3<Word>
    var efp: array3<Word>
    ghost var inv: seq<nat>

    ghost predicate Valid()
      reads this, pc1, pc2a, pc2b, eperm, efp
    {
      initialized ==> KeyTables(pc1, pc2a, pc2b) && BlockTables(eperm, efp, inv)
    }

    constructor ()
      ensures Valid() && !initialized
    {
      initialized := false;
      pc1, pc2a, pc2b := new Word[0, 0, 0], new Word[0, 0, 0], new Word[0, 0, 0];
      eperm, efp := new Word[0, 0, 0], new Word[0, 0, 0];
    }

    /** Lines 372-483. */
    method Build()
      requires Valid()
      modifies this
      ensures initialized && Valid()
    {
      if initialized { return; }
      hide KeyTables;
      hide BlockTables;
      var a, b, c := BuildKeyTables();
      var d, f, e := BuildBlockTables();
      initialized, pc1, pc2a, pc2b, eperm, efp, inv := true, a, b, c, d, f, e;
    }
  }

  // ----- Salts -----

  /** The macro ascii_to_bin. */
  function AsciiToBin(c: int): (r: int)
    ensures r == c - if c >= 97 then 59 else if c >= 65 then 53 else 46
  {
    if c >= 'a' as int then c - 59 else if c >= 'A' as int then c - 53 else c - '.' as int
  }

  /** Bit j of a C long, also of a negative one. */
  predicate BitOf(c: int, j: nat) { c / Pow2(j) % 2 == 1 }

  /** The 24 swap bits of a two-character salt: six from each character, lowest first. */
  function SaltBits(s0: int, s1: int): (b: BitStr)
    ensures |b| == 24
  {
    seq(24, k requires 0 <= k < 24 => k < 12 && BitOf(AsciiToBin(if k < 6 then s0 else s1), k % 6))
  }

  /** The 64 characters of a salt, in the order of their values. */
  const ALPHABET: string := "./0123456789" + "ABCDEFGHIJKLMNOPQRSTUVWXYZ" + "abcdefghijklmnopqrstuvwxyz"

  /** The character at place n has the value n. */
  lemma AlphabetValue(n: nat)
    requires n < 64
    ensures |ALPHABET| == 64 && AsciiToBin(ALPHABET[n] as int) == n
  {
    AlphabetAt(n);
    hide ALPHABET;
  }

  lemma AlphabetAt(n: nat)
    requires n < 64
    ensures |ALPHABET| == 64
    ensures ALPHABET[n] as int == if n < 12 then '.' as int + n else if n < 38 then 'A' as int + (n - 12)
        else 'a' as int + (n - 38)
  {
    if n < 12 {
      LowCharacters(n);
    } else if n < 38 {
      CapitalLetters(n - 12);
    } else {
      SmallLetters(n - 38);
    }
  }

  lemma LowCharacters(n: nat)
    requires n < 12
    ensures "./0123456789"[n] as int == '.' as int + n
  {
  }

  lemma CapitalLetters(n: nat)
    requires n < 26
    ensures "ABCDEFGHIJKLMNOPQRSTUVWXYZ"[n] as int == 'A' as int + n
  {
  }

  lemma SmallLetters(n: nat)
    requires n < 26
    ensures "abcdefghijklmnopqrstuvwxyz"[n] as int == 'a' as int + n
  {
  }

  /** Swap bit 6i + j of a salt over this alphabet is bit j of the place of its character i; the others are free. */
  lemma SaltBitIs(n0: nat, n1: nat, k: nat)
    requires n0 < 64 && n1 < 64 && k < 24
    ensures |ALPHABET| == 64
    ensures SaltBits(ALPHABET[n0] as int, ALPHABET[n1] as int)[k]
         == if k < 6 then n0 / Pow2(k) % 2 == 1 else if k < 12 then n1 / Pow2(k - 6) % 2 == 1 else false
  {
    AlphabetValue(n0);
    AlphabetValue(n1);
    hide *;
    SaltBitOf(ALPHABET[n0] as int, ALPHABET[n1] as int, k);
    if k < 6 { BitIs(n0, k); } else if k < 12 { BitIs(n1, k - 6); }
  }

  lemma SaltBitOf(s0: int, s1: int, k: nat)
    requires k < 24
    ensures SaltBits(s0, s1)[k]
         == if k < 6 then BitOf(AsciiToBin(s0), k) else if k < 12 then BitOf(AsciiToBin(s1), k - 6) else false
  {
    hide BitOf;
    hide AsciiToBin;
  }

  lemma BitIs(n: int, j: nat)
    ensures BitOf(n, j) == (n / Pow2(j) % 2 == 1)
  {
  }

  lemma SixBinaryDigits(m: nat, n: nat)
    requires m < 64 && n < 64 && forall j :: 0 <= j < 6 ==> m / Pow2(j) % 2 == n / Pow2(j) % 2
    ensures m == n
  {
    assert Pow2(0) == 1 && Pow2(1) == 2 && Pow2(2) == 4 && Pow2(3) == 8 && Pow2(4) == 16 && Pow2(5) == 32;
    assert m / Pow2(0) % 2 == n / Pow2(0) % 2 && m / Pow2(1) % 2 == n / Pow2(1) % 2;
    assert m / Pow2(2) % 2 == n / Pow2(2) % 2 && m / Pow2(3) % 2 == n / Pow2(3) % 2;
    assert m / Pow2(4) % 2 == n / Pow2(4) % 2 && m / Pow2(5) % 2 == n / Pow2(5) % 2;
    hide Pow2;
    SixDigits(m, n);
  }

  lemma SixDigits(m: nat, n: nat)
    requires m < 64 && n < 64 && m % 2 == n % 2 && m / 2 % 2 == n / 2 % 2 && m / 4 % 2 == n / 4 % 2
    requires m / 8 % 2 == n / 8 % 2 && m / 16 % 2 == n / 16 % 2 && m / 32 % 2 == n / 32 % 2
    ensures m == n
  {
    SixParts(m);
    SixParts(n);
  }

  lemma SixParts(m: nat)
    requires m < 64
    ensures m == 32 * (m / 32 % 2) + 16 * (m / 16 % 2) + 8 * (m / 8 % 2) + 4 * (m / 4 % 2) + 2 * (m / 2 % 2) + m % 2
  {
    var a := m / 2;
    var b := a / 2;
    var c := b / 2;
    assert m / 4 == b && m / 8 == c && m / 16 == c / 2 && m / 32 == c / 4;
  }

  /** Different salts over the alphabet swap different bits. */
  lemma SaltsDiffer(m0: nat, m1: nat, n0: nat, n1: nat)
    requires m0 < 64 && m1 < 64 && n0 < 64 && n1 < 64
    ensures |ALPHABET| == 64
    ensures SaltBits(ALPHABET[m0] as int, ALPHABET[m1] as int) == SaltBits(ALPHABET[n0] as int, ALPHABET[n1] as int)
       <==> m0 == n0 && m1 == n1
  {
    SaltBitIs(m0, m1, 0);
    hide ALPHABET;
    hide SaltBits;
    var x, y := SaltBits(ALPHABET[m0] as int, ALPHABET[m1] as int), SaltBits(ALPHABET[n0] as int, ALPHABET[n1] as int);
    if x == y {
      forall j | 0 <= j < 6
        ensures m0 / Pow2(j) % 2 == n0 / Pow2(j) % 2 && m1 / Pow2(j) % 2 == n1 / Pow2(j) % 2
      {
        SaltBitIs(m0, m1, j);
        SaltBitIs(n0, n1, j);
        SaltBitIs(m0, m1, 6 + j);
        SaltBitIs(n0, n1, 6 + j);
      }
      SixBinaryDigits(m0, n0);
      SixBinaryDigits(m1, n1);
    }
  }

  /** The salt ".." swaps nothing. */
  lemma DotsSwapNothing()
    ensures SaltBits('.' as int, '.' as int) == Zeros(24) && Pack24(Zeros(24)) == Zeros(32)
  {
  }

  /** Two null characters would swap bits. */
  lemma NullsSwap()
    ensures SaltBits(0, 0) != Zeros(24)
  {
    assert Pow2(1) == 2;
    assert BitOf(-46, 1);
    assert SaltBits(0, 0)[1];
  }

  lemma PackNothing(b: BitStr)
    requires |b| == 24
    ensures Pack24(b) == Zeros(32) <==> b == Zeros(24)
  {
    if Pack24(b) == Zeros(32) {
      forall k | 0 <= k < 24
        ensures !b[k]
      {
        assert Pack24(b)[BitIndex(k)] == b[k];
      }
    }
  }

  /** The swap bits in force after a salt was set: those of the salt, except that the salt of two nulls is
      passed over as long as no other was set. */
  function SaltInForce(blank: bool, s0: int, s1: int): (b: BitStr)
    ensures |b| == 24
    ensures b == SaltBits(s0, s1) <==> !(blank && s0 == 0 && s1 == 0)
    ensures blank && s0 == 0 && s1 == 0 ==> b == Zeros(24)
  {
    NullsSwap();
    if blank && s0 == 0 && s1 == 0 then Zeros(24) else SaltBits(s0, s1)
  }

  /** The first n bits of b are in place in the mask, and nothing else is set. */
  ghost predicate MaskUpTo(m: Word, b: BitStr, n: nat)
    requires |b| == 24
  {
    && (forall k :: 0 <= k < 24 ==> m[BitIndex(k)] == (k < n && b[k]))
    && (forall i :: 0 <= i < 32 && i !in Places24() ==> !m[i])
  }

  lemma MaskGrows(m: Word, b: BitStr, n: nat)
    requires n < |b| == 24 && MaskUpTo(m, b, n)
    ensures MaskUpTo(if b[n] then m[BitIndex(n) := true] else m, b, n + 1)
  {
    assert Places24()[n] == BitIndex(n);
  }

  /** Lines 611-618. */
  method SaltMask(s0: int, s1: int) returns (m: Word)
    ensures m == Pack24(SaltBits(s0, s1))
  {
    hide BitOf;
    hide AsciiToBin;
    m := Zeros(32);
    ghost var b := SaltBits(s0, s1);
    assert MaskUpTo(m, b, 0);
    hide MaskUpTo;
    SaltTail(s0, s1);
    hide SaltBits;
    hide BitIndex;
    for i := 0 to 2
      invariant MaskUpTo(m, b, 6 * i)
    {
      var c := AsciiToBin(if i == 0 then s0 else s1);
      for j := 0 to 6
        invariant MaskUpTo(m, b, 6 * i + j)
      {
        MaskGrows(m, b, 6 * i + j);
        SaltBitAt(s0, s1, i, j);
        if BitOf(c, j) {
          m := m[BitIndex(6 * i + j) := true];
        }
      }
    }
    MaskComplete(m, b);
  }

  lemma SaltBitAt(s0: int, s1: int, i: nat, j: nat)
    requires i < 2 && j < 6
    ensures SaltBits(s0, s1)[6 * i + j] == BitOf(AsciiToBin(if i == 0 then s0 else s1), j)
  {
  }

  lemma SaltTail(s0: int, s1: int)
    ensures forall k :: 12 <= k < 24 ==> !SaltBits(s0, s1)[k]
  {
  }

  lemma MaskComplete(m: Word, b: BitStr)
    requires |b| == 24 && MaskUpTo(m, b, 12) && forall k :: 12 <= k < 24 ==> !b[k]
    ensures m == Pack24(b)
  {
    PackedUnique(m, b);
  }

  // ----- Shuffling a table -----

  /** shuffle_sb, lines 561-571. */
  method ShuffleSb(tab: array<Word>, base: nat, m: Word)
    requires base + 8192 <= tab.Length
    modifies tab
    ensures forall n :: 0 <= n < 4096 ==> EntryAt(tab[..], base, n) == Shuffle(old(EntryAt(tab[..], base, n)), m)
    ensures forall i :: 0 <= i < tab.Length && !(base <= i < base + 8192) ==> tab[i] == old(tab[i])
  {
    hide Shuffle;
    for n := 0 to 4096
      invariant forall k :: 0 <= k < n ==> EntryAt(tab[..], base, k) == Shuffle(old(EntryAt(tab[..], base, k)), m)
      invariant forall i :: 0 <= i < tab.Length && !(base <= i < base + 2 * n) ==> tab[i] == old(tab[i])
    {
      var p := Shuffle(Pair(tab[base + 2 * n], tab[base + 2 * n + 1]), m);
      tab[base + 2 * n], tab[base + 2 * n + 1] := p.a, p.b;
    }
  }

  /** The tables then serve the difference of the masks. */
  lemma Reshuffled(tab: seq<Word>, tab': seq<Word>, base: nat, sbox: SBoxes, sg: nat, m: Word, d: Word)
    requires ValidSBoxes(sbox) && sg < 4 && SbTable(tab, base, sbox, sg, m) && |tab'| == |tab|
    requires forall n :: 0 <= n < 4096 ==> EntryAt(tab', base, n) == Shuffle(EntryAt(tab, base, n), d)
    ensures SbTable(tab', base, sbox, sg, Xor(m, d))
  {
    hide ValidSBoxes;
    hide Index12;
    hide BaseEntry;
    forall v: BitStr | |v| == 12
      ensures EntryAt(tab', base, Index12(v)) == SaltedEntry(sbox, sg, v, Xor(m, d))
    {
      EntryFound(tab, base, sbox, sg, m, v);
      ShuffleTwice(BaseEntry(sbox, sg, v), m, d);
    }
  }

  lemma Untouched(tab: seq<Word>, tab': seq<Word>, base: nat, sbox: SBoxes, sg: nat, m: Word)
    requires ValidSBoxes(sbox) && sg < 4 && SbTable(tab, base, sbox, sg, m) && |tab'| == |tab|
    requires tab'[base..base + 8192] == tab[base..base + 8192]
    ensures SbTable(tab', base, sbox, sg, m)
  {
    hide ValidSBoxes;
    hide Index12;
    hide SaltedEntry;
    forall v: BitStr | |v| == 12
      ensures EntryAt(tab', base, Index12(v)) == SaltedEntry(sbox, sg, v, m)
    {
      EntryFound(tab, base, sbox, sg, m, v);
      var n := Index12(v);
      assert tab'[base..base + 8192][2 * n] == tab[base..base + 8192][2 * n];
      assert tab'[base..base + 8192][2 * n + 1] == tab[base..base + 8192][2 * n + 1];
    }
  }

  /** Both tables of a pair. */
  method ShufflePair(tab: array<Word>, d: Word, ghost sbox: SBoxes, ghost sg: nat, ghost m: Word)
    requires ValidSBoxes(sbox) && sg < 3 && SbPair(tab[..], sbox, sg, m)
    modifies tab
    ensures SbPair(tab[..], sbox, sg, Xor(m, d))
  {
    hide SbTable;
    hide Shuffle;
    hide ValidSBoxes;
    ghost var t0 := tab[..];
    ShuffleSb(tab, 0, d);
    ghost var t1 := tab[..];
    Reshuffled(t0, t1, 0, sbox, sg, m, d);
    assert t1[8192..8192 + 8192] == t0[8192..8192 + 8192];
    Untouched(t0, t1, 8192, sbox, sg + 1, m);
    ShuffleSb(tab, 8192, d);
    ghost var t2 := tab[..];
    Reshuffled(t1, t2, 8192, sbox, sg + 1, m, d);
    assert t2[0..0 + 8192] == t1[0..0 + 8192];
    Untouched(t1, t2, 0, sbox, sg, Xor(m, d));
  }

  /** Lines 485-544: both tables of a pair, unsalted. */
  method FillPair(tab: array<Word>, sbox: SBoxes, sg: nat, eperm: array3<Word>)
    requires ValidSBoxes(sbox) && sg < 3 && tab.Length == 16384 && Filled(eperm, EpermLayout(), 48)
    modifies tab
    ensures SbPair(tab[..], sbox, sg, Zeros(32))
  {
    hide SbTable;
    hide ValidSBoxes;
    FillSb(tab, 0, sbox, sg, eperm);
    ghost var t1 := tab[..];
    FillSb(tab, 8192, sbox, sg + 1, eperm);
    ghost var t2 := tab[..];
    assert t2[0..0 + 8192] == t1[0..0 + 8192];
    Untouched(t1, t2, 0, sbox, sg, Zeros(32));
  }

  // ----- Entering and leaving the expanded form -----

  /** One half of the permuted input. */
  function HalfOf(b: Block, right: bool): Half
  {
    if right then EnterHalves(b).r else EnterHalves(b).l
  }

  function PartOf(e: BitStr, second: bool): (p: BitStr)
    requires |e| == 48
    ensures |p| == 24
  {
    if second then e[24..] else e[..24]
  }

  /** One of the loops at lines 820-838: 24 bits of the expansion of one half of the permuted block. */
  method InitialExpand(block: array<bool>, right: bool, second: bool) returns (w: Word)
    requires block.Length == 64
    ensures w == Pack24(PartOf(E(HalfOf(block[..], right)), second))
  {
    ghost var b := PartOf(E(HalfOf(block[..], right)), second);
    w := Zeros(32);
    assert MaskUpTo(w, b, 0);
    hide *;
    for i := 0 to 24
      invariant MaskUpTo(w, b, i)
    {
      MaskGrows(w, b, i);
      InputBit(block[..], right, second, i);
      if block[InputAt(right, second, i)] {
        w := w[BitIndex(i) := true];
      }
    }
    MaskAll(w, b);
  }

  /** The input bit that goes to place i of a part. */
  function InputAt(right: bool, second: bool, i: nat): (n: nat)
    requires i < 24
    ensures n < 64
  {
    InitialPermValid();
    EselValid();
    hide INITIAL_PERM;
    hide ESEL;
    INITIAL_PERM[ESEL[(if second then 24 else 0) + i] - 1 + (if right then 32 else 0)] - 1
  }

  lemma InputBit(b: Block, right: bool, second: bool, i: nat)
    requires i < 24
    ensures PartOf(E(HalfOf(b, right)), second)[i] == b[InputAt(right, second, i)]
  {
    InitialPermValid();
    EselValid();
    hide INITIAL_PERM;
    hide ESEL;
  }

  lemma MaskAll(m: Word, b: BitStr)
    requires |b| == 24 && MaskUpTo(m, b, 24)
    ensures m == Pack24(b)
  {
    PackedUnique(m, b);
  }

  lemma ShrTwice(w: Word, m: nat, n: nat)
    requires m + n <= 32
    ensures Shr(Shr(w, m), n) == Shr(w, m + n)
  {
  }

  /** The four runs of six bits in a packed word. */
  lemma PackedFields(w: Word, b: BitStr)
    requires |b| == 24 && w == Pack24(b)
    ensures Field(w, 3, 6) == ToNat(b[18..24]) && Field(w, 9, 6) == ToNat(b[12..18])
    ensures Field(w, 19, 6) == ToNat(b[6..12]) && Field(w, 25, 6) == ToNat(b[0..6])
  {
    FieldIs(w, 3, 6);
    FieldIs(w, 9, 6);
    FieldIs(w, 19, 6);
    FieldIs(w, 25, 6);
    assert w[23..29] == b[18..24] && w[17..23] == b[12..18] && w[7..13] == b[6..12] && w[1..7] == b[0..6];
  }

  /** Both output words hold what the groups from g up contribute. */
  ghost predicate GatheredFrom(v1: Word, v2: Word, t: Layout, x: BitStr, g: int)
    requires t.Valid() && t.w == 6 && t.groups == 16 && t.halves == 2 && |x| == 96
  {
    Gathered(v1, t, x, 0, g, 16) && Gathered(v2, t, x, 1, g, 16)
  }

  method LookUpBoth(efp: array3<Word>, ghost t: Layout, a: Word, b: Word, g: nat, j: nat, ghost x: BitStr)
    returns (v1: Word, v2: Word)
    requires t.Valid() && t.w == 6 && t.groups == 16 && t.halves == 2 && Filled(efp, t, |t.from|) && g < 16 && |x| == 96
    requires GatheredFrom(a, b, t, x, g + 1) && j == GroupIndex(x, 6, g)
    ensures GatheredFrom(v1, v2, t, x, g)
  {
    hide Gathered;
    hide Filled;
    hide GroupIndex;
    hide t.Valid;
    v1 := LookUp(efp, t, a, 0, g, j, x, g + 1, 16);
    v2 := LookUp(efp, t, b, 1, g, j, x, g + 1, 16);
  }

  /** Four lines of _ufc_dofinalperm_r: groups g + 3 down to g, taken from one packed word. */
  method FinalLookups(efp: array3<Word>, ghost t: Layout, u: Word, a: Word, b: Word, g: nat, ghost x: BitStr)
    returns (v1: Word, v2: Word)
    requires t.Valid() && t.w == 6 && t.groups == 16 && t.halves == 2 && Filled(efp, t, |t.from|) && g + 4 <= 16
    requires |x| == 96
    requires GatheredFrom(a, b, t, x, g + 4) && u == Pack24(x[6 * g..6 * g + 24])
    ensures GatheredFrom(v1, v2, t, x, g)
  {
    FinalIndices(u, x, g);
    hide *;
    var w := Shr(u, 3);
    v1, v2 := LookUpBoth(efp, t, a, b, g + 3, Field(w, 0, 6), x);
    w := Shr(w, 6);
    v1, v2 := LookUpBoth(efp, t, v1, v2, g + 2, Field(w, 0, 6), x);
    w := Shr(w, 10);
    v1, v2 := LookUpBoth(efp, t, v1, v2, g + 1, Field(w, 0, 6), x);
    w := Shr(w, 6);
    v1, v2 := LookUpBoth(efp, t, v1, v2, g, Field(w, 0, 6), x);
  }

  lemma FinalIndices(u: Word, x: BitStr, g: nat)
    requires g + 4 <= 16 && |x| == 96 && u == Pack24(x[6 * g..6 * g + 24])
    ensures Field(Shr(u, 3), 0, 6) == GroupIndex(x, 6, g + 3)
    ensures Field(Shr(Shr(u, 3), 6), 0, 6) == GroupIndex(x, 6, g + 2)
    ensures Field(Shr(Shr(Shr(u, 3), 6), 10), 0, 6) == GroupIndex(x, 6, g + 1)
    ensures Field(Shr(Shr(Shr(Shr(u, 3), 6), 10), 6), 0, 6) == GroupIndex(x, 6, g)
  {
    PackedFields(u, x[6 * g..6 * g + 24]);
    ShiftedField(Shr(u, 3), u, 3);
    ShrTwice(u, 3, 6);
    ShiftedField(Shr(u, 9), u, 9);
    ShrTwice(u, 9, 10);
    ShiftedField(Shr(u, 19), u, 19);
    ShrTwice(u, 19, 6);
    ShiftedField(Shr(u, 25), u, 25);
    hide *;
    RunIsGroup(x, 6 * g, 18, g + 3);
    RunIsGroup(x, 6 * g, 12, g + 2);
    RunIsGroup(x, 6 * g, 6, g + 1);
    RunIsGroup(x, 6 * g, 0, g);
  }

  lemma ShiftedField(w: Word, u: Word, n: nat)
    requires n + 6 <= 32 && w == Shr(u, n)
    ensures Field(w, 0, 6) == Field(u, n, 6)
  {
    ShrTwice(u, n, 0);
  }

  lemma RunIsGroup(x: BitStr, at: nat, n: nat, g: nat)
    requires n <= 18 && at + 24 <= |x| && at + n == 6 * g && (g + 1) * 6 <= |x|
    ensures ToNat(x[at..at + 24][n..n + 6]) == GroupIndex(x, 6, g)
  {
    var run, group := x[at..at + 24][n..n + 6], x[g * 6..g * 6 + 6];
    forall k | 0 <= k < 6
      ensures run[k] == group[k]
    {
      assert x[at..at + 24][n + k] == x[at + (n + k)];
    }
    assert run == group;
  }

  /** Exchanging the salted bits once more removes the salt. */
  lemma Unsalted(h: Half, salt: BitStr)
    requires |salt| == 24
    ensures Shuffle(Expanded(h, salt), Pack24(salt)) == Pack(E(h))
  {
    var m := Pack24(salt);
    ShufflePack(h, salt);
    ShuffleTwice(Pack(E(h)), m, m);
    assert Xor(m, m) == Zeros(32);
    ShuffleByZero(Pack(E(h)));
  }

  lemma ExpansionParts(l: Half, r: Half)
    ensures Pack(E(l)) == Pair(Pack24((E(l) + E(r))[0..24]), Pack24((E(l) + E(r))[24..48]))
    ensures Pack(E(r)) == Pair(Pack24((E(l) + E(r))[48..72]), Pack24((E(l) + E(r))[72..96]))
  {
    hide E;
    var x := E(l) + E(r);
    assert x[0..24] == E(l)[..24] && x[24..48] == E(l)[24..] && x[48..72] == E(r)[..24] && x[72..96] == E(r)[24..];
  }

  function Joined(a: BitStr, b: BitStr): BitStr { a + b }

  /** Lines 710-730: all sixteen groups, the last first. */
  method FinalPermWords(efp: array3<Word>, l: Pair, r: Pair, ghost t: Layout, ghost x: BitStr)
    returns (v1: Word, v2: Word)
    requires t.Valid() && t.w == 6 && t.groups == 16 && t.halves == 2 && Filled(efp, t, |t.from|) && |x| == 96
    requires l == Pair(Pack24(x[0..24]), Pack24(x[24..48])) && r == Pair(Pack24(x[48..72]), Pack24(x[72..96]))
    ensures GatheredFrom(v1, v2, t, x, 0)
  {
    NothingGathered(t, x, 0, 16);
    NothingGathered(t, x, 1, 16);
    hide *;
    v1, v2 := FinalLookups(efp, t, r.b, Zeros(32), Zeros(32), 12, x);
    v1, v2 := FinalLookups(efp, t, r.a, v1, v2, 8, x);
    v1, v2 := FinalLookups(efp, t, l.b, v1, v2, 4, x);
    v1, v2 := FinalLookups(efp, t, l.a, v1, v2, 0, x);
  }

  lemma FinalWords(v1: Word, v2: Word, inv: seq<nat>, h: Halves)
    requires UndoesE(inv) && (forall f :: 0 <= f < 64 ==> inv[f] < 96)
    requires GatheredFrom(v1, v2, EfpLayout(inv), E(h.l) + E(h.r), 0)
    ensures |FINAL_PERM| == 64 && ValidTable(FINAL_PERM, 64) && Joined(v1, v2) == Select(h.l + h.r, FINAL_PERM)
  {
    hide Gathered;
    hide Selected;
    AllGathered(v1, EfpLayout(inv), E(h.l) + E(h.r), 0);
    AllGathered(v2, EfpLayout(inv), E(h.l) + E(h.r), 1);
    EfpSelects(v1, inv, h.l, h.r, 0);
    EfpSelects(v2, inv, h.l, h.r, 1);
    hide FINAL_PERM;
  }

  /** _ufc_dofinalperm_r, lines 698-733. */
  method DoFinalPerm(efp: array3<Word>, res: array<Word>, saltbits: Word, ghost inv: seq<nat>, ghost x: Halves,
                     ghost salt: BitStr)
    requires UndoesE(inv) && (forall f :: 0 <= f < 64 ==> inv[f] < 96) && Filled(efp, EfpLayout(inv), 64)
    requires res.Length == 4 && |salt| == 24 && saltbits == Pack24(salt)
    requires Represents(Pair(res[0], res[1]), Pair(res[2], res[3]), x, salt)
    modifies res
    ensures |FINAL_PERM| == 64 && ValidTable(FINAL_PERM, 64)
    ensures Joined(res[0], res[1]) == Select(x.l + x.r, FINAL_PERM)
  {
    Unsalted(x.l, salt);
    Unsalted(x.r, salt);
    var l, r := Shuffle(Pair(res[0], res[1]), saltbits), Shuffle(Pair(res[2], res[3]), saltbits);
    ExpansionParts(x.l, x.r);
    hide *;
    var v1, v2 := FinalPermWords(efp, l, r, EfpLayout(inv), E(x.l) + E(x.r));
    FinalWords(v1, v2, inv, x);
    res[0], res[1] := v1, v2;
  }
}
