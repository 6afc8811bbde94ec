/** The data layout of UFC-crypt: bit strings kept E-expanded and packed, and what the `sb` tables mean
(crypt/crypt_util.c:199-204 and 485-496). */
module UfcTables {
  import opened Bits
  import opened BitSeq
  import opened DesSpec

  /** The place of packed bit k: the single bit of BITMASK[k]. */
  function BitIndex(k: nat): nat
    requires k < 24
  {
    if k < 12 then k + 1 else k + 5
  }

  /** 24 bits in one word: two runs of 12, each shifted up by three and below a free bit. */
  function Pack24(b: BitStr): (w: Word)
    requires |b| == 24
    ensures forall k :: 0 <= k < 24 ==> w[BitIndex(k)] == b[k]
  {
    seq(32, i requires 0 <= i < 32 => if 1 <= i < 13 then b[i - 1] else if 17 <= i < 29 then b[i - 5] else false)
  }

  datatype Pair = Pair(a: Word, b: Word)

  /** 48 bits in two words. */
  function Pack(e: BitStr): Pair
    requires |e| == 48
  {
    Pair(Pack24(e[..24]), Pack24(e[24..]))
  }

  function Xor2(p: Pair, q: Pair): Pair { Pair(Xor(p.a, q.a), Xor(p.b, q.b)) }

  lemma PackXor(x: BitStr, y: BitStr)
    requires |x| == |y| == 48
    ensures Pack(Xor(x, y)) == Xor2(Pack(x), Pack(y))
  {
  }

  /** One step of shuffle_sb, and of the unsalting in _ufc_dofinalperm_r: exchange the bits under the mask. */
  function Shuffle(p: Pair, m: Word): Pair
  {
    var x := And(Xor(p.a, p.b), m);
    Pair(Xor(p.a, x), Xor(p.b, x))
  }

  lemma ShuffleXor(p: Pair, q: Pair, m: Word)
    ensures Shuffle(Xor2(p, q), m) == Xor2(Shuffle(p, m), Shuffle(q, m))
  {
    var l, r := Shuffle(Xor2(p, q), m), Xor2(Shuffle(p, m), Shuffle(q, m));
    assert l.a == r.a;
    assert l.b == r.b;
  }

  /** Shuffling by one salt and then by another is shuffling by their difference. */
  lemma ShuffleTwice(p: Pair, m: Word, n: Word)
    ensures Shuffle(Shuffle(p, m), n) == Shuffle(p, Xor(m, n))
  {
    var l, r := Shuffle(Shuffle(p, m), n), Shuffle(p, Xor(m, n));
    assert l.a == r.a;
    assert l.b == r.b;
  }

  /** Shuffling the packed expansion is packing the salted expansion. */
  lemma ShufflePack(x: BitStr, salt: BitStr)
    requires |x| == 32 && |salt| == 24
    ensures Shuffle(Pack(E(x)), Pack24(salt)) == Pack(SaltedE(x, salt))
  {
    hide E;
    var a, b := E(x)[..24], E(x)[24..];
    ShuffleMix(a, b, salt);
    assert SaltedE(x, salt)[..24] == Mix(a, b, salt) && SaltedE(x, salt)[24..] == Mix(b, a, salt);
  }

  lemma ShuffleMix(a: BitStr, b: BitStr, salt: BitStr)
    requires |a| == |b| == |salt| == 24
    ensures Shuffle(Pair(Pack24(a), Pack24(b)), Pack24(salt)) == Pair(Pack24(Mix(a, b, salt)), Pack24(Mix(b, a, salt)))
  {
    var p := Shuffle(Pair(Pack24(a), Pack24(b)), Pack24(salt));
    assert p.a == Pack24(Mix(a, b, salt));
    assert p.b == Pack24(Mix(b, a, salt));
  }

  /** A half block the way the engine keeps it. */
  function Expanded(x: BitStr, salt: BitStr): Pair
    requires |x| == 32 && |salt| == 24
  {
    Pack(SaltedE(x, salt))
  }

  lemma ExpandedXor(x: BitStr, y: BitStr, salt: BitStr)
    requires |x| == |y| == 32 && |salt| == 24
    ensures Expanded(Xor(x, y), salt) == Xor2(Expanded(x, salt), Expanded(y, salt))
  {
    EselValid();
    SelectXor(x, y, ESEL);
    PackXor(E(x), E(y));
    ShufflePack(Xor(x, y), salt);
    ShufflePack(x, salt);
    ShufflePack(y, salt);
    ShuffleXor(Pack(E(x)), Pack(E(y)), Pack24(salt));
  }

  /** The outputs of S-boxes 2*sg and 2*sg + 1 for 12 input bits, in byte sg of an otherwise zero word. */
  function Nibbles(sbox: SBoxes, sg: nat, v: BitStr): (w: BitStr)
    requires ValidSBoxes(sbox) && sg < 4 && |v| == 12
    ensures |w| == 32
  {
    seq(32, i requires 0 <= i < 32 =>
      if i / 8 != sg then false
      else if i % 8 < 4 then SBoxOut(sbox, 2 * sg, v[..6])[i % 8]
      else SBoxOut(sbox, 2 * sg + 1, v[6..])[i % 8 - 4])
  }

  /** The four table inputs together make up the S-box layer. */
  lemma NibblesSum(sbox: SBoxes, x: BitStr)
    requires ValidSBoxes(sbox) && |x| == 48
    ensures S(sbox, x) == Xor(Xor(Nibbles(sbox, 0, x[..12]), Nibbles(sbox, 1, x[12..24])),
                              Xor(Nibbles(sbox, 2, x[24..36]), Nibbles(sbox, 3, x[36..])))
  {
    assert x[..12] == x[0..12] && x[36..] == x[36..48];
    forall i | 0 <= i < 32
      ensures S(sbox, x)[i] == Xor(Xor(Nibbles(sbox, 0, x[..12]), Nibbles(sbox, 1, x[12..24])),
                                   Xor(Nibbles(sbox, 2, x[24..36]), Nibbles(sbox, 3, x[36..])))[i]
    {
      NibbleBit(sbox, x, i);
      hide S;
      hide SBoxOut;
      if i < 8 {} else if i < 16 {} else if i < 24 {} else {}
    }
  }

  lemma NibbleBit(sbox: SBoxes, x: BitStr, i: nat)
    requires ValidSBoxes(sbox) && |x| == 48 && i < 32
    ensures S(sbox, x)[i] == Nibbles(sbox, i / 8, x[12 * (i / 8)..12 * (i / 8) + 12])[i]
  {
    hide SBoxOut;
    var g, v := i / 4, x[12 * (i / 8)..12 * (i / 8) + 12];
    assert x[6 * g..6 * g + 6] == if i % 8 < 4 then v[..6] else v[6..];
  }

  /** What entry v of table sg holds before any salt: P and E applied to the S-box outputs. */
  function BaseEntry(sbox: SBoxes, sg: nat, v: BitStr): Pair
    requires ValidSBoxes(sbox) && sg < 4 && |v| == 12
  {
    Pack(E(P32(Nibbles(sbox, sg, v))))
  }

  function SaltedEntry(sbox: SBoxes, sg: nat, v: BitStr, m: Word): Pair
    requires ValidSBoxes(sbox) && sg < 4 && |v| == 12
  {
    Shuffle(BaseEntry(sbox, sg, v), m)
  }

  /** By linearity of P and E, the four entries add up to the expanded value of the cipher function. */
  lemma EntriesSum(sbox: SBoxes, salt: BitStr, x: BitStr)
    requires ValidSBoxes(sbox) && |salt| == 24 && |x| == 48
    ensures Xor2(Xor2(SaltedEntry(sbox, 0, x[..12], Pack24(salt)), SaltedEntry(sbox, 1, x[12..24], Pack24(salt))),
                 Xor2(SaltedEntry(sbox, 2, x[24..36], Pack24(salt)), SaltedEntry(sbox, 3, x[36..], Pack24(salt))))
         == Expanded(P32(S(sbox, x)), salt)
  {
    var n0, n1, n2, n3 := Nibbles(sbox, 0, x[..12]), Nibbles(sbox, 1, x[12..24]), Nibbles(sbox, 2, x[24..36]),
        Nibbles(sbox, 3, x[36..]);
    hide E;
    NibblesSum(sbox, x);
    hide S;
    hide Nibbles;
    Perm32Valid();
    SelectXor(n0, n1, PERM32);
    SelectXor(n2, n3, PERM32);
    SelectXor(Xor(n0, n1), Xor(n2, n3), PERM32);
    assert P32(S(sbox, x)) == Xor(Xor(P32(n0), P32(n1)), Xor(P32(n2), P32(n3)));
    hide P32;
    hide SaltedE;
    ExpandedXor(P32(n0), P32(n1), salt);
    ExpandedXor(P32(n2), P32(n3), salt);
    ExpandedXor(Xor(P32(n0), P32(n1)), Xor(P32(n2), P32(n3)), salt);
    ShufflePack(P32(n0), salt);
    ShufflePack(P32(n1), salt);
    ShufflePack(P32(n2), salt);
    ShufflePack(P32(n3), salt);
  }
}
