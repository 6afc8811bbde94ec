/** crypt_data and its entry points, crypt/crypt_util.c:351-892 and the core of crypt/crypt-entry.c:71-103. */
module UfcState {
  import opened Bits
  import opened BitSeq
  import opened DesSpec
  import opened UfcTables
  import opened Ufc
  import opened UfcInit
  import opened UfcKeys
  import opened UfcData
  import opened UfcSalt
  import opened SelectTable

  lemma XorDifference(m: Word, n: Word)
    ensures Xor(m, Xor(m, n)) == n
  {
  }

  /** What all the entry points may rely on: the tables are those of the current salt. */
  ghost predicate TablesFor(sb01: seq<Word>, sb23: seq<Word>, sbox: SBoxes, m: Word)
  {
    ValidSBoxes(sbox) && SbPair(sb01, sbox, 0, m) && SbPair(sb23, sbox, 2, m)
  }

  /** A recorded salt of two nulls is either in force or blank. */
  lemma NullsRecorded(s0: int, s1: int)
    ensures Pack24(Zeros(24)) == Zeros(32) && Pack24(SaltBits(0, 0)) != Zeros(32)
    ensures forall blank :: SaltInForce(blank, s0, s1) == if blank && s0 == 0 && s1 == 0 then Zeros(24)
        else SaltBits(s0, s1)
  {
    DotsSwapNothing();
    NullsSwap();
    PackNothing(SaltBits(0, 0));
  }

  /** Lines 632-635. */
  method ShuffleAll(sb01: array<Word>, sb23: array<Word>, d: Word, ghost sbox: SBoxes, ghost m: Word)
    requires sb01 != sb23 && TablesFor(sb01[..], sb23[..], sbox, m)
    modifies sb01, sb23
    ensures TablesFor(sb01[..], sb23[..], sbox, Xor(m, d))
  {
    hide SbPair;
    hide ValidSBoxes;
    ShufflePair(sb01, d, sbox, 0, m);
    ShufflePair(sb23, d, sbox, 2, m);
  }

  /** Tables without a salt serve a mask exactly if it changes nothing. */
  lemma {:induction false} TablesSame(sb01: seq<Word>, sb23: seq<Word>, sbox: SBoxes, m: Word)
    requires TablesFor(sb01, sb23, sbox, Zeros(32))
    ensures TablesFor(sb01, sb23, sbox, m) <==> SameTables(sbox, m)
  {
    hide ValidSBoxes;
    hide SaltedEntry;
    hide EntryAt;
    hide Index12;
    if TablesFor(sb01, sb23, sbox, m) {
      forall sg: nat, v: BitStr | sg < 4 && |v| == 12
        ensures SaltedEntry(sbox, sg, v, m) == SaltedEntry(sbox, sg, v, Zeros(32))
      {
        var tab := if sg < 2 then sb01 else sb23;
        EntryFound(tab, 8192 * (sg % 2), sbox, sg, m, v);
        EntryFound(tab, 8192 * (sg % 2), sbox, sg, Zeros(32), v);
      }
    }
  }

  class CryptData {
    const sbox: SBoxes
    const keysched: array<Word>
    const sb01: array<Word>
    const sb23: array<Word>
    var initialized: nat
    var salt0: int
    var salt1: int
    var saltbits: Word
    var direction: int

    /** The recorded salt and the swap bits agree.  Zeroed data is the one exception: it records two null
        characters with no bits to swap, though as a salt they would swap some. */
    ghost predicate SaltState()
      reads this`salt0, this`salt1, this`saltbits
    {
      saltbits == Pack24(SaltBits(salt0, salt1)) || Blank()
    }

    /** No salt was set but, perhaps, that of two nulls. */
    predicate Blank()
      reads this`salt0, this`salt1, this`saltbits
    {
      salt0 == 0 && salt1 == 0 && saltbits == Zeros(32)
    }

    ghost predicate Valid()
      reads this, sb01, sb23
    {
      && ValidSBoxes(sbox) && keysched.Length == 32 && sb01.Length == 16384 && sb23.Length == 16384
      && sb01 != sb23 && keysched != sb01 && keysched != sb23
      && SaltState()
      && (initialized == 0 ==> saltbits == Zeros(32))
      && (initialized > 0 ==> TablesFor(sb01[..], sb23[..], sbox, saltbits))
    }

    /** The key schedule is `ks`, forwards when direction is 0 and backwards otherwise. */
    ghost predicate Keyed(ks: seq<Key48>)
      reads this`direction, keysched
    {
      KeySched(keysched[..], if direction == 0 then ks else Reverse(ks))
    }

    /** Zeroed data. */
    constructor (sbox: SBoxes)
      requires ValidSBoxes(sbox)
      ensures Valid() && Blank() && initialized == 0 && this.sbox == sbox
      ensures fresh(keysched) && fresh(sb01) && fresh(sb23)
    {
      this.sbox := sbox;
      keysched := new Word[32];
      sb01, sb23 := new Word[16384], new Word[16384];
      initialized, salt0, salt1, saltbits, direction := 0, 0, 0, Zeros(32), 0;
    }

    /** __init_des_r: the tables are those of an unsalted cipher, the recorded salt is left alone.  The two
        still agree exactly if the recorded swap bits change no table; with S-boxes that take every value,
        exactly if there are none. */
    method InitDes(small: SmallTables)
      requires small.Valid() && ValidSBoxes(sbox) && sb01.Length == 16384 && sb23.Length == 16384 && sb01 != sb23
      modifies small, sb01, sb23, this`initialized
      ensures small.Valid() && small.initialized && initialized == old(initialized) + 1
      ensures TablesFor(sb01[..], sb23[..], sbox, Zeros(32))
      ensures old(Valid()) ==> (Valid() <==> SameTables(sbox, saltbits))
      ensures old(Valid()) && Onto(sbox) ==> (Valid() <==> saltbits == Zeros(32))
      ensures old(Valid()) && saltbits == Zeros(32) ==> Valid()
    {
      hide TablesFor;
      hide ValidSBoxes;
      hide KeyTables;
      hide BlockTables;
      hide SameTables;
      hide Onto;
      hide SaltState;
      hide Blank;
      FillAll(small);
      initialized := initialized + 1;
      TablesSame(sb01[..], sb23[..], sbox, saltbits);
      TablesSame(sb01[..], sb23[..], sbox, Zeros(32));
      if SaltState() && Onto(sbox) { SameRecorded(); }
    }

    /** What InitDes does to the tables. */
    method FillAll(small: SmallTables)
      requires small.Valid() && ValidSBoxes(sbox) && sb01.Length == 16384 && sb23.Length == 16384 && sb01 != sb23
      modifies small, sb01, sb23
      ensures small.Valid() && small.initialized
      ensures TablesFor(sb01[..], sb23[..], sbox, Zeros(32))
    {
      small.Build();
      hide SbPair;
      FillPair(sb01, sbox, 0, small.eperm);
      FillPair(sb23, sbox, 2, small.eperm);
    }

    lemma SameRecorded()
      requires ValidSBoxes(sbox) && SaltState() && Onto(sbox)
      ensures SameTables(sbox, saltbits) <==> saltbits == Zeros(32)
    {
      var b := if Blank() then Zeros(24) else SaltBits(salt0, salt1);
      DotsSwapNothing();
      PackNothing(b);
      SameExactly(sbox, b);
    }

    /** _ufc_setup_salt_r: the swap bits become those of the salt, and the tables follow.  The one exception
        is the salt of two nulls on data that has seen no other: it counts as already set. */
    method SetupSalt(small: SmallTables, s0: int, s1: int)
      requires Valid() && small.Valid() && (initialized > 0 ==> small.initialized)
      modifies this, small, sb01, sb23
      ensures Valid() && small.Valid() && small.initialized && initialized > 0
      ensures salt0 == s0 && salt1 == s1 && saltbits == Pack24(SaltInForce(old(Blank()), s0, s1))
      ensures saltbits == Pack24(SaltBits(s0, s1)) <==> !(s0 == 0 && s1 == 0 && old(Blank()))
      ensures Blank() <==> s0 == 0 && s1 == 0 && old(Blank())
      ensures direction == old(direction) && keysched[..] == old(keysched[..])
    {
      NullsRecorded(s0, s1);
      hide SaltInForce;
      hide TablesFor;
      hide SaltBits;
      hide Pack24;
      hide ValidSBoxes;
      if initialized == 0 {
        InitDes(small);
      }
      if s0 != salt0 || s1 != salt1 {
        NewSalt(s0, s1);
      }
    }

    /** Lines 604-637. */
    method NewSalt(s0: int, s1: int)
      requires Valid() && initialized > 0
      modifies this`salt0, this`salt1, this`saltbits, sb01, sb23
      ensures Valid() && salt0 == s0 && salt1 == s1 && saltbits == Pack24(SaltBits(s0, s1))
    {
      hide TablesFor;
      hide SaltBits;
      hide Pack24;
      hide ValidSBoxes;
      salt0, salt1 := s0, s1;
      var bits := SaltMask(s0, s1);
      XorDifference(saltbits, bits);
      ShuffleAll(sb01, sb23, Xor(saltbits, bits), sbox, saltbits);
      saltbits := bits;
    }

    /** _ufc_mk_keytab_r. */
    method MkKeytab(small: SmallTables, ktab: seq<int>, ghost key: BitStr)
      requires Valid() && small.Valid() && small.initialized && KeyBytes(ktab, key)
      modifies keysched, this`direction
      ensures Valid() && Keyed(Schedule(key)) && direction == 0
    {
      hide TablesFor;
      hide SaltState;
      hide KeySched;
      hide Schedule;
      UfcKeys.MkKeytab(small.pc1, small.pc2a, small.pc2b, ktab, keysched, key);
      direction := 0;
    }

    /** setkey_r: from then on the data holds the key schedule of the given 64 bits. */
    method SetKey(small: SmallTables, key: seq<bool>)
      requires Valid() && small.Valid() && (initialized > 0 ==> small.initialized) && |key| == 64
      modifies this, small, sb01, sb23, keysched
      ensures Valid() && small.Valid() && small.initialized && initialized > 0
      ensures Keyed(Schedule(key)) && direction == 0 && saltbits == Zeros(32) && !Blank()
    {
      hide TablesFor;
      hide Keyed;
      hide Schedule;
      hide ValidSBoxes;
      hide SaltBits;
      hide Pack24;
      hide KeyTables;
      hide BlockTables;
      SetupDots(small);
      var ktab := PackKey(key);
      MkKeytab(small, ktab, key);
    }

    /** The salt "..", which the bit-block calls set first: the cipher is then plain DES. */
    method SetupDots(small: SmallTables)
      requires Valid() && small.Valid() && (initialized > 0 ==> small.initialized)
      modifies this, small, sb01, sb23
      ensures Valid() && small.Valid() && small.initialized && initialized > 0 && saltbits == Zeros(32) && !Blank()
      ensures direction == old(direction) && keysched[..] == old(keysched[..])
    {
      hide TablesFor;
      DotsSwapNothing();
      NullsRecorded('.' as int, '.' as int);
      SetupSalt(small, '.' as int, '.' as int);
    }

    /** Lines 791-815: the key schedule is turned round when the direction changes. */
    method Turn(edflag: int, ghost ks: seq<Key48>)
      requires Valid() && Keyed(ks)
      modifies keysched, this`direction
      ensures Valid() && Keyed(ks) && (direction == 0 <==> edflag == 0)
    {
      hide TablesFor;
      hide SaltState;
      if (edflag == 0) != (direction == 0) {
        ReverseKeys(keysched, if direction == 0 then ks else Reverse(ks));
        ReverseTwice(ks);
        direction := edflag;
      }
    }

    /** encrypt_r: DES of the 64 bits, with the key schedule forwards for edflag 0 and backwards otherwise. */
    method Encrypt(small: SmallTables, block: array<bool>, edflag: int, ghost ks: seq<Key48>)
      requires Valid() && small.Valid() && (initialized > 0 ==> small.initialized)
      requires Keyed(ks) && block.Length == 64
      modifies this, small, sb01, sb23, keysched, block
      ensures Valid() && small.Valid() && small.initialized && initialized > 0 && saltbits == Zeros(32) && !Blank()
      ensures Keyed(ks) && (direction == 0 <==> edflag == 0)
      ensures block[..] == Cipher(sbox, Zeros(24)).Encipher(old(block[..]), if edflag == 0 then ks else Reverse(ks))
    {
      hide Tables;
      hide TablesFor;
      hide KeySched;
      hide Filled;
      hide KeyTables;
      Prepare(small, edflag, ks);
      var v1, v2 := Engine(sb01, sb23, keysched, saltbits, small.efp, block, Cipher(sbox, Zeros(24)),
                           if edflag == 0 then ks else Reverse(ks), small.inv);
      Store(block, v1, v2);
    }

    /** Lines 786-815: no salt, and the keys in the right order. */
    method Prepare(small: SmallTables, edflag: int, ghost ks: seq<Key48>)
      requires Valid() && small.Valid() && (initialized > 0 ==> small.initialized) && Keyed(ks)
      modifies this, small, sb01, sb23, keysched
      ensures Valid() && small.Valid() && small.initialized && initialized > 0
      ensures saltbits == Pack24(Zeros(24)) == Zeros(32) && !Blank()
      ensures Keyed(ks) && (direction == 0 <==> edflag == 0)
      ensures Tables(sb01[..], sb23[..], Cipher(sbox, Zeros(24)))
      ensures KeySched(keysched[..], if edflag == 0 then ks else Reverse(ks))
    {
      DotsSwapNothing();
      hide TablesFor;
      hide KeySched;
      hide ValidSBoxes;
      hide SaltBits;
      hide KeyTables;
      hide BlockTables;
      hide Pack24;
      SetupDots(small);
      Turn(edflag, ks);
      TablesUnsalted(sb01[..], sb23[..], sbox);
    }

    /** crypt_r, lines 82-103 of crypt/crypt-entry.c, up to the conversion to characters.  The result is that
        of the salt asked for, unless it is the one that SetupSalt passes over. */
    method Crypt(small: SmallTables, key: seq<int>, s0: int, s1: int) returns (v1: Word, v2: Word)
      requires Valid() && small.Valid() && (initialized > 0 ==> small.initialized)
      modifies this, small, sb01, sb23, keysched
      ensures Valid() && small.Valid() && small.initialized && initialized > 0
      ensures Keyed(Schedule(KeyOf(FirstEight(key)))) && direction == 0
      ensures Blank() <==> s0 == 0 && s1 == 0 && old(Blank())
      ensures v1 + v2 == Cipher(sbox, SaltInForce(old(Blank()), s0, s1)).EncipherTimes(
                           25, Zeros(64), Schedule(KeyOf(FirstEight(key))))
    {
      hide Tables;
      hide TablesFor;
      hide KeySched;
      hide Filled;
      hide KeyTables;
      hide SaltState;
      hide SaltInForce;
      hide Pack24;
      hide KeyOf;
      hide FirstEight;
      ghost var salt := SaltInForce(Blank(), s0, s1);
      PrepareCrypt(small, s0, s1, FirstEight(key));
      v1, v2 := TwentyFive(sb01, sb23, keysched, saltbits, small.efp, Cipher(sbox, salt), KeyOf(FirstEight(key)),
                           small.inv);
    }

    /** Salt and key. */
    method PrepareCrypt(small: SmallTables, s0: int, s1: int, ktab: seq<int>)
      requires Valid() && small.Valid() && (initialized > 0 ==> small.initialized) && |ktab| == 8
      modifies this, small, sb01, sb23, keysched
      ensures Valid() && small.Valid() && small.initialized && initialized > 0 && direction == 0
      ensures Keyed(Schedule(KeyOf(ktab)))
      ensures Blank() <==> s0 == 0 && s1 == 0 && old(Blank())
      ensures Tables(sb01[..], sb23[..], Cipher(sbox, SaltInForce(old(Blank()), s0, s1)))
      ensures saltbits == Pack24(SaltInForce(old(Blank()), s0, s1))
    {
      hide Tables;
      hide TablesFor;
      hide KeySched;
      hide ValidSBoxes;
      hide SaltBits;
      hide SaltInForce;
      hide Pack24;
      hide KeyTables;
      hide BlockTables;
      ghost var salt := SaltInForce(Blank(), s0, s1);
      KeyOfBytes(ktab);
      SetupSalt(small, s0, s1);
      MkKeytab(small, ktab, KeyOf(ktab));
      TablesSalted(sb01[..], sb23[..], sbox, salt);
    }
  }

  /** __init_des_r after a salt: from then on the tables and the recorded salt agree only if the salt swaps
      nothing. */
  method InitAfterSalt(d: CryptData, small: SmallTables, s0: int, s1: int)
    requires d.Valid() && small.Valid() && (d.initialized > 0 ==> small.initialized) && Onto(d.sbox)
    modifies d, small, d.sb01, d.sb23
    ensures ValidSBoxes(d.sbox) && TablesFor(d.sb01[..], d.sb23[..], d.sbox, Zeros(32))
    ensures d.saltbits == Pack24(SaltInForce(old(d.Blank()), s0, s1))
    ensures d.Valid() <==> SaltInForce(old(d.Blank()), s0, s1) == Zeros(24)
  {
    PackNothing(SaltInForce(d.Blank(), s0, s1));
    hide TablesFor;
    hide CryptData.SaltState;
    hide SaltInForce;
    hide SameTables;
    hide KeyTables;
    hide BlockTables;
    hide Pack24;
    hide Onto;
    d.SetupSalt(small, s0, s1);
    d.InitDes(small);
  }

  /** The salt of two nulls on zeroed data: it is recorded, but its swap bits are not in force. */
  method NullSaltPassedOver(small: SmallTables, sbox: SBoxes) returns (d: CryptData)
    requires small.Valid() && ValidSBoxes(sbox)
    modifies small
    ensures d.Valid() && d.salt0 == d.salt1 == 0 && d.saltbits != Pack24(SaltBits(0, 0))
  {
    hide *;
    d := new CryptData(sbox);
    d.SetupSalt(small, 0, 0);
  }

  /** The key table after strncpy: the first eight characters, filled up with nulls. */
  function FirstEight(key: seq<int>): (ktab: seq<int>)
    ensures |ktab| == 8 && forall i :: 0 <= i < 8 ==> ktab[i] == if i < |key| then key[i] else 0
  {
    seq(8, i requires 0 <= i < 8 => if i < |key| then key[i] else 0)
  }

  /** A 64-bit DES key with the given bytes; the parity bits do not matter. */
  function KeyOf(ktab: seq<int>): (key: BitStr)
    requires |ktab| == 8
    ensures |key| == 64
  {
    seq(64, i requires 0 <= i < 64 => i % 8 < 7 && FromNat(ktab[i / 8] % 128, 7)[i % 8])
  }

  lemma KeyOfBytes(ktab: seq<int>)
    requires |ktab| == 8
    ensures KeyBytes(ktab, KeyOf(ktab))
  {
    hide KeyOf;
    forall g | 0 <= g < 8
      ensures ktab[g] % 128 == ToNat(KeyOf(ktab)[8 * g..8 * g + 7])
    {
      KeyOfByte(ktab, g);
    }
  }

  lemma KeyOfByte(ktab: seq<int>, g: nat)
    requires |ktab| == 8 && g < 8
    ensures ToNat(KeyOf(ktab)[8 * g..8 * g + 7]) == ktab[g] % 128
  {
    Pow2Small();
    ToFromNat(ktab[g] % 128, 7);
    hide FromNat;
    hide ToNat;
    hide Pow2;
    forall j | 0 <= j < 7
      ensures KeyOf(ktab)[8 * g..8 * g + 7][j] == FromNat(ktab[g] % 128, 7)[j]
    {
      KeyOfBit(ktab, g, j);
    }
    assert KeyOf(ktab)[8 * g..8 * g + 7] == FromNat(ktab[g] % 128, 7);
  }

  lemma KeyOfBit(ktab: seq<int>, g: nat, j: nat)
    requires |ktab| == 8 && g < 8 && j < 7
    ensures KeyOf(ktab)[8 * g + j] == FromNat(ktab[g] % 128, 7)[j]
  {
    hide FromNat;
    assert (8 * g + j) / 8 == g && (8 * g + j) % 8 == j;
  }

  /** Only the low seven bits of a key's first eight characters matter. */
  lemma SameKey(key: seq<int>, key': seq<int>)
    requires forall i :: 0 <= i < 8 ==> FirstEight(key)[i] % 128 == FirstEight(key')[i] % 128
    ensures KeyOf(FirstEight(key)) == KeyOf(FirstEight(key'))
  {
    hide FirstEight;
    hide FromNat;
  }

  /** Key bits 1 to 7 of each byte are the low seven bits of a character, the highest first; bit 8 is the parity bit,
      which is not used. */
  lemma KeyBits(ktab: seq<int>, g: nat)
    requires |ktab| == 8 && g < 8
    ensures var c, k := ktab[g], KeyOf(ktab);
            && k[8 * g] == (c / 64 % 2 == 1) && k[8 * g + 1] == (c / 32 % 2 == 1) && k[8 * g + 2] == (c / 16 % 2 == 1)
            && k[8 * g + 3] == (c / 8 % 2 == 1) && k[8 * g + 4] == (c / 4 % 2 == 1)
            && k[8 * g + 5] == (c / 2 % 2 == 1) && k[8 * g + 6] == (c % 2 == 1)
  {
    hide *;
    KeyOfBit(ktab, g, 0);
    KeyOfBit(ktab, g, 1);
    KeyOfBit(ktab, g, 2);
    KeyOfBit(ktab, g, 3);
    KeyOfBit(ktab, g, 4);
    KeyOfBit(ktab, g, 5);
    KeyOfBit(ktab, g, 6);
    SevenBits(ktab[g] % 128);
    LowSeven(ktab[g], ktab[g] / 128, ktab[g] % 128);
  }

  lemma LowSeven(c: int, q: int, r: nat)
    requires c == 128 * q + r && r < 128
    ensures r / 64 % 2 == c / 64 % 2 && r / 32 % 2 == c / 32 % 2 && r / 16 % 2 == c / 16 % 2 && r / 8 % 2 == c / 8 % 2
    ensures r / 4 % 2 == c / 4 % 2 && r / 2 % 2 == c / 2 % 2 && r % 2 == c % 2
  {
    Shifted(q, r);
    EvenPart(q, r / 64);
    EvenPart(2 * q, r / 32);
    EvenPart(4 * q, r / 16);
    EvenPart(8 * q, r / 8);
    EvenPart(16 * q, r / 4);
    EvenPart(32 * q, r / 2);
    EvenPart(64 * q, r);
  }

  lemma EvenPart(q: int, x: int)
    ensures (2 * q + x) % 2 == x % 2
  {
  }

  lemma Shifted(q: int, r: nat)
    requires r < 128
    ensures (128 * q + r) / 64 == 2 * q + r / 64 && (128 * q + r) / 32 == 4 * q + r / 32
    ensures (128 * q + r) / 16 == 8 * q + r / 16 && (128 * q + r) / 8 == 16 * q + r / 8
    ensures (128 * q + r) / 4 == 32 * q + r / 4 && (128 * q + r) / 2 == 64 * q + r / 2
  {
  }

  lemma SevenBits(n: nat)
    ensures FromNat(n, 7) == [n / 64 % 2 == 1, n / 32 % 2 == 1, n / 16 % 2 == 1, n / 8 % 2 == 1, n / 4 % 2 == 1,
                              n / 2 % 2 == 1, n % 2 == 1]
  {
    assert n / 2 / 2 == n / 4 && n / 4 / 2 == n / 8 && n / 8 / 2 == n / 16;
    assert n / 16 / 2 == n / 32 && n / 32 / 2 == n / 64;
    LastBit(n / 64, 1);
    LastBit(n / 32, 2);
    LastBit(n / 16, 3);
    LastBit(n / 8, 4);
    LastBit(n / 4, 5);
    LastBit(n / 2, 6);
    LastBit(n, 7);
    hide FromNat;
  }

  lemma LastBit(n: nat, len: nat)
    requires len > 0
    ensures FromNat(n, len) == FromNat(n / 2, len - 1) + [n % 2 == 1] && FromNat(n, 0) == []
  {
  }

  lemma TablesSalted(sb01: seq<Word>, sb23: seq<Word>, sbox: SBoxes, salt: BitStr)
    requires |salt| == 24 && TablesFor(sb01, sb23, sbox, Pack24(salt))
    ensures Tables(sb01, sb23, Cipher(sbox, salt))
  {
    hide SbPair;
    hide Pack24;
  }

  lemma ZeroState(salt: BitStr)
    requires |salt| == 24
    ensures Expanded(Zeros(32), salt) == Pair(Zeros(32), Zeros(32))
  {
    EselValid();
    assert E(Zeros(32)) == Zeros(48);
    hide E;
    assert SaltedE(Zeros(32), salt) == Zeros(48);
    hide SaltedE;
    assert Pack24(Zeros(24)) == Zeros(32);
    assert Zeros(48)[..24] == Zeros(24) && Zeros(48)[24..] == Zeros(24);
  }

  lemma ZerosEnter()
    ensures EnterHalves(Zeros(64)) == Halves(Zeros(32), Zeros(32))
  {
    InitialPermValid();
    hide INITIAL_PERM;
  }

  method TwentyFive(sb01: array<Word>, sb23: array<Word>, kt: array<Word>, saltbits: Word, efp: array3<Word>,
                    ghost c: Cipher, ghost key: BitStr, ghost inv: seq<nat>) returns (v1: Word, v2: Word)
    requires Tables(sb01[..], sb23[..], c) && c.Valid() && saltbits == Pack24(c.salt)
    requires |key| == 64 && KeySched(kt[..], Schedule(key))
    requires UndoesE(inv) && (forall f :: 0 <= f < 64 ==> inv[f] < 96) && Filled(efp, EfpLayout(inv), 64)
    ensures v1 + v2 == c.EncipherTimes(25, Zeros(64), Schedule(key))
  {
    ghost var x := Halves(Zeros(32), Zeros(32));
    ZeroState(c.salt);
    ZerosEnter();
    c.TimesIterated(25, Zeros(64), Schedule(key));
    hide Expanded;
    hide Tables;
    hide KeySched;
    hide Filled;
    hide UndoesE;
    hide EfpLayout;
    hide Schedule;
    hide FINAL_PERM;
    var res := new Word[4](_ => Zeros(32));
    Doit(25, sb01, sb23, kt, res, c, Schedule(key), x);
    DoFinalPerm(efp, res, saltbits, inv, c.Iterate(25, x, Schedule(key)), c.salt);
    v1, v2 := res[0], res[1];
  }

  lemma TablesUnsalted(sb01: seq<Word>, sb23: seq<Word>, sbox: SBoxes)
    requires TablesFor(sb01, sb23, sbox, Zeros(32))
    ensures Tables(sb01, sb23, Cipher(sbox, Zeros(24)))
  {
    DotsSwapNothing();
    hide SbPair;
  }

  /** Lines 817-844: the state of the engine for a block of bits. */
  method Enter(block: array<bool>) returns (res: array<Word>)
    requires block.Length == 64
    ensures fresh(res) && res.Length == 4
    ensures Represents(Pair(res[0], res[1]), Pair(res[2], res[3]), EnterHalves(block[..]), Zeros(24))
  {
    UnsaltedPair(HalfOf(block[..], false));
    UnsaltedPair(HalfOf(block[..], true));
    hide E;
    hide HalfOf;
    hide Pack24;
    hide Expanded;
    res := new Word[4];
    var l1 := InitialExpand(block, false, false);
    var l2 := InitialExpand(block, false, true);
    var r1 := InitialExpand(block, true, false);
    var r2 := InitialExpand(block, true, true);
    res[0], res[1], res[2], res[3] := l1, l2, r1, r2;
  }

  /** Without a salt the engine's state is the packed expansion. */
  lemma UnsaltedPair(h: Half)
    ensures Expanded(h, Zeros(24)) == Pair(Pack24(PartOf(E(h), false)), Pack24(PartOf(E(h), true)))
  {
    UnsaltedE(h);
  }

  /** Lines 817-850: permute and expand, run the rounds once, and come back. */
  method Engine(sb01: array<Word>, sb23: array<Word>, kt: array<Word>, saltbits: Word, efp: array3<Word>,
                block: array<bool>,
                ghost c: Cipher, ghost ks: seq<Key48>, ghost inv: seq<nat>) returns (v1: Word, v2: Word)
    requires Tables(sb01[..], sb23[..], c) && c.Valid() && c.salt == Zeros(24) && saltbits == Pack24(c.salt)
    requires KeySched(kt[..], ks)
    requires block.Length == 64
    requires UndoesE(inv) && (forall f :: 0 <= f < 64 ==> inv[f] < 96) && Filled(efp, EfpLayout(inv), 64)
    ensures Joined(v1, v2) == c.Encipher(block[..], ks)
  {
    OnceIterated(c, block[..], ks);
    hide *;
    var res := Enter(block);
    Doit(1, sb01, sb23, kt, res, c, ks, EnterHalves(block[..]));
    DoFinalPerm(efp, res, saltbits, inv, c.Iterate(1, EnterHalves(block[..]), ks), c.salt);
    v1, v2 := res[0], res[1];
  }

  /** Lines 852-861: the two words bit by bit. */
  method Store(block: array<bool>, v1: Word, v2: Word)
    requires block.Length == 64
    modifies block
    ensures block[..] == Joined(v1, v2)
  {
    for i := 0 to 32
      invariant forall j :: 0 <= j < i ==> block[j] == v1[j]
    {
      block[i] := v1[i];
    }
    for i := 0 to 32
      invariant forall j :: 0 <= j < 32 ==> block[j] == v1[j]
      invariant forall j :: 32 <= j < 32 + i ==> block[j] == v2[j - 32]
    {
      block[32 + i] := v2[i];
    }
  }

  lemma OnceIterated(c: Cipher, b: Block, ks: seq<Key48>)
    requires c.Valid()
    ensures |FINAL_PERM| == 64 && ValidTable(FINAL_PERM, 64)
    ensures var y := c.Iterate(1, EnterHalves(b), ks); c.Encipher(b, ks) == Select(y.l + y.r, FINAL_PERM)
  {
    FinalPermValid();
    hide FINAL_PERM;
    assert c.Iterate(0, EnterHalves(b), ks) == EnterHalves(b);
  }

  lemma ReverseTwice<T>(s: seq<T>)
    ensures Reverse(Reverse(s)) == s
  {
  }

  /** Lines 886-890: eight bits to a byte, the parity bit shifted out. */
  method PackKey(key: seq<bool>) returns (ktab: seq<int>)
    requires |key| == 64
    ensures KeyBytes(ktab, key)
  {
    ktab := [];
    Pow2Small();
    hide ToNat;
    hide Pow2;
    for i := 0 to 8
      invariant |ktab| == i && forall g :: 0 <= g < i ==> ktab[g] % 128 == ToNat(key[8 * g..8 * g + 7])
    {
      var c := PackByte(key, i);
      ktab := ktab + [c / 2];
    }
  }

  method PackByte(key: seq<bool>, i: nat) returns (c: nat)
    requires |key| == 64 && i < 8
    ensures c / 2 == ToNat(key[8 * i..8 * i + 7])
  {
    c := 0;
    for j := 0 to 8
      invariant c == ToNat(key[8 * i..8 * i + j])
    {
      NextBit(key[8 * i..8 * i + (j + 1)], key[8 * i..8 * i + j]);
      hide ToNat;
      c := 2 * c + if key[8 * i + j] then 1 else 0;
    }
    NextBit(key[8 * i..8 * i + 8], key[8 * i..8 * i + 7]);
  }

  lemma NextBit(a: BitStr, b: BitStr)
    requires |a| > 0 && b == a[..|a| - 1]
    ensures ToNat(a) == 2 * ToNat(b) + if a[|a| - 1] then 1 else 0
  {
  }

  /** Eight exchanges reverse the sixteen round keys. */
  method ReverseKeys(kt: array<Word>, ghost ks: seq<Key48>)
    requires KeySched(kt[..], ks)
    modifies kt
    ensures KeySched(kt[..], Reverse(ks))
  {
    hide KeyWord;
    ghost var was: seq<Word> := kt[..];
    for i := 0 to 8
      invariant SwappedUpTo(was, kt[..], i)
    {
      ghost var mid: seq<Word> := kt[..];
      var x := kt[2 * (15 - i)];
      kt[2 * (15 - i)] := kt[2 * i];
      kt[2 * i] := x;
      x := kt[2 * (15 - i) + 1];
      kt[2 * (15 - i) + 1] := kt[2 * i + 1];
      kt[2 * i + 1] := x;
      SwapOne(was, mid, kt[..], i);
    }
    SwappedAll(was, kt[..], ks);
  }

  /** The i outermost round keys at either end have changed places. */
  ghost predicate SwappedUpTo(was: seq<Word>, kt: seq<Word>, i: nat)
  {
    && |kt| == |was| == 32 && i <= 8
    && (forall j :: 0 <= j < 16 && !(i <= j < 16 - i) ==>
          kt[2 * j] == was[2 * (15 - j)] && kt[2 * j + 1] == was[2 * (15 - j) + 1])
    && (forall k :: 2 * i <= k < 2 * (16 - i) ==> kt[k] == was[k])
  }

  lemma SwapOne(was: seq<Word>, kt: seq<Word>, kt': seq<Word>, i: nat)
    requires i < 8 && SwappedUpTo(was, kt, i) && |kt'| == 32
    requires kt'[2 * (15 - i)] == kt[2 * i] && kt'[2 * (15 - i) + 1] == kt[2 * i + 1]
    requires kt'[2 * i] == kt[2 * (15 - i)] && kt'[2 * i + 1] == kt[2 * (15 - i) + 1]
    requires forall k :: 0 <= k < 32 && k / 2 != i && k / 2 != 15 - i ==> kt'[k] == kt[k]
    ensures SwappedUpTo(was, kt', i + 1)
  {
  }

  lemma SwappedAll(was: seq<Word>, kt: seq<Word>, ks: seq<Key48>)
    requires SwappedUpTo(was, kt, 8) && KeySched(was, ks)
    ensures KeySched(kt, Reverse(ks))
  {
    hide KeyWord;
    forall j | 0 <= j < 16
      ensures kt[2 * j] == KeyWord(Reverse(ks)[j][..24]) && kt[2 * j + 1] == KeyWord(Reverse(ks)[j][24..])
    {
      KeysAt(was, ks, 15 - j);
    }
  }
}
