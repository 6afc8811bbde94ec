/** The key schedule of UFC-crypt: _ufc_mk_keytab_r, crypt/crypt_util.c:640-692, and the tables it uses. */
module UfcKeys {
  import opened Bits
  import opened BitSeq
  import opened DesSpec
  import opened UfcTables
  import opened Ufc
  import opened UfcInit
  import opened SelectTable

  // ----- do_pc1 -----

  /** PC1 never selects a parity bit. */
  lemma Pc1NoParity()
    ensures |PC1| == 56 && forall o :: 0 <= o < 56 ==> 1 <= PC1[o] <= 64 && (PC1[o] - 1) % 8 < 7
  {
  }

  /** The key without its parity bits, seven bits per byte. */
  function Stripped(key: BitStr): (x: BitStr)
    requires |key| == 64
    ensures |x| == 56
  {
    seq(56, i requires 0 <= i < 56 => key[8 * (i / 7) + i % 7])
  }

  /** Where PC1 finds its bit o in the stripped key. */
  function Pc1At(o: nat): (i: nat)
    requires o < 56
    ensures i < 56
  {
    Pc1NoParity();
    hide PC1;
    7 * ((PC1[o] - 1) / 8) + (PC1[o] - 1) % 8
  }

  function Pc1Layout(): (t: Layout)
    ensures t.Valid() && t.w == 7 && t.groups == 8 && t.per == 28 && t.halves == 2 && t.place == LowPlaces(28)
    ensures |t.from| == 56 && forall o :: 0 <= o < 56 ==> t.from[o] == Pc1At(o)
  {
    hide Pc1At;
    Layout(seq(56, o requires 0 <= o < 56 => Pc1At(o)), 7, 8, 28, LowPlaces(28), 2)
  }

  lemma StrippedAt(key: BitStr, o: nat)
    requires |key| == 64 && o < 56
    ensures |PC1| == 56 && 1 <= PC1[o] <= 64 && Stripped(key)[Pc1At(o)] == key[PC1[o] - 1]
  {
    Pc1NoParity();
    hide PC1;
    var c := PC1[o] - 1;
    SplitSeven(c / 8, c % 8);
  }

  lemma SplitSeven(q: nat, r: nat)
    requires r < 7
    ensures (7 * q + r) / 7 == q && (7 * q + r) % 7 == r
  {
  }

  lemma Pc1Selects(v: Word, key: BitStr, h: nat)
    requires |key| == 64 && h < 2 && Selected(v, Pc1Layout(), Stripped(key), h)
    ensures v[4..] == Register(key, h, 0) && v[..4] == Zeros(4)
  {
    var t := Pc1Layout();
    hide Pc1At;
    hide Stripped;
    Pc1Valid();
    hide PC1;
    forall k | 0 <= k < 28
      ensures v[k + 4] == Register(key, h, 0)[k]
    {
      assert t.place[k] == k + 4;
      assert t.from[28 * h + k] == t.Source(h, k);
      StrippedAt(key, 28 * h + k);
    }
    forall i | 0 <= i < 4
      ensures !v[i]
    {
      assert i !in t.place;
    }
  }

  // ----- do_pc2: the first four sub-tables serve C, the last four D -----

  lemma Pc2Range(h: nat, i: nat)
    requires h < 2 && 24 * h <= i < 24 * h + 24
    ensures |PC2| == 48 && 1 + 28 * h <= PC2[i] <= 28 + 28 * h
  {
  }

  /** The bit of register h that PC2 puts at place o of its half h. */
  function Pc2At(h: nat, o: nat): (i: nat)
    requires h < 2 && o < 24
    ensures i < 28
  {
    Pc2Range(h, 24 * h + o);
    hide PC2;
    PC2[24 * h + o] - 1 - 28 * h
  }

  function Pc2Half(h: nat): (f: seq<nat>)
    requires h < 2
    ensures |f| == 24 && forall o :: 0 <= o < 24 ==> f[o] == Pc2At(h, o)
  {
    seq(24, o requires 0 <= o < 24 => Pc2At(h, o))
  }

  function Pc2Layout(h: nat): (t: Layout)
    requires h < 2
    ensures t.Valid() && t.w == 7 && t.groups == 4 && t.per == 24 && t.halves == 1 && t.place == Places24()
    ensures t.from == Pc2Half(h)
  {
    hide Pc2At;
    Layout(Pc2Half(h), 7, 4, 24, Places24(), 1)
  }

  lemma Pc2Bit(c: BitStr, d: BitStr, h: nat, o: nat)
    requires |c| == |d| == 28 && h < 2 && o < 24
    ensures |PC2| == 48 && 1 <= PC2[24 * h + o] <= 56
    ensures (if h == 0 then c else d)[Pc2At(h, o)] == (c + d)[PC2[24 * h + o] - 1]
  {
    Pc2Range(h, 24 * h + o);
    hide PC2;
  }

  lemma Pc2Selects(v: Word, c: BitStr, d: BitStr, h: nat)
    requires |c| == |d| == 28 && h < 2 && Selected(v, Pc2Layout(h), if h == 0 then c else d, 0)
    ensures |PC2| == 48 && ValidTable(PC2, 56) && v == Pack24(Select(c + d, PC2)[24 * h..24 * h + 24])
  {
    var t := Pc2Layout(h);
    Pc2Valid();
    hide PC2;
    hide Pc2At;
    var b := Select(c + d, PC2)[24 * h..24 * h + 24];
    forall k | 0 <= k < 24
      ensures v[BitIndex(k)] == b[k]
    {
      assert t.place[k] == BitIndex(k);
      assert t.from[k] == t.Source(0, k);
      Pc2Bit(c, d, h, k);
    }
    PackedUnique(v, b);
  }

  // ----- The registers -----

  /** Register c sits in the low 28 bits.  Rotating by two shifts leaves old bits in the four above; each
      of them is clear or repeats the bit 28 places below it, which is why or-ing them in does no harm. */
  ghost predicate Holds(v: Word, c: BitStr)
  {
    v[4..] == c && forall i :: 0 <= i < 4 && v[i] ==> v[28 + i]
  }

  function Rotate(v: Word, n: nat): Word
    requires n <= 2
  {
    Or(Shl(v, n), Shr(v, 28 - n))
  }

  lemma RotateHolds(v: Word, c: BitStr, n: nat)
    requires |c| == 28 && n <= 2 && Holds(v, c)
    ensures Holds(Rotate(v, n), RotL(c, n))
  {
    var r := Rotate(v, n);
    forall i | 0 <= i < 32
      ensures r[i] == ((i < 32 - n && v[i + n]) || (28 - n <= i && v[i - (28 - n)]))
    {
      if i < 28 - n {} else if i < 32 - n {} else {}
    }
    forall i | 0 <= i < 28
      ensures r[i + 4] == RotL(c, n)[i]
    {
      if i < 28 - n {
        assert RotL(c, n)[i] == v[i + n + 4];
      } else {
        assert RotL(c, n)[i] == v[i - (28 - n) + 4];
      }
    }
  }

  lemma RegisterFields(v: Word, c: BitStr)
    requires |c| == 28 && Holds(v, c)
    ensures Field(v, 21, 7) == GroupIndex(c, 7, 0) && Field(v, 14, 7) == GroupIndex(c, 7, 1)
    ensures Field(v, 7, 7) == GroupIndex(c, 7, 2) && Field(v, 0, 7) == GroupIndex(c, 7, 3)
  {
    FieldIs(v, 21, 7);
    FieldIs(v, 14, 7);
    FieldIs(v, 7, 7);
    FieldIs(v, 0, 7);
    assert v[4..11] == c[0..7] && v[11..18] == c[7..14] && v[18..25] == c[14..21] && v[25..32] == c[21..28];
  }

  /** Lines 664-667 (678-681): one key word. */
  method HalfKey(pc2: array3<Word>, v: Word, h: nat, ghost c: BitStr, ghost d: BitStr) returns (k: Word)
    requires |c| == |d| == 28 && h < 2 && Filled(pc2, Pc2Layout(h), 24) && Holds(v, if h == 0 then c else d)
    ensures |PC2| == 48 && ValidTable(PC2, 56) && k == KeyWord(Select(c + d, PC2)[24 * h..24 * h + 24])
  {
    ghost var t := Pc2Layout(h);
    ghost var x := if h == 0 then c else d;
    RegisterFields(v, x);
    NothingGathered(t, x, 0, 0);
    hide *;
    k := LookUp(pc2, t, Zeros(32), 0, 0, Field(v, 21, 7), x, 0, 0);
    k := LookUp(pc2, t, k, 0, 1, Field(v, 14, 7), x, 0, 1);
    k := LookUp(pc2, t, k, 0, 2, Field(v, 7, 7), x, 0, 2);
    k := LookUp(pc2, t, k, 0, 3, Field(v, 0, 7), x, 0, 3);
    AllGathered(k, t, x, 0);
    Pc2Selects(k, c, d, h);
    MarkKey(k, Select(c + d, PC2)[24 * h..24 * h + 24]);
    k := k[16 := true];
  }

  lemma MarkKey(k: Word, b: BitStr)
    requires |b| == 24 && k == Pack24(b)
    ensures k[16 := true] == KeyWord(b)
  {
  }

  // ----- _ufc_mk_keytab_r -----

  /** The low seven bits of each key byte are seven bits of the DES key, the parity bit following them. */
  ghost predicate KeyBytes(ktab: seq<int>, key: BitStr)
  {
    |ktab| == 8 && |key| == 64 && forall g :: 0 <= g < 8 ==> ktab[g] % 128 == ToNat(key[8 * g..8 * g + 7])
  }

  lemma KeyByteAt(ktab: seq<int>, key: BitStr, g: nat)
    requires KeyBytes(ktab, key) && g < 8
    ensures ktab[g] % 128 == GroupIndex(Stripped(key), 7, g)
  {
    forall i | 7 * g <= i < 7 * g + 7
      ensures Stripped(key)[i] == key[8 * g + (i - 7 * g)]
    {
      SplitSeven(g, i - 7 * g);
    }
    assert Stripped(key)[g * 7..g * 7 + 7] == key[8 * g..8 * g + 7];
  }

  /** Lines 654-658. */
  method LoadRegisters(pc1: array3<Word>, ktab: seq<int>, ghost key: BitStr) returns (v1: Word, v2: Word)
    requires Filled(pc1, Pc1Layout(), 56) && KeyBytes(ktab, key)
    ensures Holds(v1, Register(key, 0, 0)) && Holds(v2, Register(key, 1, 0))
  {
    ghost var t := Pc1Layout();
    ghost var x := Stripped(key);
    hide t.Valid;
    NothingGathered(t, x, 0, 0);
    NothingGathered(t, x, 1, 0);
    v1, v2 := Zeros(32), Zeros(32);
    hide *;
    for g := 0 to 8
      invariant Gathered(v1, t, x, 0, 0, g) && Gathered(v2, t, x, 1, 0, g)
    {
      KeyByteAt(ktab, key, g);
      v1 := LookUp(pc1, t, v1, 0, g, ktab[g] % 128, x, 0, g);
      v2 := LookUp(pc1, t, v2, 1, g, ktab[g] % 128, x, 0, g);
    }
    AllGathered(v1, t, x, 0);
    AllGathered(v2, t, x, 1);
    LoadedHolds(v1, key, 0);
    LoadedHolds(v2, key, 1);
  }

  lemma LoadedHolds(v: Word, key: BitStr, h: nat)
    requires |key| == 64 && h < 2 && Selected(v, Pc1Layout(), Stripped(key), h)
    ensures Holds(v, Register(key, h, 0))
  {
    Pc1Selects(v, key, h);
    assert forall i :: 0 <= i < 4 ==> v[i] == v[..4][i];
  }

  lemma RegisterStep(v: Word, key: BitStr, h: nat, i: nat)
    requires |key| == 64 && h < 2 && i < 16 && Holds(v, Register(key, h, i))
    ensures |ROTS| == 16 && 1 <= ROTS[i] <= 2 && Holds(Rotate(v, ROTS[i]), Register(key, h, i + 1))
  {
    RotsValid();
    hide ROTS;
    RotateHolds(v, Register(key, h, i), ROTS[i]);
  }

  lemma RoundKeyHalves(key: BitStr, i: nat)
    requires |key| == 64 && i < 16
    ensures |PC2| == 48 && ValidTable(PC2, 56)
    ensures Select(Register(key, 0, i + 1) + Register(key, 1, i + 1), PC2) == Schedule(key)[i]
    ensures Schedule(key)[i][0..24] == Schedule(key)[i][..24] && Schedule(key)[i][24..48] == Schedule(key)[i][24..]
  {
    Pc2Valid();
  }

  /** The words of the first n round keys are in place. */
  ghost predicate SchedUpTo(kt: seq<Word>, ks: seq<Key48>, n: nat)
  {
    |kt| == 32 && |ks| == 16 && n <= 16
    && forall i :: 0 <= i < n ==> kt[2 * i] == KeyWord(ks[i][..24]) && kt[2 * i + 1] == KeyWord(ks[i][24..])
  }

  lemma SchedGrows(kt: seq<Word>, kt': seq<Word>, ks: seq<Key48>, n: nat)
    requires n < 16 && SchedUpTo(kt, ks, n) && |kt'| == 32 && forall i :: 0 <= i < 2 * n ==> kt'[i] == kt[i]
    requires kt'[2 * n] == KeyWord(ks[n][..24]) && kt'[2 * n + 1] == KeyWord(ks[n][24..])
    ensures SchedUpTo(kt', ks, n + 1)
  {
    hide KeyWord;
  }

  /** Lines 660-689: the two words of round key i. */
  method OneRoundKey(pc2a: array3<Word>, pc2b: array3<Word>, v1: Word, v2: Word, i: nat, ghost key: BitStr)
    returns (v1': Word, v2': Word, k1: Word, k2: Word)
    requires Filled(pc2a, Pc2Layout(0), 24) && Filled(pc2b, Pc2Layout(1), 24) && |key| == 64 && i < 16
    requires Holds(v1, Register(key, 0, i)) && Holds(v2, Register(key, 1, i))
    ensures Holds(v1', Register(key, 0, i + 1)) && Holds(v2', Register(key, 1, i + 1))
    ensures k1 == KeyWord(Schedule(key)[i][..24]) && k2 == KeyWord(Schedule(key)[i][24..])
  {
    hide *;
    RegisterStep(v1, key, 0, i);
    RegisterStep(v2, key, 1, i);
    RoundKeyHalves(key, i);
    v1' := Rotate(v1, ROTS[i]);
    k1 := HalfKey(pc2a, v1', 0, Register(key, 0, i + 1), Register(key, 1, i + 1));
    v2' := Rotate(v2, ROTS[i]);
    k2 := HalfKey(pc2b, v2', 1, Register(key, 0, i + 1), Register(key, 1, i + 1));
  }

  /** The whole key schedule is that of the standard. */
  method MkKeytab(pc1: array3<Word>, pc2a: array3<Word>, pc2b: array3<Word>, ktab: seq<int>, keysched: array<Word>,
                  ghost key: BitStr)
    requires Filled(pc1, Pc1Layout(), 56) && Filled(pc2a, Pc2Layout(0), 24) && Filled(pc2b, Pc2Layout(1), 24)
    requires KeyBytes(ktab, key) && keysched.Length == 32
    modifies keysched
    ensures KeySched(keysched[..], Schedule(key))
  {
    var v1, v2 := LoadRegisters(pc1, ktab, key);
    ghost var ks := Schedule(key);
    hide KeyWord;
    hide Schedule;
    hide Register;
    hide Holds;
    hide Filled;
    for i := 0 to 16
      invariant Holds(v1, Register(key, 0, i)) && Holds(v2, Register(key, 1, i))
      invariant SchedUpTo(keysched[..], ks, i)
    {
      ghost var kt: seq<Word> := keysched[..];
      v1, v2, keysched[2 * i], keysched[2 * i + 1] := OneRoundKey(pc2a, pc2b, v1, v2, i, key);
      SchedGrows(kt, keysched[..], ks, i);
    }
  }
}
