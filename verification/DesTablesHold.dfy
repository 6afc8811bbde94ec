/** The combined tables of crypt/des_impl.c mean what the cipher and the key schedule need: des_SPtrans is the standard
S-boxes followed by P, des_skb is PC2. */
module DesTablesHold {
  import opened BitSeq
  import opened DesSpec
  import D = Des
  import opened DesFips
  import K = DesKey
  import opened DesTables
  import opened StandardBoxes
  import Salt = UfcSalt

  // ----- The bits of an index -----

  lemma LowIndexBits(w: bv32)
    ensures SixBits(w)[0] == (D.Low6(w) % 2 == 1) && SixBits(w)[1] == (D.Low6(w) / 2 % 2 == 1)
    ensures SixBits(w)[2] == (D.Low6(w) / 4 % 2 == 1)
  {
  }

  lemma HighIndexBits(w: bv32)
    ensures SixBits(w)[3] == (D.Low6(w) / 8 % 2 == 1) && SixBits(w)[4] == (D.Low6(w) / 16 % 2 == 1)
    ensures SixBits(w)[5] == (D.Low6(w) / 32 % 2 == 1)
  {
  }

  lemma DigitBits(j: nat)
    requires j < 64
    ensures j / 8 < 8 && j % 8 % 2 == j % 2 && j % 8 / 2 % 2 == j / 2 % 2 && j % 8 / 4 == j / 4 % 2
    ensures j / 8 / 2 % 2 == j / 16 % 2 && j / 8 / 4 == j / 32 % 2
  {
    LowDigit(j, j / 8, j % 8);
    HighDigit(j, j / 8, j % 8);
  }

  lemma LowDigit(j: nat, a: nat, b: nat)
    requires b < 8 && j == 8 * a + b
    ensures b % 2 == j % 2 && b / 2 % 2 == j / 2 % 2 && b / 4 == j / 4 % 2
  {
    assert j / 2 == 4 * a + b / 2 && j / 4 == 2 * a + b / 4;
  }

  lemma HighDigit(j: nat, a: nat, b: nat)
    requires b < 8 && a < 8 && j == 8 * a + b
    ensures a % 2 == j / 8 % 2 && a / 2 % 2 == j / 16 % 2 && a / 4 == j / 32 % 2
  {
    assert j / 8 == a && j / 16 == a / 2 && j / 32 == a / 4;
  }

  lemma TwoBits(x: bool, y: bool)
    ensures ToNat([x, y]) == (if x then 2 else 0) + if y then 1 else 0
  {
    assert [x, y][..1] == [x] && [x][..0] == [];
  }

  lemma FourBits(v: BitStr, w: bool, x: bool, y: bool, z: bool)
    requires v == [w, x, y, z]
    ensures ToNat(v) == (if w then 8 else 0) + (if x then 4 else 0) + (if y then 2 else 0) + if z then 1 else 0
  {
    TwoBits(w, x);
    assert [w, x, y][..2] == [w, x];
    assert ToNat([w, x, y]) == 2 * ToNat([w, x]) + if y then 1 else 0;
    assert v[..3] == [w, x, y];
  }

  lemma NibbleBits(y: nat)
    ensures FromNat(y, 4) == [y / 8 % 2 == 1, y / 4 % 2 == 1, y / 2 % 2 == 1, y % 2 == 1]
  {
    assert y / 2 / 2 == y / 4 && y / 4 / 2 == y / 8;
    LowestBit(y / 8, 1);
    LowestBit(y / 4, 2);
    LowestBit(y / 2, 3);
    LowestBit(y, 4);
    hide FromNat;
  }

  lemma LowestBit(y: nat, n: nat)
    requires n > 0
    ensures FromNat(y, n) == FromNat(y / 2, n - 1) + [y % 2 == 1] && FromNat(y, 0) == []
  {
  }

  // ----- des_SPtrans -----

  function SpEntry(i: nat, a: nat): Line
  {
    match i
    case 0 => Sp1(a)
    case 1 => Sp2(a)
    case 2 => Sp3(a)
    case 3 => Sp4(a)
    case 4 => Sp5(a)
    case 5 => Sp6(a)
    case 6 => Sp7(a)
    case _ => Sp8(a)
  }

  /** des_SPtrans. */
  const SPTRANS: D.SpTables :=
    seq(8, i requires 0 <= i < 8 => seq(64, j requires 0 <= j < 64 => SpEntry(i, j / 8).At(j % 8)))

  /** Where the four bits of S-box i go. */
  function Places(i: nat): (p: seq<nat>)
    ensures |p| == 4 && forall k :: 0 <= k < 4 ==> p[k] < 32
  {
    match i
    case 0 => [9, 17, 23, 31]
    case 1 => [13, 28, 2, 18]
    case 2 => [24, 16, 30, 6]
    case 3 => [26, 20, 10, 1]
    case 4 => [8, 14, 25, 3]
    case 5 => [4, 29, 11, 19]
    case 6 => [0, 12, 22, 7]
    case _ => [5, 27, 15, 21]
  }

  lemma PlaceIs(i: nat, k: nat)
    requires i < 8 && k < 4
    ensures |Salt.PLACE32| == 32 && Places(i)[k] == (Salt.PLACE32[4 * i + k] + 1) % 32
  {
    if i == 0 {} else if i == 1 {} else if i == 2 {} else if i == 3 {}
    else if i == 4 {} else if i == 5 {} else if i == 6 {} else {}
  }

  /** Line a of table i of des_SPtrans is for the rows r and r + 2 of S-box i and the columns from c in steps of
      four. */
  ghost predicate LinesAre(i: nat, a: nat, r: nat, c: nat)
    requires i < 8 && r < 2 && c < 4
  {
    && Box(STANDARD[i])
    && LineIs(SpEntry(i, a), STANDARD[i], r, c, Places(i)[0], Places(i)[1], Places(i)[2], Places(i)[3])
  }

  lemma AllLines(i: nat)
    requires i < 8
    ensures |STANDARD| == 8 && Box(STANDARD[i])
    ensures LinesAre(i, 0, 0, 0) && LinesAre(i, 1, 0, 2) && LinesAre(i, 2, 0, 1) && LinesAre(i, 3, 0, 3)
    ensures LinesAre(i, 4, 1, 0) && LinesAre(i, 5, 1, 2) && LinesAre(i, 6, 1, 1) && LinesAre(i, 7, 1, 3)
  {
    hide LineIs;
    hide Box;
    hide Sp1, Sp2, Sp3, Sp4, Sp5, Sp6, Sp7, Sp8;
    hide S1, S2, S3, S4, S5, S6, S7, S8;
    if i == 0 {
      LowLines1();
      HighLines1();
    } else if i == 1 {
      LowLines2();
      HighLines2();
    } else if i == 2 {
      LowLines3();
      HighLines3();
    } else if i == 3 {
      LowLines4();
      HighLines4();
    } else if i == 4 {
      LowLines5();
      HighLines5();
    } else if i == 5 {
      LowLines6();
      HighLines6();
    } else if i == 6 {
      LowLines7();
      HighLines7();
    } else {
      LowLines8();
      HighLines8();
    }
  }

  /** Entry b of a line is for the number at row r and column c of an S-box. */
  predicate EntryIs(o: Line, b: nat, s: seq<seq<nat>>, r: nat, c: nat, p: seq<nat>)
    requires |p| == 4 && forall k :: 0 <= k < 4 ==> p[k] < 32
    requires Box(s) && r < 4 && c < 16
  {
    o.At(b) == Four(s[r][c], p[0], p[1], p[2], p[3])
  }

  lemma EightEntries(o: Line, s: seq<seq<nat>>, r: nat, c: nat, p: seq<nat>)
    requires |p| == 4 && forall k :: 0 <= k < 4 ==> p[k] < 32
    requires Box(s) && r < 2 && c < 4 && LineIs(o, s, r, c, p[0], p[1], p[2], p[3])
    ensures EntryIs(o, 0, s, r, c, p) && EntryIs(o, 1, s, r + 2, c, p)
    ensures EntryIs(o, 2, s, r, c + 8, p) && EntryIs(o, 3, s, r + 2, c + 8, p)
    ensures EntryIs(o, 4, s, r, c + 4, p) && EntryIs(o, 5, s, r + 2, c + 4, p)
    ensures EntryIs(o, 6, s, r, c + 12, p) && EntryIs(o, 7, s, r + 2, c + 12, p)
  {
    hide Four;
  }

  lemma EntryAt(o: Line, s: seq<seq<nat>>, r: nat, c: nat, p: seq<nat>, b: nat)
    requires |p| == 4 && forall k :: 0 <= k < 4 ==> p[k] < 32
    requires b < 8 && Box(s) && r < 2 && c < 4 && LineIs(o, s, r, c, p[0], p[1], p[2], p[3])
    ensures EntryIs(o, b, s, 2 * (b % 2) + r, 8 * (b / 2 % 2) + 4 * (b / 4) + c, p)
  {
    hide EntryIs;
    hide LineIs;
    hide Box;
    EightEntries(o, s, r, c, p);
    if b == 0 {} else if b == 1 {} else if b == 2 {} else if b == 3 {}
    else if b == 4 {} else if b == 5 {} else if b == 6 {} else {}
  }

  lemma AnyLine(i: nat, a: nat, r: nat, c: nat)
    requires i < 8 && a < 8 && r == a / 4 && c == 2 * (a % 2) + a / 2 % 2
    ensures |STANDARD| == 8 && Box(STANDARD[i])
    ensures LineIs(SpEntry(i, a), STANDARD[i], r, c, Places(i)[0], Places(i)[1], Places(i)[2], Places(i)[3])
  {
    hide *;
    AllLines(i);
    assert LinesAre(i, a, r, c) by {
      if a == 0 {} else if a == 1 {} else if a == 2 {} else if a == 3 {}
      else if a == 4 {} else if a == 5 {} else if a == 6 {} else {}
    }
    LineMeans(i, a, r, c);
  }

  lemma LineMeans(i: nat, a: nat, r: nat, c: nat)
    requires i < 8 && r < 2 && c < 4 && |STANDARD| == 8 && LinesAre(i, a, r, c)
    ensures Box(STANDARD[i])
    ensures LineIs(SpEntry(i, a), STANDARD[i], r, c, Places(i)[0], Places(i)[1], Places(i)[2], Places(i)[3])
  {
    hide STANDARD;
    hide Places;
    hide SpEntry;
    hide LineIs;
  }

  /** The row and the column that index 8a + b addresses. */
  lemma Addressed(w: bv32)
    ensures var v := SixBits(w);
            var a, b := D.Low6(w) / 8, D.Low6(w) % 8;
            ToNat([v[0], v[5]]) == 2 * (b % 2) + a / 4
            && ToNat(v[1..5]) == 8 * (b / 2 % 2) + 4 * (b / 4) + 2 * (a % 2) + a / 2 % 2
  {
    hide *;
    var v, j := SixBits(w), D.Low6(w);
    LowIndexBits(w);
    HighIndexBits(w);
    DigitBits(j);
    TwoBits(v[0], v[5]);
    assert v[1..5] == [v[1], v[2], v[3], v[4]];
    FourBits(v[1..5], v[1], v[2], v[3], v[4]);
    BitDigits(j / 8, j % 8, v);
  }

  lemma BitDigits(a: nat, b: nat, v: BitStr)
    requires |v| == 6 && a < 8 && b < 8 && v[0] == (b % 2 == 1) && v[1] == (b / 2 % 2 == 1) && v[2] == (b / 4 == 1)
    requires v[3] == (a % 2 == 1) && v[4] == (a / 2 % 2 == 1) && v[5] == (a / 4 == 1)
    ensures (if v[0] then 2 else 0) + (if v[5] then 1 else 0) == 2 * (b % 2) + a / 4
    ensures (if v[1] then 8 else 0) + (if v[2] then 4 else 0) + (if v[3] then 2 else 0) + (if v[4] then 1 else 0)
         == 8 * (b / 2 % 2) + 4 * (b / 4) + 2 * (a % 2) + a / 2 % 2
  {
  }

  /** The entry for six bits is the output of the S-box, bit by bit at its places. */
  lemma SpEntryIs(i: nat, w: bv32)
    requires i < 8
    ensures ValidSBoxes(STANDARD)
    ensures var v := SixBits(w);
            var y := STANDARD[i][ToNat([v[0], v[5]])][ToNat(v[1..5])];
            SPTRANS[i][D.Low6(w)] == Four(y, Places(i)[0], Places(i)[1], Places(i)[2], Places(i)[3])
  {
    StandardOnto();
    Addressed(w);
    var j := D.Low6(w);
    var a, b := j / 8, j % 8;
    AnyLine(i, a, a / 4, 2 * (a % 2) + a / 2 % 2);
    EntryAt(SpEntry(i, a), STANDARD[i], a / 4, 2 * (a % 2) + a / 2 % 2, Places(i), b);
    SpAt(i, j);
    hide D.Low6;
    hide SixBits;
    hide ToNat;
    hide STANDARD;
    hide SPTRANS;
    hide Four;
    hide Places;
    hide SpEntry;
  }

  lemma SpAt(i: nat, j: nat)
    requires i < 8 && j < 64
    ensures SPTRANS[i][j] == SpEntry(i, j / 8).At(j % 8)
  {
  }

  /** Output bit 4i + k of the S-boxes and bit n of the cipher function are the same. */
  lemma SamePlace(n: nat, i: nat, k: nat)
    requires n < 32 && i < 8 && k < 4
    ensures |PERM32| == 32 && 1 <= PERM32[n] <= 32
    ensures (n + 1) % 32 == Places(i)[k] <==> PERM32[n] - 1 == 4 * i + k
  {
    hide *;
    PlaceIs(i, k);
    Salt.PlaceUndoes(n);
    PermUndoes(4 * i + k);
    NextSame(n, Salt.PLACE32[4 * i + k]);
  }

  lemma NextSame(n: nat, q: nat)
    requires n < 32 && q < 32
    ensures (n + 1) % 32 == (q + 1) % 32 <==> n == q
  {
  }

  lemma PermUndoes(m: nat)
    requires m < 32
    ensures |PERM32| == |Salt.PLACE32| == 32 && Salt.PLACE32[m] < 32 && PERM32[Salt.PLACE32[m]] == m + 1
  {
  }

  lemma PlacedBit(i: nat, x: BitStr, n: nat)
    requires i < 8 && |x| == 4 && n < 32
    ensures |PERM32| == 32 && 1 <= PERM32[n] <= 32
    ensures P32(Placed(i, x))[n] == ((PERM32[n] - 1) / 4 == i && x[(PERM32[n] - 1) % 4])
  {
    Perm32Valid();
    hide PERM32;
  }

  lemma SpBit(i: nat, w: bv32, n: nat)
    requires i < 8 && n < 32
    ensures ValidSBoxes(STANDARD)
    ensures RotBits(SPTRANS[i][D.Low6(w)])[n] == P32(Placed(i, SBoxOut(STANDARD, i, SixBits(w))))[n]
  {
    hide *;
    SpEntryIs(i, w);
    BoxOutput(i, SixBits(w));
    var v := SixBits(w);
    var y := STANDARD[i][ToNat([v[0], v[5]])][ToNat(v[1..5])];
    RotatedBit(SPTRANS[i][D.Low6(w)], n);
    PlacedBit(i, FromNat(y, 4), n);
    NibbleBits(y);
    FourBit(y, Places(i)[0], Places(i)[1], Places(i)[2], Places(i)[3], (n + 1) % 32);
    SamePlace(n, i, 0);
    SamePlace(n, i, 1);
    SamePlace(n, i, 2);
    SamePlace(n, i, 3);
  }

  lemma BoxOutput(i: nat, v: BitStr)
    requires i < 8 && |v| == 6 && ValidSBoxes(STANDARD)
    ensures ToNat([v[0], v[5]]) < 4 && ToNat(v[1..5]) < 16
    ensures |STANDARD| == 8 && |STANDARD[i]| == 4 && |STANDARD[i][ToNat([v[0], v[5]])]| == 16
    ensures SBoxOut(STANDARD, i, v) == FromNat(STANDARD[i][ToNat([v[0], v[5]])][ToNat(v[1..5])], 4)
  {
    hide STANDARD;
    hide FromNat;
    assert |v[1..5]| == 4;
    TwoBits(v[0], v[5]);
    FourBits(v[1..5], v[1], v[2], v[3], v[4]);
    hide ToNat;
  }

  lemma RotatedBit(x: bv32, n: nat)
    requires n < 32
    ensures RotBits(x)[n] == Bit(x, (n + 1) % 32)
  {
    hide Bit;
  }

  /** des_SPtrans is the standard S-boxes followed by P. */
  lemma SpTablesHold()
    ensures SpHolds(SPTRANS, STANDARD)
  {
    hide *;
    StandardOnto();
    forall i: nat, w: bv32 | i < 8
      ensures RotBits(SPTRANS[i][D.Low6(w)]) == P32(Placed(i, SBoxOut(STANDARD, i, SixBits(w))))
    {
      forall n | 0 <= n < 32
        ensures RotBits(SPTRANS[i][D.Low6(w)])[n] == P32(Placed(i, SBoxOut(STANDARD, i, SixBits(w))))[n]
      {
        SpBit(i, w, n);
      }
    }
    SpHoldsIf();
  }

  lemma SpHoldsIf()
    requires ValidSBoxes(STANDARD)
    requires forall i: nat, w: bv32 {:trigger SPTRANS[i][D.Low6(w)]} :: i < 8 ==>
               RotBits(SPTRANS[i][D.Low6(w)]) == P32(Placed(i, SBoxOut(STANDARD, i, SixBits(w))))
    ensures SpHolds(SPTRANS, STANDARD)
  {
    hide STANDARD;
    hide SPTRANS;
  }

  // ----- des_skb -----

  function SkbEntry(g: nat, a: nat): Line
  {
    match g
    case 0 => Skb1(a)
    case 1 => Skb2(a)
    case 2 => Skb3(a)
    case 3 => Skb4(a)
    case 4 => Skb5(a)
    case 5 => Skb6(a)
    case 6 => Skb7(a)
    case _ => Skb8(a)
  }

  /** des_skb. */
  const SKB: K.SkbTables :=
    seq(8, g requires 0 <= g < 8 => seq(64, j requires 0 <= j < 64 => SkbEntry(g, j / 8).At(j % 8)))

  /** Where the six bits of an index of table g go. */
  function Positions(g: nat): (p: seq<nat>)
    ensures |p| == 6 && forall e :: 0 <= e < 6 ==> p[e] < 32
  {
    match g
    case 0 => [4, 29, 16, 11, 5, 19]
    case 1 => [25, 13, 21, 2, 10, 28]
    case 2 => [0, 18, 24, 1, 9, 27]
    case 3 => [20, 8, 3, 12, 26, 17]
    case 4 => [28, 16, 2, 29, 20, 12]
    case 5 => [27, 3, 10, 17, 0, 25]
    case 6 => [8, 19, 24, 4, 21, 9]
    case _ => [26, 18, 1, 13, 5, 11]
  }

  /** Line a of table g of des_skb. */
  ghost predicate CodesOf(g: nat, a: nat)
  {
    var p := Positions(g);
    CodesAre(SkbEntry(g, a), a, p[0], p[1], p[2], p[3], p[4], p[5])
  }

  lemma AllCodes(g: nat)
    requires g < 8
    ensures CodesOf(g, 0) && CodesOf(g, 1) && CodesOf(g, 2) && CodesOf(g, 3)
    ensures CodesOf(g, 4) && CodesOf(g, 5) && CodesOf(g, 6) && CodesOf(g, 7)
  {
    hide CodesAre;
    hide Skb1, Skb2, Skb3, Skb4, Skb5, Skb6, Skb7, Skb8;
    if g == 0 {
      CodeLines1();
    } else if g == 1 {
      CodeLines2();
    } else if g == 2 {
      CodeLines3();
    } else if g == 3 {
      CodeLines4();
    } else if g == 4 {
      CodeLines5();
    } else if g == 5 {
      CodeLines6();
    } else if g == 6 {
      CodeLines7();
    } else {
      CodeLines8();
    }
  }

  lemma AnyCode(g: nat, a: nat, b: nat)
    requires g < 8 && a < 8 && b < 8
    ensures var p := Positions(g); SkbEntry(g, a).At(b) == D.Or(Three(b, p[0], p[1], p[2]), Three(a, p[3], p[4], p[5]))
  {
    hide D.Or;
    hide Three;
    hide Positions;
    hide SkbEntry;
    AllCodes(g);
    assert CodesOf(g, a) by {
      hide *;
      if a == 0 {} else if a == 1 {} else if a == 2 {} else if a == 3 {}
      else if a == 4 {} else if a == 5 {} else if a == 6 {} else {}
    }
    if b == 0 {} else if b == 1 {} else if b == 2 {} else if b == 3 {}
    else if b == 4 {} else if b == 5 {} else if b == 6 {} else {}
  }

  lemma SkbAt(g: nat, j: nat)
    requires g < 8 && j < 64
    ensures SKB[g][j] == SkbEntry(g, j / 8).At(j % 8)
  {
  }

  /** A word of table g has the index bits at their places. */
  lemma CodeBit(g: nat, w: bv32, p: nat)
    requires g < 8 && p < 32
    ensures Bit(SKB[g][D.Low6(w)], p) == exists e :: 0 <= e < 6 && Positions(g)[e] == p && SixBits(w)[e]
  {
    hide *;
    var j, q := D.Low6(w), Positions(g);
    SkbAt(g, j);
    AnyCode(g, j / 8, j % 8);
    LowIndexBits(w);
    HighIndexBits(w);
    DigitBits(j);
    ThreeBit(j % 8, q[0], q[1], q[2], p);
    ThreeBit(j / 8, q[3], q[4], q[5], p);
    OrBit(Three(j % 8, q[0], q[1], q[2]), Three(j / 8, q[3], q[4], q[5]), p);
    SixWays(j, p, q, SixBits(w));
  }

  lemma SixWays(j: nat, p: nat, q: seq<nat>, v: BitStr)
    requires |q| == |v| == 6 && j < 64 && v[0] == (j % 2 == 1) && v[1] == (j / 2 % 2 == 1) && v[2] == (j / 4 % 2 == 1)
    requires v[3] == (j / 8 % 2 == 1) && v[4] == (j / 16 % 2 == 1) && v[5] == (j / 32 % 2 == 1)
    ensures (exists e :: 0 <= e < 6 && q[e] == p && v[e])
       <==> ((v[0] && p == q[0]) || (v[1] && p == q[1]) || (v[2] && p == q[2])
             || (v[3] && p == q[3]) || (v[4] && p == q[4]) || (v[5] && p == q[5]))
  {
  }

  /** The inverse of PC2; 48 for the bits it leaves out. */
  const UNPC2: seq<nat> :=
    [4, 23, 6, 15, 5, 9, 19, 17, 48, 11, 2, 14, 22, 0] +
    [8, 18, 1, 48, 13, 21, 10, 48, 12, 3, 48, 16, 20, 7] +
    [46, 30, 26, 47, 34, 40, 48, 45, 27, 48, 38, 31, 24, 43] +
    [48, 36, 33, 42, 28, 35, 37, 44, 32, 25, 41, 48, 29, 39]

  lemma Pc2Undoes(o: nat)
    requires o < 48
    ensures |PC2| == 48 && |UNPC2| == 56 && 1 <= PC2[o] <= 56 && UNPC2[PC2[o] - 1] == o
  {
    hide *;
    if o < 24 { LowUndoes(o); } else { HighUndoes(o); }
  }

  lemma LowUndoes(o: nat)
    requires o < 24
    ensures |PC2| == 48 && |UNPC2| == 56 && 1 <= PC2[o] <= 56 && UNPC2[PC2[o] - 1] == o
  {
  }

  lemma HighUndoes(o: nat)
    requires 24 <= o < 48
    ensures |PC2| == 48 && |UNPC2| == 56 && 1 <= PC2[o] <= 56 && UNPC2[PC2[o] - 1] == o
  {
  }

  /** The S-box that index bit e of table g is for, and its number among the six. */
  function OwnerBox(g: nat): (i: seq<nat>)
    ensures |i| == 6 && forall e :: 0 <= e < 6 ==> i[e] < 8
  {
    match g
    case 0 => [0, 3, 1, 2, 0, 1]
    case 1 => [3, 2, 1, 0, 2, 3]
    case 2 => [0, 1, 3, 0, 2, 3]
    case 3 => [1, 2, 0, 2, 3, 1]
    case 4 => [7, 5, 4, 7, 5, 6]
    case 5 => [7, 4, 6, 5, 4, 7]
    case 6 => [6, 5, 7, 4, 5, 6]
    case _ => [7, 5, 4, 6, 4, 6]
  }

  function OwnerBit(g: nat): (b: seq<nat>)
    ensures |b| == 6 && forall e :: 0 <= e < 6 ==> b[e] < 6
  {
    match g
    case 0 => [4, 5, 0, 3, 5, 3]
    case 1 => [1, 5, 5, 2, 2, 4]
    case 2 => [0, 2, 0, 1, 1, 3]
    case 3 => [4, 0, 3, 4, 2, 1]
    case 4 => [4, 0, 2, 5, 4, 4]
    case 5 => [3, 3, 2, 1, 0, 1]
    case 6 => [0, 3, 0, 4, 5, 1]
    case _ => [2, 2, 1, 5, 5, 3]
  }

  lemma OwnerLow(g: nat, e: nat)
    requires g < 4 && e < 6
    ensures var i, b := OwnerBox(g)[e], OwnerBit(g)[e];
            i < 4 && K.Tapped(i, b) == K.Taps(g)[e] && Positions(g)[e] == K.Gathering(i) + b
  {
    if g == 0 {} else if g == 1 {} else if g == 2 {} else {}
  }

  lemma OwnerHigh(g: nat, e: nat)
    requires 4 <= g < 8 && e < 6
    ensures var i, b := OwnerBox(g)[e], OwnerBit(g)[e];
            i >= 4 && K.Tapped(i, b) == K.Taps(g)[e] && Positions(g)[e] == K.Gathering(i) + b
  {
    if g == 4 {} else if g == 5 {} else if g == 6 {} else {}
  }

  /** Two key bits of one half are different bits of the register. */
  lemma TappedOnce(i: nat, b: nat, i': nat, b': nat)
    requires i < 8 && i' < 8 && b < 6 && b' < 6 && (i < 4 <==> i' < 4) && K.Tapped(i, b) == K.Tapped(i', b')
    ensures i == i' && b == b'
  {
    Pc2Undoes(6 * i + b);
    Pc2Undoes(6 * i' + b');
    hide PC2;
    hide UNPC2;
  }

  /** A key bit is taken from a register bit exactly if the register bit goes to its place. */
  lemma SameTap(g: nat, i: nat, b: nat, e: nat)
    requires g < 8 && i < 8 && b < 6 && e < 6 && (g < 4 <==> i < 4)
    ensures Positions(g)[e] == K.Gathering(i) + b <==> K.Taps(g)[e] == K.Tapped(i, b)
  {
    hide Positions;
    hide K.Taps;
    hide K.Tapped;
    hide OwnerBox;
    hide OwnerBit;
    if g < 4 { OwnerLow(g, e); } else { OwnerHigh(g, e); }
    if K.Taps(g)[e] == K.Tapped(i, b) {
      TappedOnce(i, b, OwnerBox(g)[e], OwnerBit(g)[e]);
    }
  }

  /** des_skb is PC2. */
  lemma SkbTablesHold()
    ensures K.SkbHolds(SKB)
  {
    hide *;
    forall g: nat, w: bv32, i: nat, b: nat | g < 8 && i < 8 && b < 6 && (g < 4 <==> i < 4)
      ensures K.SkbBit(SKB, g, w, i, b)
    {
      SkbBitIs(g, w, i, b);
    }
    SkbHoldsIf();
  }

  lemma SkbHoldsIf()
    requires forall g: nat, w: bv32, i: nat, b: nat :: g < 8 && i < 8 && b < 6 && (g < 4 <==> i < 4) ==>
               K.SkbBit(SKB, g, w, i, b)
    ensures K.SkbHolds(SKB)
  {
    hide SKB;
  }

  lemma SkbBitIs(g: nat, w: bv32, i: nat, b: nat)
    requires g < 8 && i < 8 && b < 6 && (g < 4 <==> i < 4)
    ensures K.SkbBit(SKB, g, w, i, b)
  {
    hide SKB;
    hide Positions;
    hide SixBits;
    hide Bit;
    hide K.Taps;
    hide K.Tapped;
    hide K.Gathering;
    CodeBit(g, w, K.Gathering(i) + b);
    forall e | 0 <= e < 6
      ensures Positions(g)[e] == K.Gathering(i) + b <==> K.Taps(g)[e] == K.Tapped(i, b)
    {
      SameTap(g, i, b, e);
    }
  }
}
