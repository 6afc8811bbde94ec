/** The DES of crypt/des_impl.c is the DES of FIPS 46-3, for combined S-box tables that hold the S-boxes and P. */
module DesFips {
  import opened BitSeq
  import opened DesSpec
  import D = Des

  // ----- Words as bits -----

  function Bit(w: bv32, i: nat): bool
    requires i < 32
  {
    (w >> i) & 1 == 1
  }

  /** A half block after IP: its bits from the lowest up. */
  function HalfBits(w: bv32): Half { seq(32, n requires 0 <= n < 32 => Bit(w, n)) }

  /** A half block between the rounds, where it is kept rotated by one. */
  function RotBits(w: bv32): Half { seq(32, n requires 0 <= n < 32 => Bit(w, (n + 1) % 32)) }

  /** The 64 bits of a block as FIPS 46-3 numbers them: byte by byte, the highest bit of each first. */
  function BitsOf(x: D.Block): Block
  {
    seq(64, n requires 0 <= n < 64 => Bit(if n < 32 then x.l else x.r, BitPlace(n)))
  }

  function BitPlace(n: nat): (p: nat)
    requires n < 64
    ensures p < 32
  {
    8 * (n % 32 / 8) + 7 - n % 8
  }

  // ----- IP: the five exchanges move every bit to its place -----

  // The five exchanges written out, as what they assign.

  ghost predicate Stage4(x: D.Block, y: D.Block)
  {
    var t := ((x.r >> 4) ^ x.l) & 0x0f0f0f0f;
    y.l == x.l ^ t && y.r == x.r ^ (t << 4)
  }

  ghost predicate Stage16(x: D.Block, y: D.Block)
  {
    var t := ((x.l >> 16) ^ x.r) & 0x0000ffff;
    y.l == x.l ^ (t << 16) && y.r == x.r ^ t
  }

  ghost predicate Stage2(x: D.Block, y: D.Block)
  {
    var t := ((x.r >> 2) ^ x.l) & 0x33333333;
    y.l == x.l ^ t && y.r == x.r ^ (t << 2)
  }

  ghost predicate Stage8(x: D.Block, y: D.Block)
  {
    var t := ((x.l >> 8) ^ x.r) & 0x00ff00ff;
    y.l == x.l ^ (t << 8) && y.r == x.r ^ t
  }

  ghost predicate Stage1(x: D.Block, y: D.Block)
  {
    var t := ((x.r >> 1) ^ x.l) & 0x55555555;
    y.l == x.l ^ t && y.r == x.r ^ (t << 1)
  }

  ghost predicate Network(x: D.Block, a: D.Block, b: D.Block, c: D.Block, d: D.Block, y: D.Block)
  {
    Stage4(x, a) && Stage16(a, b) && Stage2(b, c) && Stage8(c, d) && Stage1(d, y)
  }

  lemma Op4(x: D.Block, y: D.Block)
    requires (y.r, y.l) == D.PermOp(x.r, x.l, 4, 0x0f0f0f0f)
    ensures Stage4(x, y)
  {
  }

  lemma Op16(x: D.Block, y: D.Block)
    requires (y.l, y.r) == D.PermOp(x.l, x.r, 16, 0x0000ffff)
    ensures Stage16(x, y)
  {
  }

  lemma Op2(x: D.Block, y: D.Block)
    requires (y.r, y.l) == D.PermOp(x.r, x.l, 2, 0x33333333)
    ensures Stage2(x, y)
  {
  }

  lemma Op8(x: D.Block, y: D.Block)
    requires (y.l, y.r) == D.PermOp(x.l, x.r, 8, 0x00ff00ff)
    ensures Stage8(x, y)
  {
  }

  lemma Op1(x: D.Block, y: D.Block)
    requires (y.r, y.l) == D.PermOp(x.r, x.l, 1, 0x55555555)
    ensures Stage1(x, y)
  {
  }

  lemma IpNetwork(x: D.Block) returns (a: D.Block, b: D.Block, c: D.Block, d: D.Block)
    ensures Network(x, a, b, c, d, D.Ip(x))
  {
    hide D.PermOp;
    hide Stage4;
    hide Stage16;
    hide Stage2;
    hide Stage8;
    hide Stage1;
    a := D.Exchange(x, 0);
    b := D.Exchange(a, 1);
    c := D.Exchange(b, 2);
    d := D.Exchange(c, 3);
    Op4(x, a);
    Op16(a, b);
    Op2(b, c);
    Op8(c, d);
    Op1(d, D.Exchange(d, 4));
  }

  /** Where bit 8r + j of the permuted block comes from, and where the words have it. */
  function Target(y: D.Block, r: nat, j: nat): bool
    requires r < 8 && j < 8
  {
    Bit(if r < 4 then y.r else y.l, 8 * (r % 4) + j)
  }

  function Origin(x: D.Block, r: nat, j: nat): bool
    requires r < 8 && j < 8
  {
    Bit(if j < 4 then x.r else x.l, OriginPlace(r, j))
  }

  function OriginPlace(r: nat, j: nat): (p: nat)
    requires r < 8 && j < 8
    ensures p < 32
  {
    8 * ((7 - j) % 4) + (if r < 4 then 6 - 2 * r else 15 - 2 * r)
  }

  /** The new right word, bit by bit. */
  lemma RightBits(x: D.Block, a: D.Block, b: D.Block, c: D.Block, d: D.Block, y: D.Block)
    requires Network(x, a, b, c, d, y)
    ensures Bit(y.r, 0) == Bit(x.r, 30) && Bit(y.r, 1) == Bit(x.r, 22) && Bit(y.r, 2) == Bit(x.r, 14)
    ensures Bit(y.r, 3) == Bit(x.r, 6)
    ensures Bit(y.r, 4) == Bit(x.l, 30) && Bit(y.r, 5) == Bit(x.l, 22) && Bit(y.r, 6) == Bit(x.l, 14)
    ensures Bit(y.r, 7) == Bit(x.l, 6)
    ensures Bit(y.r, 8) == Bit(x.r, 28) && Bit(y.r, 9) == Bit(x.r, 20) && Bit(y.r, 10) == Bit(x.r, 12)
    ensures Bit(y.r, 11) == Bit(x.r, 4)
    ensures Bit(y.r, 12) == Bit(x.l, 28) && Bit(y.r, 13) == Bit(x.l, 20) && Bit(y.r, 14) == Bit(x.l, 12)
    ensures Bit(y.r, 15) == Bit(x.l, 4)
    ensures Bit(y.r, 16) == Bit(x.r, 26) && Bit(y.r, 17) == Bit(x.r, 18) && Bit(y.r, 18) == Bit(x.r, 10)
    ensures Bit(y.r, 19) == Bit(x.r, 2)
    ensures Bit(y.r, 20) == Bit(x.l, 26) && Bit(y.r, 21) == Bit(x.l, 18) && Bit(y.r, 22) == Bit(x.l, 10)
    ensures Bit(y.r, 23) == Bit(x.l, 2)
    ensures Bit(y.r, 24) == Bit(x.r, 24) && Bit(y.r, 25) == Bit(x.r, 16) && Bit(y.r, 26) == Bit(x.r, 8)
    ensures Bit(y.r, 27) == Bit(x.r, 0)
    ensures Bit(y.r, 28) == Bit(x.l, 24) && Bit(y.r, 29) == Bit(x.l, 16) && Bit(y.r, 30) == Bit(x.l, 8)
    ensures Bit(y.r, 31) == Bit(x.l, 0)
  {
  }

  /** The new left word, bit by bit. */
  lemma LeftBits(x: D.Block, a: D.Block, b: D.Block, c: D.Block, d: D.Block, y: D.Block)
    requires Network(x, a, b, c, d, y)
    ensures Bit(y.l, 0) == Bit(x.r, 31) && Bit(y.l, 1) == Bit(x.r, 23) && Bit(y.l, 2) == Bit(x.r, 15)
    ensures Bit(y.l, 3) == Bit(x.r, 7)
    ensures Bit(y.l, 4) == Bit(x.l, 31) && Bit(y.l, 5) == Bit(x.l, 23) && Bit(y.l, 6) == Bit(x.l, 15)
    ensures Bit(y.l, 7) == Bit(x.l, 7)
    ensures Bit(y.l, 8) == Bit(x.r, 29) && Bit(y.l, 9) == Bit(x.r, 21) && Bit(y.l, 10) == Bit(x.r, 13)
    ensures Bit(y.l, 11) == Bit(x.r, 5)
    ensures Bit(y.l, 12) == Bit(x.l, 29) && Bit(y.l, 13) == Bit(x.l, 21) && Bit(y.l, 14) == Bit(x.l, 13)
    ensures Bit(y.l, 15) == Bit(x.l, 5)
    ensures Bit(y.l, 16) == Bit(x.r, 27) && Bit(y.l, 17) == Bit(x.r, 19) && Bit(y.l, 18) == Bit(x.r, 11)
    ensures Bit(y.l, 19) == Bit(x.r, 3)
    ensures Bit(y.l, 20) == Bit(x.l, 27) && Bit(y.l, 21) == Bit(x.l, 19) && Bit(y.l, 22) == Bit(x.l, 11)
    ensures Bit(y.l, 23) == Bit(x.l, 3)
    ensures Bit(y.l, 24) == Bit(x.r, 25) && Bit(y.l, 25) == Bit(x.r, 17) && Bit(y.l, 26) == Bit(x.r, 9)
    ensures Bit(y.l, 27) == Bit(x.r, 1)
    ensures Bit(y.l, 28) == Bit(x.l, 25) && Bit(y.l, 29) == Bit(x.l, 17) && Bit(y.l, 30) == Bit(x.l, 9)
    ensures Bit(y.l, 31) == Bit(x.l, 1)
  {
  }

  /** Eight bits of w from place k up are the bits at place p of eight bytes, from the last byte on. */
  predicate Octet(w: bv32, k: nat, l: bv32, r: bv32, p: nat)
    requires k <= 24 && p < 8
  {
    && Bit(w, k) == Bit(r, 24 + p) && Bit(w, k + 1) == Bit(r, 16 + p)
    && Bit(w, k + 2) == Bit(r, 8 + p) && Bit(w, k + 3) == Bit(r, p)
    && Bit(w, k + 4) == Bit(l, 24 + p) && Bit(w, k + 5) == Bit(l, 16 + p)
    && Bit(w, k + 6) == Bit(l, 8 + p) && Bit(w, k + 7) == Bit(l, p)
  }

  lemma RightLow(x: D.Block, a: D.Block, b: D.Block, c: D.Block, d: D.Block, y: D.Block)
    requires Network(x, a, b, c, d, y)
    ensures Octet(y.r, 0, x.l, x.r, 6) && Octet(y.r, 8, x.l, x.r, 4)
  {
    hide Bit;
    hide Network;
    RightBits(x, a, b, c, d, y);
  }

  lemma RightHigh(x: D.Block, a: D.Block, b: D.Block, c: D.Block, d: D.Block, y: D.Block)
    requires Network(x, a, b, c, d, y)
    ensures Octet(y.r, 16, x.l, x.r, 2) && Octet(y.r, 24, x.l, x.r, 0)
  {
    hide Bit;
    hide Network;
    RightBits(x, a, b, c, d, y);
  }

  lemma LeftLow(x: D.Block, a: D.Block, b: D.Block, c: D.Block, d: D.Block, y: D.Block)
    requires Network(x, a, b, c, d, y)
    ensures Octet(y.l, 0, x.l, x.r, 7) && Octet(y.l, 8, x.l, x.r, 5)
  {
    hide Bit;
    hide Network;
    LeftBits(x, a, b, c, d, y);
  }

  lemma LeftHigh(x: D.Block, a: D.Block, b: D.Block, c: D.Block, d: D.Block, y: D.Block)
    requires Network(x, a, b, c, d, y)
    ensures Octet(y.l, 16, x.l, x.r, 3) && Octet(y.l, 24, x.l, x.r, 1)
  {
    hide Bit;
    hide Network;
    LeftBits(x, a, b, c, d, y);
  }

  lemma RowMoves(x: D.Block, r: nat)
    requires r < 8
    ensures Octet(if r < 4 then D.Ip(x).r else D.Ip(x).l, 8 * (r % 4), x.l, x.r,
                  if r < 4 then 6 - 2 * r else 15 - 2 * r)
  {
    hide *;
    var a, b, c, d := IpNetwork(x);
    RightLow(x, a, b, c, d, D.Ip(x));
    RightHigh(x, a, b, c, d, D.Ip(x));
    LeftLow(x, a, b, c, d, D.Ip(x));
    LeftHigh(x, a, b, c, d, D.Ip(x));
    if r == 0 {} else if r == 1 {} else if r == 2 {} else if r == 3 {} else if r == 4 {}
    else if r == 5 {} else if r == 6 {} else {}
  }

  lemma OctetAt(w: bv32, k: nat, l: bv32, r: bv32, p: nat, j: nat)
    requires k <= 24 && p < 8 && j < 8 && Octet(w, k, l, r, p)
    ensures Bit(w, k + j) == Bit(if j < 4 then r else l, 8 * ((7 - j) % 4) + p)
  {
    hide Bit;
    if j == 0 {} else if j == 1 {} else if j == 2 {} else if j == 3 {} else if j == 4 {}
    else if j == 5 {} else if j == 6 {} else {}
  }

  lemma IpBit(x: D.Block, r: nat, j: nat)
    requires r < 8 && j < 8
    ensures Target(D.Ip(x), r, j) == Origin(x, r, j)
  {
    hide Bit;
    hide Octet;
    hide D.Ip;
    RowMoves(x, r);
    OctetAt(if r < 4 then D.Ip(x).r else D.Ip(x).l, 8 * (r % 4), x.l, x.r, if r < 4 then 6 - 2 * r else 15 - 2 * r, j);
  }

  /** The exchanges are IP, the right word holding the left half. */
  lemma IpIs(x: D.Block)
    ensures |INITIAL_PERM| == 64 && ValidTable(INITIAL_PERM, 64)
    ensures HalfBits(D.Ip(x).r) + HalfBits(D.Ip(x).l) == Select(BitsOf(x), INITIAL_PERM)
  {
    InitialPermValid();
    hide INITIAL_PERM;
    hide Bit;
    hide D.Ip;
    hide IpAt;
    hide BitPlace;
    hide OriginPlace;
    var y := D.Ip(x);
    forall n | 0 <= n < 64
      ensures (HalfBits(y.r) + HalfBits(y.l))[n] == Select(BitsOf(x), INITIAL_PERM)[n]
    {
      var r, j := n / 8, n % 8;
      IpRow(r, j);
      IpBit(x, r, j);
      PlaceOf(r, j);
    }
  }

  /** The place of the input bit that IP puts at row r, column j. */
  lemma PlaceOf(r: nat, j: nat)
    requires r < 8 && j < 8
    ensures 0 <= IpAt(r, j) - 1 < 64 && (IpAt(r, j) - 1 < 32 <==> j >= 4)
    ensures BitPlace(IpAt(r, j) - 1) == OriginPlace(r, j)
  {
    var k := if r < 4 then 1 + 2 * r else 2 * r - 8;
    assert IpAt(r, j) - 1 == 8 * (7 - j) + k;
    EighthOf(7 - j, k);
  }

  lemma EighthOf(q: nat, k: nat)
    requires q < 8 && k < 8
    ensures BitPlace(8 * q + k) == 8 * (q % 4) + 7 - k
  {
    var n := 8 * q + k;
    assert n % 8 == k && n / 8 == q;
    Wrapped(n, q);
  }

  /** Bytes of a word, counted within the word. */
  lemma Wrapped(n: nat, q: nat)
    requires q < 8 && n / 8 == q
    ensures n % 32 / 8 == q % 4
  {
    assert n % 32 == if q < 4 then n else n - 32;
  }

  // ----- The cipher function -----

  /** The six lowest bits, the lowest first. */
  function SixBits(w: bv32): (v: BitStr)
    ensures |v| == 6
  {
    [Bit(w, 0), Bit(w, 1), Bit(w, 2), Bit(w, 3), Bit(w, 4), Bit(w, 5)]
  }

  /** Four bits at the place of S-box i. */
  function Placed(i: nat, y: BitStr): (x: BitStr)
    requires i < 8 && |y| == 4
    ensures |x| == 32
  {
    seq(32, n requires 0 <= n < 32 => n / 4 == i && y[n % 4])
  }

  /** What the combined tables hold: for six input bits, the S-box output sent through P, rotated by one. */
  ghost predicate SpHolds(sp: D.SpTables, sbox: SBoxes)
  {
    && ValidSBoxes(sbox)
    && forall i: nat, w: bv32 {:trigger sp[i][D.Low6(w)]} :: i < 8 ==>
         RotBits(sp[i][D.Low6(w)]) == P32(Placed(i, SBoxOut(sbox, i, SixBits(w))))
  }

  /** Two key words for a round key: six bits at a time, for the even S-boxes in one and the odd ones in the other. */
  ghost predicate KeyPair(s0: bv32, s1: bv32, k: Key48)
  {
    forall i: nat, b: nat :: i < 8 && b < 6 ==> KeyBit(s0, s1, k, i, b)
  }

  ghost predicate KeyBit(s0: bv32, s1: bv32, k: Key48, i: nat, b: nat)
    requires i < 8 && b < 6
  {
    Bit(if i % 2 == 0 then s0 else s1, (4 * i + b) % 32) == k[6 * i + b]
  }

  /** The data under the key, brought to the lowest bits for S-box i as D_ENCRYPT does it. */
  function IndexWord(v: bv32, i: nat): bv32
    requires i < 8
  {
    if i == 0 then v >> 0 else if i == 2 then v >> 8 else if i == 4 then v >> 16 else if i == 6 then v >> 24
    else if i == 1 then D.RotR4(v) >> 0 else if i == 3 then D.RotR4(v) >> 8
    else if i == 5 then D.RotR4(v) >> 16 else D.RotR4(v) >> 24
  }

  lemma IndexRow0(v: bv32, w: bv32)
    requires w == v >> 0
    ensures Bit(w, 0) == Bit(v, 0) && Bit(w, 1) == Bit(v, 1) && Bit(w, 2) == Bit(v, 2)
    ensures Bit(w, 3) == Bit(v, 3) && Bit(w, 4) == Bit(v, 4) && Bit(w, 5) == Bit(v, 5)
  {
  }

  lemma IndexRow1(v: bv32, w: bv32)
    requires w == D.RotR4(v) >> 0
    ensures Bit(w, 0) == Bit(v, 4) && Bit(w, 1) == Bit(v, 5) && Bit(w, 2) == Bit(v, 6)
    ensures Bit(w, 3) == Bit(v, 7) && Bit(w, 4) == Bit(v, 8) && Bit(w, 5) == Bit(v, 9)
  {
  }

  lemma IndexRow2(v: bv32, w: bv32)
    requires w == v >> 8
    ensures Bit(w, 0) == Bit(v, 8) && Bit(w, 1) == Bit(v, 9) && Bit(w, 2) == Bit(v, 10)
    ensures Bit(w, 3) == Bit(v, 11) && Bit(w, 4) == Bit(v, 12) && Bit(w, 5) == Bit(v, 13)
  {
  }

  lemma IndexRow3(v: bv32, w: bv32)
    requires w == D.RotR4(v) >> 8
    ensures Bit(w, 0) == Bit(v, 12) && Bit(w, 1) == Bit(v, 13) && Bit(w, 2) == Bit(v, 14)
    ensures Bit(w, 3) == Bit(v, 15) && Bit(w, 4) == Bit(v, 16) && Bit(w, 5) == Bit(v, 17)
  {
  }

  lemma IndexRow4(v: bv32, w: bv32)
    requires w == v >> 16
    ensures Bit(w, 0) == Bit(v, 16) && Bit(w, 1) == Bit(v, 17) && Bit(w, 2) == Bit(v, 18)
    ensures Bit(w, 3) == Bit(v, 19) && Bit(w, 4) == Bit(v, 20) && Bit(w, 5) == Bit(v, 21)
  {
  }

  lemma IndexRow5(v: bv32, w: bv32)
    requires w == D.RotR4(v) >> 16
    ensures Bit(w, 0) == Bit(v, 20) && Bit(w, 1) == Bit(v, 21) && Bit(w, 2) == Bit(v, 22)
    ensures Bit(w, 3) == Bit(v, 23) && Bit(w, 4) == Bit(v, 24) && Bit(w, 5) == Bit(v, 25)
  {
  }

  lemma IndexRow6(v: bv32, w: bv32)
    requires w == v >> 24
    ensures Bit(w, 0) == Bit(v, 24) && Bit(w, 1) == Bit(v, 25) && Bit(w, 2) == Bit(v, 26)
    ensures Bit(w, 3) == Bit(v, 27) && Bit(w, 4) == Bit(v, 28) && Bit(w, 5) == Bit(v, 29)
  {
  }

  lemma IndexRow7(v: bv32, w: bv32)
    requires w == D.RotR4(v) >> 24
    ensures Bit(w, 0) == Bit(v, 28) && Bit(w, 1) == Bit(v, 29) && Bit(w, 2) == Bit(v, 30)
    ensures Bit(w, 3) == Bit(v, 31) && Bit(w, 4) == Bit(v, 0) && Bit(w, 5) == Bit(v, 1)
  {
  }

  /** The bits of the data that S-box i looks at. */
  function Taken(v: bv32, i: nat): BitStr
    requires i < 8
  {
    seq(6, b requires 0 <= b < 6 => Bit(v, (4 * i + b) % 32))
  }

  lemma SixAre(w: bv32, y: BitStr)
    requires |y| == 6 && Bit(w, 0) == y[0] && Bit(w, 1) == y[1] && Bit(w, 2) == y[2]
    requires Bit(w, 3) == y[3] && Bit(w, 4) == y[4] && Bit(w, 5) == y[5]
    ensures SixBits(w) == y
  {
    hide Bit;
  }

  lemma IndexBits(v: bv32, i: nat)
    requires i < 8
    ensures SixBits(IndexWord(v, i)) == Taken(v, i)
  {
    hide Bit;
    hide SixBits;
    hide D.RotR4;
    var w := IndexWord(v, i);
    if i == 0 {
      IndexRow0(v, w);
    } else if i == 1 {
      IndexRow1(v, w);
    } else if i == 2 {
      IndexRow2(v, w);
    } else if i == 3 {
      IndexRow3(v, w);
    } else if i == 4 {
      IndexRow4(v, w);
    } else if i == 5 {
      IndexRow5(v, w);
    } else if i == 6 {
      IndexRow6(v, w);
    } else {
      IndexRow7(v, w);
    }
    SixAre(w, Taken(v, i));
  }

  lemma XorShift(a: bv32, b: bv32, p: nat)
    requires p < 32
    ensures ((a ^ b) >> p) & 1 == ((a >> p) & 1) ^ ((b >> p) & 1)
  {
  }

  lemma XorLow(x: bv32, y: bv32, z: bv32)
    requires z & 1 == (x & 1) ^ (y & 1)
    ensures (z & 1 == 1) == ((x & 1 == 1) != (y & 1 == 1))
  {
  }

  lemma XorBit(a: bv32, b: bv32, p: nat)
    requires p < 32
    ensures Bit(D.Xor(a, b), p) == (Bit(a, p) != Bit(b, p))
  {
    XorShift(a, b, p);
    XorLow(a >> p, b >> p, (a ^ b) >> p);
  }

  lemma OrShift(a: bv32, b: bv32, p: nat)
    requires p < 32
    ensures ((a | b) >> p) & 1 == ((a >> p) & 1) | ((b >> p) & 1)
  {
  }

  lemma OrLow(x: bv32, y: bv32, z: bv32)
    requires z & 1 == (x & 1) | (y & 1)
    ensures (z & 1 == 1) == ((x & 1 == 1) || (y & 1 == 1))
  {
  }

  lemma OrBit(a: bv32, b: bv32, p: nat)
    requires p < 32
    ensures Bit(D.Or(a, b), p) == (Bit(a, p) || Bit(b, p))
  {
    OrShift(a, b, p);
    OrLow(a >> p, b >> p, (a | b) >> p);
  }

  /** S-box i gets the six bits of key and expanded data that the standard gives it. */
  lemma SboxInput(w: bv32, s0: bv32, s1: bv32, r: Half, k: Key48, i: nat)
    requires i < 8 && RotBits(w) == r && KeyPair(s0, s1, k)
    ensures SixBits(IndexWord(D.Xor(w, if i % 2 == 0 then s0 else s1), i)) == BitSeq.Xor(k, E(r))[6 * i..6 * i + 6]
  {
    hide Bit;
    hide IndexWord;
    hide SixBits;
    hide D.Xor;
    hide E;
    var s := if i % 2 == 0 then s0 else s1;
    var v := D.Xor(w, s);
    var x := BitSeq.Xor(k, E(r));
    forall b | 0 <= b < 6
      ensures SixBits(IndexWord(v, i))[b] == x[6 * i..6 * i + 6][b]
    {
      IndexBits(v, i);
      XorBit(w, s, (4 * i + b) % 32);
      Expansion(r, i, b);
      Unrotated(w, r, (4 * i + b) % 32);
      assert KeyBit(s0, s1, k, i, b);
    }
  }

  /** Bit b of the six that E gives S-box i. */
  lemma Expansion(r: Half, i: nat, b: nat)
    requires i < 8 && b < 6
    ensures E(r)[6 * i + b] == r[((4 * i + b) % 32 + 31) % 32]
  {
    EselValid();
    hide ESEL;
    EselRow(i, b);
    Cyclic(4 * i + b);
  }

  lemma Cyclic(n: nat)
    requires n <= 33
    ensures (n % 32 + 31) % 32 == (if n == 0 then 32 else if n == 33 then 1 else n) - 1
  {
  }

  lemma Unrotated(w: bv32, r: Half, p: nat)
    requires RotBits(w) == r && p < 32
    ensures Bit(w, p) == r[(p + 31) % 32]
  {
    hide Bit;
    assert ((p + 31) % 32 + 1) % 32 == p;
  }

  /** The table entry that D_ENCRYPT takes for S-box i. */
  function EntryFor(sp: D.SpTables, u: bv32, v: bv32, i: nat): bv32
    requires i < 8
  {
    sp[i][D.Low6(IndexWord(if i % 2 == 0 then u else v, i))]
  }

  /** All eight entries, or-ed in the order of D_ENCRYPT. */
  function AllEntries(sp: D.SpTables, u: bv32, v: bv32): bv32
  {
    OrEight(EntryFor(sp, u, v, 1), EntryFor(sp, u, v, 3), EntryFor(sp, u, v, 5), EntryFor(sp, u, v, 7),
            EntryFor(sp, u, v, 0), EntryFor(sp, u, v, 2), EntryFor(sp, u, v, 4), EntryFor(sp, u, v, 6))
  }

  function OrEight(a: bv32, b: bv32, c: bv32, d: bv32, e: bv32, f: bv32, g: bv32, h: bv32): bv32
  {
    D.Or(D.Or(D.Or(D.Or(D.Or(D.Or(D.Or(a, b), c), d), e), f), g), h)
  }

  lemma EvenIndex(u: bv32)
    ensures D.Six(u, 0) == D.Low6(IndexWord(u, 0)) && D.Six(u, 8) == D.Low6(IndexWord(u, 2))
    ensures D.Six(u, 16) == D.Low6(IndexWord(u, 4)) && D.Six(u, 24) == D.Low6(IndexWord(u, 6))
  {
    hide D.Low6;
  }

  lemma OddIndex(v: bv32)
    ensures D.Six(D.RotR4(v), 0) == D.Low6(IndexWord(v, 1)) && D.Six(D.RotR4(v), 8) == D.Low6(IndexWord(v, 3))
    ensures D.Six(D.RotR4(v), 16) == D.Low6(IndexWord(v, 5)) && D.Six(D.RotR4(v), 24) == D.Low6(IndexWord(v, 7))
  {
    hide D.Low6;
    hide D.RotR4;
  }

  lemma FIsOr(sp: D.SpTables, s: D.Schedule, w: bv32, k: nat)
    requires k < 31
    ensures D.F(sp, s, w, k) == AllEntries(sp, D.Xor(w, s[k]), D.Xor(w, s[k + 1]))
  {
    hide D.Six;
    hide D.Low6;
    hide IndexWord;
    hide D.RotR4;
    hide D.Or;
    hide D.Xor;
    EvenIndex(D.Xor(w, s[k]));
    OddIndex(D.Xor(w, s[k + 1]));
  }

  lemma OrEightBit(a: bv32, b: bv32, c: bv32, d: bv32, e: bv32, f: bv32, g: bv32, h: bv32, p: nat)
    requires p < 32
    ensures Bit(OrEight(a, b, c, d, e, f, g, h), p)
         == (Bit(a, p) || Bit(b, p) || Bit(c, p) || Bit(d, p) || Bit(e, p) || Bit(f, p) || Bit(g, p) || Bit(h, p))
  {
    hide Bit;
    hide D.Or;
    var x := D.Or(a, b);
    OrBit(a, b, p);
    OrBit(x, c, p);
    x := D.Or(x, c);
    OrBit(x, d, p);
    x := D.Or(x, d);
    OrBit(x, e, p);
    x := D.Or(x, e);
    OrBit(x, f, p);
    x := D.Or(x, f);
    OrBit(x, g, p);
    OrBit(D.Or(x, g), h, p);
  }

  /** The entry for S-box i has its four output bits, through P, and nothing else. */
  lemma EntryBit(sp: D.SpTables, sbox: SBoxes, u: bv32, v: bv32, x: BitStr, i: nat, n: nat)
    requires SpHolds(sp, sbox) && i < 8 && n < 32 && |x| == 48
    requires SixBits(IndexWord(if i % 2 == 0 then u else v, i)) == x[6 * i..6 * i + 6]
    ensures |PERM32| == 32 && 1 <= PERM32[n] <= 32
    ensures Bit(EntryFor(sp, u, v, i), (n + 1) % 32) == ((PERM32[n] - 1) / 4 == i && S(sbox, x)[PERM32[n] - 1])
  {
    Perm32Valid();
    hide PERM32;
    hide Bit;
    hide SBoxOut;
    hide IndexWord;
    hide SixBits;
    hide ValidSBoxes;
    var w := IndexWord(if i % 2 == 0 then u else v, i);
    assert RotBits(sp[i][D.Low6(w)]) == P32(Placed(i, SBoxOut(sbox, i, SixBits(w))));
    assert Bit(EntryFor(sp, u, v, i), (n + 1) % 32) == RotBits(sp[i][D.Low6(w)])[n];
  }

  /** D_ENCRYPT computes the cipher function f. */
  lemma FIs(sp: D.SpTables, sbox: SBoxes, s: D.Schedule, w: bv32, j: nat, k: Key48)
    requires SpHolds(sp, sbox) && j < 31 && KeyPair(s[j], s[j + 1], k)
    ensures ValidSBoxes(sbox) && RotBits(D.F(sp, s, w, j)) == F(sbox, Zeros(24), RotBits(w), k)
  {
    hide *;
    var r := RotBits(w);
    var u, v, x := D.Xor(w, s[j]), D.Xor(w, s[j + 1]), BitSeq.Xor(k, E(r));
    UnsaltedE(r);
    FIsOr(sp, s, w, j);
    forall i | 0 <= i < 8
      ensures SixBits(IndexWord(if i % 2 == 0 then u else v, i)) == x[6 * i..6 * i + 6]
    {
      SboxInput(w, s[j], s[j + 1], r, k, i);
    }
    FBits(sp, sbox, u, v, x);
    FUnfolds(sbox, r, k, x);
  }

  lemma FUnfolds(sbox: SBoxes, r: Half, k: Key48, x: BitStr)
    requires ValidSBoxes(sbox) && SaltedE(r, Zeros(24)) == E(r) && x == BitSeq.Xor(k, E(r))
    ensures F(sbox, Zeros(24), r, k) == P32(S(sbox, x))
  {
  }

  lemma FBits(sp: D.SpTables, sbox: SBoxes, u: bv32, v: bv32, x: BitStr)
    requires SpHolds(sp, sbox) && |x| == 48
    requires forall i :: 0 <= i < 8 ==> SixBits(IndexWord(if i % 2 == 0 then u else v, i)) == x[6 * i..6 * i + 6]
    ensures ValidSBoxes(sbox) && RotBits(AllEntries(sp, u, v)) == P32(S(sbox, x))
  {
    Perm32Valid();
    hide PERM32;
    hide Bit;
    hide EntryFor;
    hide S;
    hide IndexWord;
    hide SixBits;
    hide OrEight;
    forall n | 0 <= n < 32
      ensures RotBits(AllEntries(sp, u, v))[n] == P32(S(sbox, x))[n]
    {
      FBit(sp, sbox, u, v, x, n);
    }
  }

  lemma FBit(sp: D.SpTables, sbox: SBoxes, u: bv32, v: bv32, x: BitStr, n: nat)
    requires SpHolds(sp, sbox) && |x| == 48 && n < 32
    requires forall i :: 0 <= i < 8 ==> SixBits(IndexWord(if i % 2 == 0 then u else v, i)) == x[6 * i..6 * i + 6]
    ensures ValidSBoxes(sbox) && |PERM32| == 32 && 1 <= PERM32[n] <= 32
    ensures Bit(AllEntries(sp, u, v), (n + 1) % 32) == S(sbox, x)[PERM32[n] - 1]
  {
    Perm32Valid();
    hide PERM32;
    hide Bit;
    hide EntryFor;
    hide S;
    hide IndexWord;
    hide SixBits;
    hide OrEight;
    EntryBit(sp, sbox, u, v, x, 0, n);
    EntryBit(sp, sbox, u, v, x, 1, n);
    EntryBit(sp, sbox, u, v, x, 2, n);
    EntryBit(sp, sbox, u, v, x, 3, n);
    EntryBit(sp, sbox, u, v, x, 4, n);
    EntryBit(sp, sbox, u, v, x, 5, n);
    EntryBit(sp, sbox, u, v, x, 6, n);
    EntryBit(sp, sbox, u, v, x, 7, n);
    OrEightBit(EntryFor(sp, u, v, 1), EntryFor(sp, u, v, 3), EntryFor(sp, u, v, 5), EntryFor(sp, u, v, 7),
               EntryFor(sp, u, v, 0), EntryFor(sp, u, v, 2), EntryFor(sp, u, v, 4), EntryFor(sp, u, v, 6),
               (n + 1) % 32);
  }

  // ----- Rounds -----

  /** The word-level halves hold the halves of the standard. */
  predicate Represents(x: D.Block, h: Halves) { RotBits(x.l) == h.l && RotBits(x.r) == h.r }

  /** The 32 words hold the sixteen round keys. */
  ghost predicate Holds(s: D.Schedule, ks: seq<Key48>)
  {
    |ks| == 16 && forall m: nat :: m < 16 ==> PairAt(s, ks, m)
  }

  ghost predicate PairAt(s: D.Schedule, ks: seq<Key48>, m: nat)
    requires m < 16 == |ks|
  {
    KeyPair(s[2 * m], s[2 * m + 1], ks[m])
  }

  lemma RotXor(a: bv32, b: bv32)
    ensures RotBits(D.Xor(a, b)) == BitSeq.Xor(RotBits(a), RotBits(b))
  {
    hide Bit;
    forall n | 0 <= n < 32
      ensures RotBits(D.Xor(a, b))[n] == BitSeq.Xor(RotBits(a), RotBits(b))[n]
    {
      XorBit(a, b, (n + 1) % 32);
    }
  }

  /** One use of D_ENCRYPT is one round of the standard, the halves not yet exchanged. */
  lemma RoundIs(sp: D.SpTables, c: Cipher, s: D.Schedule, ks: seq<Key48>, l: bv32, h: Halves, r: bv32, m: nat)
    requires SpHolds(sp, c.sbox) && c.salt == Zeros(24) && Holds(s, ks) && m < 16
    requires RotBits(l) == h.l && RotBits(r) == h.r
    ensures c.Valid() && c.Round(h, ks[m]) == Halves(h.r, RotBits(D.Xor(l, D.F(sp, s, r, 2 * m))))
  {
    assert PairAt(s, ks, m);
    hide RotBits;
    hide D.Xor;
    hide D.F;
    hide F;
    hide KeyPair;
    hide SpHolds;
    FIs(sp, c.sbox, s, r, 2 * m, ks[m]);
    RotXor(l, D.F(sp, s, r, 2 * m));
  }

  /** Two word-level rounds are two rounds of the standard. */
  lemma TwoRoundsAre(sp: D.SpTables, c: Cipher, s: D.Schedule, ks: seq<Key48>, x: D.Block, h: Halves, m: nat, m': nat)
    requires SpHolds(sp, c.sbox) && c.salt == Zeros(24) && Holds(s, ks) && Represents(x, h) && m < 16 && m' < 16
    ensures c.Valid() && Represents(D.TwoRounds(sp, s, x, 2 * m, 2 * m'), TwoOf(c, h, ks[m], ks[m']))
  {
    hide RotBits;
    hide D.Xor;
    hide D.F;
    hide F;
    hide SpHolds;
    hide c.Round;
    assert |ks| == 16;
    hide Holds;
    var l := D.Xor(x.l, D.F(sp, s, x.r, 2 * m));
    RoundIs(sp, c, s, ks, x.l, h, x.r, m);
    RoundIs(sp, c, s, ks, x.r, c.Round(h, ks[m]), l, m');
  }

  /** Two rounds of the standard, after which the halves are back in their places. */
  function TwoOf(c: Cipher, h: Halves, k: Key48, k': Key48): Halves
    requires c.Valid()
  {
    c.Round(c.Round(h, k), k')
  }

  lemma RoundsTwo(c: Cipher, h: Halves, ks: seq<Key48>, n: nat)
    requires c.Valid() && n + 2 <= |ks|
    ensures c.Rounds(h, ks[..n + 2]) == TwoOf(c, c.Rounds(h, ks[..n]), ks[n], ks[n + 1])
  {
    hide c.Round;
    assert ks[..n + 2][..n + 1] == ks[..n + 1];
    assert ks[..n + 1][..n] == ks[..n];
  }

  lemma {:induction false} RisingIs(sp: D.SpTables, c: Cipher, s: D.Schedule, ks: seq<Key48>, x: D.Block, h: Halves,
                                    n: nat)
    requires SpHolds(sp, c.sbox) && c.salt == Zeros(24) && Holds(s, ks) && Represents(x, h) && n <= 8
    ensures c.Valid() && |ks| == 16 && Represents(D.Rising(sp, s, x, n), c.Rounds(h, ks[..2 * n]))
  {
    hide D.TwoRounds;
    hide TwoOf;
    hide Represents;
    hide SpHolds;
    ValidCipher(sp, c);
    if n > 0 {
      RisingIs(sp, c, s, ks, x, h, n - 1);
      TwoRoundsAre(sp, c, s, ks, D.Rising(sp, s, x, n - 1), c.Rounds(h, ks[..2 * (n - 1)]), 2 * n - 2, 2 * n - 1);
      RoundsTwo(c, h, ks, 2 * (n - 1));
    }
  }

  lemma {:induction false} FallingIs(sp: D.SpTables, c: Cipher, s: D.Schedule, ks: seq<Key48>, x: D.Block, h: Halves,
                                     n: nat)
    requires SpHolds(sp, c.sbox) && c.salt == Zeros(24) && Holds(s, ks) && Represents(x, h) && n <= 8
    ensures c.Valid() && |ks| == 16 && Represents(D.Falling(sp, s, x, n), c.Rounds(h, Reverse(ks)[..2 * n]))
  {
    hide D.TwoRounds;
    hide TwoOf;
    hide Represents;
    hide SpHolds;
    ValidCipher(sp, c);
    if n > 0 {
      FallingIs(sp, c, s, ks, x, h, n - 1);
      TwoRoundsAre(sp, c, s, ks, D.Falling(sp, s, x, n - 1), c.Rounds(h, Reverse(ks)[..2 * (n - 1)]), 17 - 2 * n,
                   16 - 2 * n);
      RoundsTwo(c, h, Reverse(ks), 2 * (n - 1));
    }
  }

  lemma ValidCipher(sp: D.SpTables, c: Cipher)
    requires SpHolds(sp, c.sbox) && c.salt == Zeros(24)
    ensures c.Valid()
  {
  }

  // ----- The rotation between IP and the rounds -----

  lemma RolRow0(w: bv32, c: bv32)
    requires c == D.RolL1(w)
    ensures Bit(c, 1) == Bit(w, 0) && Bit(c, 2) == Bit(w, 1) && Bit(c, 3) == Bit(w, 2) && Bit(c, 4) == Bit(w, 3)
    ensures Bit(c, 5) == Bit(w, 4) && Bit(c, 6) == Bit(w, 5) && Bit(c, 7) == Bit(w, 6) && Bit(c, 8) == Bit(w, 7)
  {
  }

  lemma RolRow1(w: bv32, c: bv32)
    requires c == D.RolL1(w)
    ensures Bit(c, 9) == Bit(w, 8) && Bit(c, 10) == Bit(w, 9) && Bit(c, 11) == Bit(w, 10) && Bit(c, 12) == Bit(w, 11)
    ensures Bit(c, 13) == Bit(w, 12) && Bit(c, 14) == Bit(w, 13) && Bit(c, 15) == Bit(w, 14) && Bit(c, 16) == Bit(w, 15)
  {
  }

  lemma RolRow2(w: bv32, c: bv32)
    requires c == D.RolL1(w)
    ensures Bit(c, 17) == Bit(w, 16) && Bit(c, 18) == Bit(w, 17) && Bit(c, 19) == Bit(w, 18) && Bit(c, 20) == Bit(w, 19)
    ensures Bit(c, 21) == Bit(w, 20) && Bit(c, 22) == Bit(w, 21) && Bit(c, 23) == Bit(w, 22) && Bit(c, 24) == Bit(w, 23)
  {
  }

  lemma RolRow3(w: bv32, c: bv32)
    requires c == D.RolL1(w)
    ensures Bit(c, 25) == Bit(w, 24) && Bit(c, 26) == Bit(w, 25) && Bit(c, 27) == Bit(w, 26) && Bit(c, 28) == Bit(w, 27)
    ensures Bit(c, 29) == Bit(w, 28) && Bit(c, 30) == Bit(w, 29) && Bit(c, 31) == Bit(w, 30) && Bit(c, 0) == Bit(w, 31)
  {
  }

  lemma RolBit(w: bv32, n: nat)
    requires n < 32
    ensures Bit(D.RolL1(w), (n + 1) % 32) == Bit(w, n)
  {
    hide *;
    var c := D.RolL1(w);
    RolRow0(w, c);
    RolRow1(w, c);
    RolRow2(w, c);
    RolRow3(w, c);
    if n < 8 {
      if n == 0 {} else if n == 1 {} else if n == 2 {} else if n == 3 {} else if n == 4 {}
      else if n == 5 {} else if n == 6 {} else {}
    } else if n < 16 {
      if n == 8 {} else if n == 9 {} else if n == 10 {} else if n == 11 {} else if n == 12 {}
      else if n == 13 {} else if n == 14 {} else {}
    } else if n < 24 {
      if n == 16 {} else if n == 17 {} else if n == 18 {} else if n == 19 {} else if n == 20 {}
      else if n == 21 {} else if n == 22 {} else {}
    } else {
      if n == 24 {} else if n == 25 {} else if n == 26 {} else if n == 27 {} else if n == 28 {}
      else if n == 29 {} else if n == 30 {} else {}
    }
  }

  lemma RotRol(w: bv32)
    ensures RotBits(D.RolL1(w)) == HalfBits(w) && HalfBits(D.RorL1(w)) == RotBits(w)
  {
    hide Bit;
    D.RotateBack(w);
    hide D.RolL1;
    hide D.RorL1;
    forall n | 0 <= n < 32
      ensures RotBits(D.RolL1(w))[n] == HalfBits(w)[n] && HalfBits(D.RorL1(w))[n] == RotBits(w)[n]
    {
      RolBit(w, n);
      RolBit(D.RorL1(w), n);
    }
  }

  // ----- The whole cipher -----

  /** For tables and a schedule that hold S-boxes and round keys, `des_encrypt` is FIPS 46-3 in either direction. */
  lemma CryptIs(sp: D.SpTables, sbox: SBoxes, s: D.Schedule, ks: seq<Key48>, x: D.Block, encrypt: bool)
    requires SpHolds(sp, sbox) && Holds(s, ks)
    ensures ValidSBoxes(sbox)
    ensures BitsOf(D.Crypt(sp, s, x, encrypt))
        == Cipher(sbox, Zeros(24)).Encipher(BitsOf(x), if encrypt then ks else Reverse(ks))
  {
    hide *;
    var c := Cipher(sbox, Zeros(24));
    ValidCipher(sp, c);
    var h := Halves(HalfBits(D.Ip(x).r), HalfBits(D.Ip(x).l));
    StartIs(x);
    IpIs(x);
    CryptUnfolds(sp, s, x, encrypt);
    if encrypt {
      RisingIs(sp, c, s, ks, D.Start(x), h, 8);
      assert ks[..16] == ks;
      FinishIs(D.Rising(sp, s, D.Start(x), 8), c.Rounds(h, ks));
      EncipherIs(c, BitsOf(x), h, ks);
    } else {
      FallingIs(sp, c, s, ks, D.Start(x), h, 8);
      assert Reverse(ks)[..16] == Reverse(ks);
      FinishIs(D.Falling(sp, s, D.Start(x), 8), c.Rounds(h, Reverse(ks)));
      EncipherIs(c, BitsOf(x), h, Reverse(ks));
    }
  }

  lemma CryptUnfolds(sp: D.SpTables, s: D.Schedule, x: D.Block, encrypt: bool)
    ensures D.Crypt(sp, s, x, encrypt)
         == D.Finish(if encrypt then D.Rising(sp, s, D.Start(x), 8) else D.Falling(sp, s, D.Start(x), 8))
  {
  }

  lemma StartIs(x: D.Block)
    ensures Represents(D.Start(x), Halves(HalfBits(D.Ip(x).r), HalfBits(D.Ip(x).l)))
  {
    hide D.Ip;
    hide D.RolL1;
    hide Bit;
    RotRol(D.Ip(x).r);
    RotRol(D.Ip(x).l);
    hide RotBits;
    hide HalfBits;
  }

  lemma FinishIs(z: D.Block, g: Halves)
    requires Represents(z, g)
    ensures |FINAL_PERM| == 64 && ValidTable(FINAL_PERM, 64) && BitsOf(D.Finish(z)) == Select(g.r + g.l, FINAL_PERM)
  {
    var w := D.Block(D.RorL1(z.l), D.RorL1(z.r));
    InitialPermValid();
    FinalPermValid();
    RotRol(z.l);
    RotRol(z.r);
    D.FpIp(w);
    IpIs(D.Fp(w));
    PermsInverse(BitsOf(D.Fp(w)));
    hide INITIAL_PERM;
    hide FINAL_PERM;
    hide D.Ip;
    hide D.Fp;
    hide D.RorL1;
    hide RotBits;
    hide HalfBits;
    hide BitsOf;
  }

  lemma EncipherIs(c: Cipher, b: Block, h: Halves, ks: seq<Key48>)
    requires c.Valid() && |INITIAL_PERM| == 64 && ValidTable(INITIAL_PERM, 64) && h.l + h.r == Select(b, INITIAL_PERM)
    ensures |FINAL_PERM| == 64 && ValidTable(FINAL_PERM, 64)
    ensures var g := c.Rounds(h, ks); c.Encipher(b, ks) == Select(g.r + g.l, FINAL_PERM)
  {
    FinalPermValid();
    hide FINAL_PERM;
    hide INITIAL_PERM;
    hide c.Rounds;
    assert (h.l + h.r)[..32] == h.l && (h.l + h.r)[32..] == h.r;
  }
}
