/** The key schedule of crypt/des_impl.c:354-360 and 406-466 is that of FIPS 46-3, for a table that makes of six
register bits what PC2 selects. */
module DesKey {
  import opened BitSeq
  import opened DesSpec
  import D = Des
  import opened DesFips

  // ----- PC1: both registers by exchanges -----

  /** HPERM_OP (a, t, -2, 0xcccc0000). */
  function HPermOp(a: bv32): bv32
  {
    var t := ((a << 18) ^ a) & 0xcccc0000;
    a ^ t ^ (t >> 18)
  }

  function LowRegister(c: bv32): bv32 { c & 0x0fffffff }

  function HighRegister(c: bv32, d: bv32): bv32
  {
    ((d & 0x000000ff) << 16) | (d & 0x0000ff00) | ((d & 0x00ff0000) >> 16) | ((c & 0xf0000000) >> 4)
  }

  /** Lines 424-429, the words c and d as the halves of a block. */
  function Exchanged(x: D.Block): D.Block
  {
    var p := D.PermOp(x.r, x.l, 4, 0x0f0f0f0f);
    var c, d := HPermOp(p.1), HPermOp(p.0);
    var q := D.PermOp(d, c, 1, 0x55555555);
    var r := D.PermOp(q.1, q.0, 8, 0x00ff00ff);
    var s := D.PermOp(r.1, r.0, 1, 0x55555555);
    D.Block(s.1, s.0)
  }

  /** The registers before the first round. */
  function Registers(x: D.Block): D.Block
  {
    var y := Exchanged(x);
    D.Block(LowRegister(y.l), HighRegister(y.l, y.r))
  }

  ghost predicate HStage(x: D.Block, y: D.Block)
  {
    var t, u := ((x.l << 18) ^ x.l) & 0xcccc0000, ((x.r << 18) ^ x.r) & 0xcccc0000;
    y.l == x.l ^ t ^ (t >> 18) && y.r == x.r ^ u ^ (u >> 18)
  }

  ghost predicate KeyNetwork(x: D.Block, a: D.Block, b: D.Block, c: D.Block, d: D.Block, y: D.Block, z: D.Block)
  {
    && Stage4(x, a) && HStage(a, b) && Stage1(b, c) && Stage8(c, d) && Stage1(d, y)
    && Cut(y, z)
  }

  ghost predicate Cut(y: D.Block, z: D.Block)
  {
    && z.l == y.l & 0x0fffffff
    && z.r == ((y.r & 0x000000ff) << 16) | (y.r & 0x0000ff00) | ((y.r & 0x00ff0000) >> 16) | ((y.l & 0xf0000000) >> 4)
  }

  lemma HOp(x: D.Block)
    ensures HStage(x, D.Block(HPermOp(x.l), HPermOp(x.r)))
  {
  }

  lemma CutIs(y: D.Block)
    ensures Cut(y, D.Block(LowRegister(y.l), HighRegister(y.l, y.r)))
  {
  }

  lemma ExchangedNetwork(x: D.Block) returns (a: D.Block, b: D.Block, c: D.Block, d: D.Block, y: D.Block)
    ensures KeyNetwork(x, a, b, c, d, y, Registers(x))
  {
    hide D.PermOp;
    hide Stage4;
    hide Stage8;
    hide Stage1;
    hide HPermOp;
    hide HStage;
    hide LowRegister;
    hide HighRegister;
    hide Cut;
    var p := D.PermOp(x.r, x.l, 4, 0x0f0f0f0f);
    a := D.Block(p.1, p.0);
    Op4(x, a);
    b := D.Block(HPermOp(a.l), HPermOp(a.r));
    HOp(a);
    p := D.PermOp(b.r, b.l, 1, 0x55555555);
    c := D.Block(p.1, p.0);
    Op1(b, c);
    p := D.PermOp(c.l, c.r, 8, 0x00ff00ff);
    d := D.Block(p.0, p.1);
    Op8(c, d);
    p := D.PermOp(d.r, d.l, 1, 0x55555555);
    y := D.Block(p.1, p.0);
    Op1(d, y);
    CutIs(y);
  }

  /** Register C, bit by bit. */
  lemma LowBits(x: D.Block, a: D.Block, b: D.Block, c: D.Block, d: D.Block, y: D.Block, z: D.Block)
    requires KeyNetwork(x, a, b, c, d, y, z)
    ensures Bit(z.l, 0) == Bit(x.r, 31) && Bit(z.l, 1) == Bit(x.r, 23) && Bit(z.l, 2) == Bit(x.r, 15)
    ensures Bit(z.l, 3) == Bit(x.r, 7)
    ensures Bit(z.l, 4) == Bit(x.l, 31) && Bit(z.l, 5) == Bit(x.l, 23) && Bit(z.l, 6) == Bit(x.l, 15)
    ensures Bit(z.l, 7) == Bit(x.l, 7)
    ensures Bit(z.l, 8) == Bit(x.r, 30) && Bit(z.l, 9) == Bit(x.r, 22) && Bit(z.l, 10) == Bit(x.r, 14)
    ensures Bit(z.l, 11) == Bit(x.r, 6)
    ensures Bit(z.l, 12) == Bit(x.l, 30) && Bit(z.l, 13) == Bit(x.l, 22) && Bit(z.l, 14) == Bit(x.l, 14)
    ensures Bit(z.l, 15) == Bit(x.l, 6)
    ensures Bit(z.l, 16) == Bit(x.r, 29) && Bit(z.l, 17) == Bit(x.r, 21) && Bit(z.l, 18) == Bit(x.r, 13)
    ensures Bit(z.l, 19) == Bit(x.r, 5)
    ensures Bit(z.l, 20) == Bit(x.l, 29) && Bit(z.l, 21) == Bit(x.l, 21) && Bit(z.l, 22) == Bit(x.l, 13)
    ensures Bit(z.l, 23) == Bit(x.l, 5)
    ensures Bit(z.l, 24) == Bit(x.r, 28) && Bit(z.l, 25) == Bit(x.r, 20) && Bit(z.l, 26) == Bit(x.r, 12)
    ensures Bit(z.l, 27) == Bit(x.r, 4)
  {
  }

  /** Register D, bit by bit. */
  lemma HighBits(x: D.Block, a: D.Block, b: D.Block, c: D.Block, d: D.Block, y: D.Block, z: D.Block)
    requires KeyNetwork(x, a, b, c, d, y, z)
    ensures Bit(z.r, 0) == Bit(x.r, 25) && Bit(z.r, 1) == Bit(x.r, 17) && Bit(z.r, 2) == Bit(x.r, 9)
    ensures Bit(z.r, 3) == Bit(x.r, 1)
    ensures Bit(z.r, 4) == Bit(x.l, 25) && Bit(z.r, 5) == Bit(x.l, 17) && Bit(z.r, 6) == Bit(x.l, 9)
    ensures Bit(z.r, 7) == Bit(x.l, 1)
    ensures Bit(z.r, 8) == Bit(x.r, 26) && Bit(z.r, 9) == Bit(x.r, 18) && Bit(z.r, 10) == Bit(x.r, 10)
    ensures Bit(z.r, 11) == Bit(x.r, 2)
    ensures Bit(z.r, 12) == Bit(x.l, 26) && Bit(z.r, 13) == Bit(x.l, 18) && Bit(z.r, 14) == Bit(x.l, 10)
    ensures Bit(z.r, 15) == Bit(x.l, 2)
    ensures Bit(z.r, 16) == Bit(x.r, 27) && Bit(z.r, 17) == Bit(x.r, 19) && Bit(z.r, 18) == Bit(x.r, 11)
    ensures Bit(z.r, 19) == Bit(x.r, 3)
    ensures Bit(z.r, 20) == Bit(x.l, 27) && Bit(z.r, 21) == Bit(x.l, 19) && Bit(z.r, 22) == Bit(x.l, 11)
    ensures Bit(z.r, 23) == Bit(x.l, 3)
    ensures Bit(z.r, 24) == Bit(x.l, 28) && Bit(z.r, 25) == Bit(x.l, 20) && Bit(z.r, 26) == Bit(x.l, 12)
    ensures Bit(z.r, 27) == Bit(x.l, 4)
  {
  }

  /** A register: the low 28 bits of a word, the lowest first. */
  function Reg(w: bv32): (c: BitStr)
    ensures |c| == 28
  {
    seq(28, n requires 0 <= n < 28 => Bit(w, n))
  }

  /** Four bits of w from place k up, one from each byte of a word. */
  predicate Quad(w: bv32, k: nat, s: bv32, p: nat)
    requires k <= 28 && p < 8
  {
    && Bit(w, k) == Bit(s, 24 + p) && Bit(w, k + 1) == Bit(s, 16 + p)
    && Bit(w, k + 2) == Bit(s, 8 + p) && Bit(w, k + 3) == Bit(s, p)
  }

  lemma QuadAt(w: bv32, k: nat, s: bv32, p: nat, e: nat)
    requires k <= 28 && p < 8 && e < 4 && Quad(w, k, s, p)
    ensures Bit(w, k + e) == Bit(s, 8 * (3 - e) + p)
  {
    hide Bit;
    if e == 0 {} else if e == 1 {} else if e == 2 {} else {}
  }

  lemma LowOctets(x: D.Block, a: D.Block, b: D.Block, c: D.Block, d: D.Block, y: D.Block, z: D.Block)
    requires KeyNetwork(x, a, b, c, d, y, z)
    ensures Octet(z.l, 0, x.l, x.r, 7) && Octet(z.l, 8, x.l, x.r, 6)
  {
    hide Bit;
    hide KeyNetwork;
    LowBits(x, a, b, c, d, y, z);
  }

  lemma LowRest(x: D.Block, a: D.Block, b: D.Block, c: D.Block, d: D.Block, y: D.Block, z: D.Block)
    requires KeyNetwork(x, a, b, c, d, y, z)
    ensures Octet(z.l, 16, x.l, x.r, 5) && Quad(z.l, 24, x.r, 4)
  {
    hide Bit;
    hide KeyNetwork;
    LowBits(x, a, b, c, d, y, z);
  }

  lemma HighOctets(x: D.Block, a: D.Block, b: D.Block, c: D.Block, d: D.Block, y: D.Block, z: D.Block)
    requires KeyNetwork(x, a, b, c, d, y, z)
    ensures Octet(z.r, 0, x.l, x.r, 1) && Octet(z.r, 8, x.l, x.r, 2)
  {
    hide Bit;
    hide KeyNetwork;
    HighBits(x, a, b, c, d, y, z);
  }

  lemma HighRest(x: D.Block, a: D.Block, b: D.Block, c: D.Block, d: D.Block, y: D.Block, z: D.Block)
    requires KeyNetwork(x, a, b, c, d, y, z)
    ensures Octet(z.r, 16, x.l, x.r, 3) && Quad(z.r, 24, x.l, 4)
  {
    hide Bit;
    hide KeyNetwork;
    HighBits(x, a, b, c, d, y, z);
  }

  lemma RegisterOctets(x: D.Block)
    ensures var z := Registers(x);
      && Octet(z.l, 0, x.l, x.r, 7) && Octet(z.l, 8, x.l, x.r, 6) && Octet(z.l, 16, x.l, x.r, 5)
      && Quad(z.l, 24, x.r, 4)
      && Octet(z.r, 0, x.l, x.r, 1) && Octet(z.r, 8, x.l, x.r, 2) && Octet(z.r, 16, x.l, x.r, 3)
      && Quad(z.r, 24, x.l, 4)
  {
    hide *;
    var a, b, c, d, y := ExchangedNetwork(x);
    LowOctets(x, a, b, c, d, y, Registers(x));
    LowRest(x, a, b, c, d, y, Registers(x));
    HighOctets(x, a, b, c, d, y, Registers(x));
    HighRest(x, a, b, c, d, y, Registers(x));
  }

  /** PC1 by rows of eight: every eighth bit, from the last byte on. */
  lemma Pc1Low(j: nat, e: nat)
    requires j < 4 && e < 8 && 8 * j + e < 28
    ensures |PC1| == 56 && PC1[8 * j + e] == 57 - 8 * e + j
  {
    if j == 0 {} else if j == 1 {} else if j == 2 {} else {}
  }

  lemma Pc1High(j: nat, e: nat)
    requires j < 4 && e < 8 && 8 * j + e < 28
    ensures |PC1| == 56 && PC1[28 + 8 * j + e] == if j < 3 then 63 - 8 * e - j else 28 - 8 * e
  {
    if j == 0 {} else if j == 1 {} else if j == 2 {} else {}
  }

  /** Bit 8j + e of either register is where PC1 has it. */
  lemma RegisterBit(x: D.Block, j: nat, e: nat)
    requires j < 4 && e < 8 && 8 * j + e < 28
    ensures |PC1| == 56 && ValidTable(PC1, 64)
    ensures Bit(Registers(x).l, 8 * j + e) == BitsOf(x)[PC1[8 * j + e] - 1]
    ensures Bit(Registers(x).r, 8 * j + e) == BitsOf(x)[PC1[28 + 8 * j + e] - 1]
  {
    Pc1Valid();
    hide PC1;
    hide Bit;
    hide BitPlace;
    hide Registers;
    hide Octet;
    hide Quad;
    var z := Registers(x);
    RegisterOctets(x);
    Pc1Low(j, e);
    Pc1High(j, e);
    EighthOf(7 - e, j);
    if j < 3 {
      EighthOf(7 - e, 6 - j);
      OctetAt(z.l, 8 * j, x.l, x.r, 7 - j, e);
      OctetAt(z.r, 8 * j, x.l, x.r, 1 + j, e);
    } else {
      EighthOf(3 - e, 3);
      QuadAt(z.l, 24, x.r, 4, e);
      QuadAt(z.r, 24, x.l, 4, e);
    }
  }

  /** The exchanges are PC1. */
  lemma RegistersAre(x: D.Block)
    ensures Reg(Registers(x).l) == Register(BitsOf(x), 0, 0) && Reg(Registers(x).r) == Register(BitsOf(x), 1, 0)
  {
    Pc1Valid();
    hide PC1;
    hide Bit;
    hide Registers;
    hide BitsOf;
    forall n | 0 <= n < 28
      ensures Reg(Registers(x).l)[n] == Register(BitsOf(x), 0, 0)[n]
      ensures Reg(Registers(x).r)[n] == Register(BitsOf(x), 1, 0)[n]
    {
      RegisterBit(x, n / 8, n % 8);
    }
  }

  // ----- The rotations -----

  /** Lines 436-447: a register of 28 bits in a word of 32, rotated by one or two. */
  function Turned(c: bv32, twice: bool): bv32
  {
    (if twice then (c >> 2) | (c << 26) else (c >> 1) | (c << 27)) & 0x0fffffff
  }

  /** Nothing above the 28 bits. */
  predicate Small(c: bv32) { c & 0xf0000000 == 0 }

  lemma RegistersSmall(x: D.Block)
    ensures Small(Registers(x).l) && Small(Registers(x).r)
  {
    hide Exchanged;
    LowSmall(Exchanged(x).l);
    HighSmall(Exchanged(x).l, Exchanged(x).r);
    hide LowRegister;
    hide HighRegister;
  }

  lemma LowSmall(c: bv32)
    ensures Small(LowRegister(c))
  {
  }

  lemma HighSmall(c: bv32, d: bv32)
    ensures Small(HighRegister(c, d))
  {
  }

  lemma TurnedSmall(c: bv32, twice: bool)
    ensures Small(Turned(c, twice))
  {
  }

  lemma OnceBits(c: bv32, z: bv32)
    requires z == Turned(c, false) && Small(c)
    ensures Bit(z, 0) == Bit(c, 1) && Bit(z, 1) == Bit(c, 2) && Bit(z, 2) == Bit(c, 3) && Bit(z, 3) == Bit(c, 4)
    ensures Bit(z, 4) == Bit(c, 5) && Bit(z, 5) == Bit(c, 6) && Bit(z, 6) == Bit(c, 7) && Bit(z, 7) == Bit(c, 8)
    ensures Bit(z, 8) == Bit(c, 9) && Bit(z, 9) == Bit(c, 10) && Bit(z, 10) == Bit(c, 11) && Bit(z, 11) == Bit(c, 12)
    ensures Bit(z, 12) == Bit(c, 13) && Bit(z, 13) == Bit(c, 14) && Bit(z, 14) == Bit(c, 15) && Bit(z, 15) == Bit(c, 16)
    ensures Bit(z, 16) == Bit(c, 17) && Bit(z, 17) == Bit(c, 18) && Bit(z, 18) == Bit(c, 19) && Bit(z, 19) == Bit(c, 20)
    ensures Bit(z, 20) == Bit(c, 21) && Bit(z, 21) == Bit(c, 22) && Bit(z, 22) == Bit(c, 23) && Bit(z, 23) == Bit(c, 24)
    ensures Bit(z, 24) == Bit(c, 25) && Bit(z, 25) == Bit(c, 26) && Bit(z, 26) == Bit(c, 27) && Bit(z, 27) == Bit(c, 0)
  {
  }

  lemma TwiceBits(c: bv32, z: bv32)
    requires z == Turned(c, true) && Small(c)
    ensures Bit(z, 0) == Bit(c, 2) && Bit(z, 1) == Bit(c, 3) && Bit(z, 2) == Bit(c, 4) && Bit(z, 3) == Bit(c, 5)
    ensures Bit(z, 4) == Bit(c, 6) && Bit(z, 5) == Bit(c, 7) && Bit(z, 6) == Bit(c, 8) && Bit(z, 7) == Bit(c, 9)
    ensures Bit(z, 8) == Bit(c, 10) && Bit(z, 9) == Bit(c, 11) && Bit(z, 10) == Bit(c, 12) && Bit(z, 11) == Bit(c, 13)
    ensures Bit(z, 12) == Bit(c, 14) && Bit(z, 13) == Bit(c, 15) && Bit(z, 14) == Bit(c, 16) && Bit(z, 15) == Bit(c, 17)
    ensures Bit(z, 16) == Bit(c, 18) && Bit(z, 17) == Bit(c, 19) && Bit(z, 18) == Bit(c, 20) && Bit(z, 19) == Bit(c, 21)
    ensures Bit(z, 20) == Bit(c, 22) && Bit(z, 21) == Bit(c, 23) && Bit(z, 22) == Bit(c, 24) && Bit(z, 23) == Bit(c, 25)
    ensures Bit(z, 24) == Bit(c, 26) && Bit(z, 25) == Bit(c, 27) && Bit(z, 26) == Bit(c, 0) && Bit(z, 27) == Bit(c, 1)
  {
  }

  /** Seven bits of w from place k up are those of v from place p up, around a register. */
  predicate Seven(w: bv32, k: nat, v: bv32, p: nat)
    requires k <= 21 && p < 28
  {
    && Bit(w, k) == Bit(v, p) && Bit(w, k + 1) == Bit(v, (p + 1) % 28) && Bit(w, k + 2) == Bit(v, (p + 2) % 28)
    && Bit(w, k + 3) == Bit(v, (p + 3) % 28) && Bit(w, k + 4) == Bit(v, (p + 4) % 28)
    && Bit(w, k + 5) == Bit(v, (p + 5) % 28) && Bit(w, k + 6) == Bit(v, (p + 6) % 28)
  }

  lemma SevenAt(w: bv32, k: nat, v: bv32, p: nat, e: nat)
    requires k <= 21 && p < 28 && e < 7 && Seven(w, k, v, p)
    ensures Bit(w, k + e) == Bit(v, (p + e) % 28)
  {
    hide Bit;
    if e == 0 {} else if e == 1 {} else if e == 2 {} else if e == 3 {} else if e == 4 {} else if e == 5 {} else {}
  }

  lemma OnceSevens(c: bv32, z: bv32)
    requires z == Turned(c, false) && Small(c)
    ensures Seven(z, 0, c, 1) && Seven(z, 7, c, 8) && Seven(z, 14, c, 15) && Seven(z, 21, c, 22)
  {
    hide Bit;
    hide Turned;
    hide Small;
    OnceBits(c, z);
  }

  lemma TwiceSevens(c: bv32, z: bv32)
    requires z == Turned(c, true) && Small(c)
    ensures Seven(z, 0, c, 2) && Seven(z, 7, c, 9) && Seven(z, 14, c, 16) && Seven(z, 21, c, 23)
  {
    hide Bit;
    hide Turned;
    hide Small;
    TwiceBits(c, z);
  }

  lemma TurnedSeven(c: bv32, twice: bool, q: nat)
    requires Small(c) && q < 4
    ensures Seven(Turned(c, twice), 7 * q, c, 7 * q + if twice then 2 else 1)
  {
    hide *;
    if twice {
      TwiceSevens(c, Turned(c, twice));
    } else {
      OnceSevens(c, Turned(c, twice));
    }
    if q == 0 {} else if q == 1 {} else if q == 2 {} else {}
  }

  lemma TurnedBit(c: bv32, twice: bool, n: nat)
    requires Small(c) && n < 28
    ensures Bit(Turned(c, twice), n) == Bit(c, (n + if twice then 2 else 1) % 28)
  {
    hide *;
    var q, e := n / 7, n % 7;
    TurnedSeven(c, twice, q);
    SevenAt(Turned(c, twice), 7 * q, c, 7 * q + if twice then 2 else 1, e);
  }

  /** The shifts rotate the register to the left. */
  lemma TurnedIs(c: bv32, twice: bool)
    requires Small(c)
    ensures Small(Turned(c, twice)) && Reg(Turned(c, twice)) == RotL(Reg(c), if twice then 2 else 1)
  {
    hide Bit;
    hide Turned;
    hide Small;
    var z, r := Turned(c, twice), if twice then 2 else 1;
    TurnedSmall(c, twice);
    forall n | 0 <= n < 28
      ensures Reg(z)[n] == RotL(Reg(c), r)[n]
    {
      TurnedBit(c, twice, n);
    }
  }

  // ----- The selection by PC2 -----

  type SkbTables = t: seq<seq<bv32>> | |t| == 8 && forall i :: 0 <= i < 8 ==> |t[i]| == 64
    witness seq(8, _ => seq(64, _ => 0 as bv32))

  /** Lines 450-457: the six register bits that index table g, brought together; c is the register it looks at. */
  function Pick(c: bv32, g: nat): bv32
    requires g < 8
  {
    if g == 0 || g == 4 then c & 0x3f
    else if g == 1 then ((c >> 6) & 0x03) | ((c >> 7) & 0x3c)
    else if g == 2 then ((c >> 13) & 0x0f) | ((c >> 14) & 0x30)
    else if g == 3 then ((c >> 20) & 0x01) | ((c >> 21) & 0x06) | ((c >> 22) & 0x38)
    else if g == 5 then ((c >> 7) & 0x03) | ((c >> 8) & 0x3c)
    else if g == 6 then (c >> 15) & 0x3f
    else ((c >> 21) & 0x0f) | ((c >> 22) & 0x30)
  }

  /** The register bits that table g looks at, in the order of its index. */
  function Taps(g: nat): (t: seq<nat>)
    requires g < 8
    ensures |t| == 6 && forall e :: 0 <= e < 6 ==> t[e] < 28
  {
    if g == 0 || g == 4 then [0, 1, 2, 3, 4, 5]
    else if g == 1 then [6, 7, 9, 10, 11, 12]
    else if g == 2 then [13, 14, 15, 16, 18, 19]
    else if g == 3 then [20, 22, 23, 25, 26, 27]
    else if g == 5 then [7, 8, 10, 11, 12, 13]
    else if g == 6 then [15, 16, 17, 18, 19, 20]
    else [21, 22, 23, 24, 26, 27]
  }

  lemma Pick0(c: bv32, w: bv32)
    requires w == c & 0x3f
    ensures Bit(w, 0) == Bit(c, 0) && Bit(w, 1) == Bit(c, 1) && Bit(w, 2) == Bit(c, 2)
    ensures Bit(w, 3) == Bit(c, 3) && Bit(w, 4) == Bit(c, 4) && Bit(w, 5) == Bit(c, 5)
  {
  }

  lemma Pick1(c: bv32, w: bv32)
    requires w == ((c >> 6) & 0x03) | ((c >> 7) & 0x3c)
    ensures Bit(w, 0) == Bit(c, 6) && Bit(w, 1) == Bit(c, 7) && Bit(w, 2) == Bit(c, 9)
    ensures Bit(w, 3) == Bit(c, 10) && Bit(w, 4) == Bit(c, 11) && Bit(w, 5) == Bit(c, 12)
  {
  }

  lemma Pick2(c: bv32, w: bv32)
    requires w == ((c >> 13) & 0x0f) | ((c >> 14) & 0x30)
    ensures Bit(w, 0) == Bit(c, 13) && Bit(w, 1) == Bit(c, 14) && Bit(w, 2) == Bit(c, 15)
    ensures Bit(w, 3) == Bit(c, 16) && Bit(w, 4) == Bit(c, 18) && Bit(w, 5) == Bit(c, 19)
  {
  }

  lemma Pick3(c: bv32, w: bv32)
    requires w == ((c >> 20) & 0x01) | ((c >> 21) & 0x06) | ((c >> 22) & 0x38)
    ensures Bit(w, 0) == Bit(c, 20) && Bit(w, 1) == Bit(c, 22) && Bit(w, 2) == Bit(c, 23)
    ensures Bit(w, 3) == Bit(c, 25) && Bit(w, 4) == Bit(c, 26) && Bit(w, 5) == Bit(c, 27)
  {
  }

  lemma Pick5(c: bv32, w: bv32)
    requires w == ((c >> 7) & 0x03) | ((c >> 8) & 0x3c)
    ensures Bit(w, 0) == Bit(c, 7) && Bit(w, 1) == Bit(c, 8) && Bit(w, 2) == Bit(c, 10)
    ensures Bit(w, 3) == Bit(c, 11) && Bit(w, 4) == Bit(c, 12) && Bit(w, 5) == Bit(c, 13)
  {
  }

  lemma Pick6(c: bv32, w: bv32)
    requires w == (c >> 15) & 0x3f
    ensures Bit(w, 0) == Bit(c, 15) && Bit(w, 1) == Bit(c, 16) && Bit(w, 2) == Bit(c, 17)
    ensures Bit(w, 3) == Bit(c, 18) && Bit(w, 4) == Bit(c, 19) && Bit(w, 5) == Bit(c, 20)
  {
  }

  lemma Pick7(c: bv32, w: bv32)
    requires w == ((c >> 21) & 0x0f) | ((c >> 22) & 0x30)
    ensures Bit(w, 0) == Bit(c, 21) && Bit(w, 1) == Bit(c, 22) && Bit(w, 2) == Bit(c, 23)
    ensures Bit(w, 3) == Bit(c, 24) && Bit(w, 4) == Bit(c, 26) && Bit(w, 5) == Bit(c, 27)
  {
  }

  /** The index bits of table g are the register bits it looks at. */
  lemma PickBits(c: bv32, g: nat)
    requires g < 8
    ensures SixBits(Pick(c, g)) == seq(6, e requires 0 <= e < 6 => Bit(c, Taps(g)[e]))
  {
    hide Bit;
    hide SixBits;
    if g < 4 {
      LowPick(c, g, Pick(c, g));
    } else {
      HighPick(c, g, Pick(c, g));
    }
  }

  lemma LowPick(c: bv32, g: nat, w: bv32)
    requires g < 4 && w == Pick(c, g)
    ensures SixBits(w) == seq(6, e requires 0 <= e < 6 => Bit(c, Taps(g)[e]))
  {
    hide Bit;
    hide SixBits;
    if g == 0 {
      Pick0(c, w);
    } else if g == 1 {
      Pick1(c, w);
    } else if g == 2 {
      Pick2(c, w);
    } else {
      Pick3(c, w);
    }
    SixAre(w, seq(6, e requires 0 <= e < 6 => Bit(c, Taps(g)[e])));
  }

  lemma HighPick(c: bv32, g: nat, w: bv32)
    requires 4 <= g < 8 && w == Pick(c, g)
    ensures SixBits(w) == seq(6, e requires 0 <= e < 6 => Bit(c, Taps(g)[e]))
  {
    hide Bit;
    hide SixBits;
    if g == 4 {
      Pick0(c, w);
    } else if g == 5 {
      Pick5(c, w);
    } else if g == 6 {
      Pick6(c, w);
    } else {
      Pick7(c, w);
    }
    SixAre(w, seq(6, e requires 0 <= e < 6 => Bit(c, Taps(g)[e])));
  }

  /** The register bit that PC2 puts at place b of the six for S-box i. */
  function Tapped(i: nat, b: nat): (n: nat)
    requires i < 8 && b < 6
    ensures n < 28
  {
    Pc2Halves(6 * i + b);
    hide PC2;
    PC2[6 * i + b] - (if i < 4 then 1 else 29)
  }

  lemma Pc2Halves(o: nat)
    requires o < 48
    ensures |PC2| == 48 && if o < 24 then 1 <= PC2[o] <= 28 else 29 <= PC2[o] <= 56
  {
  }

  /** Where the two words of a round gather these bits before they are rearranged. */
  function Gathering(i: nat): (p: nat)
    requires i < 8
    ensures p <= 24
  {
    if i % 4 == 0 then 0 else if i % 4 == 1 then 16 else if i % 4 == 2 then 8 else 24
  }

  /** What the tables of des_set_key hold: entry `index` of table g has every bit of the round key that PC2 takes
      from the six register bits of the index, at its place. */
  ghost predicate SkbHolds(skb: SkbTables)
  {
    forall g: nat, w: bv32, i: nat, b: nat :: g < 8 && i < 8 && b < 6 && (g < 4 <==> i < 4) ==> SkbBit(skb, g, w, i, b)
  }

  ghost predicate SkbBit(skb: SkbTables, g: nat, w: bv32, i: nat, b: nat)
    requires g < 8 && i < 8 && b < 6
  {
    Bit(skb[g][D.Low6(w)], Gathering(i) + b) == exists e :: 0 <= e < 6 && Taps(g)[e] == Tapped(i, b) && SixBits(w)[e]
  }

  /** Lines 450-457: four tables for one register. */
  function Gathered(skb: SkbTables, c: bv32, g: nat): bv32
    requires g <= 4
  {
    D.Or(D.Or(D.Or(skb[g][D.Low6(Pick(c, g))], skb[g + 1][D.Low6(Pick(c, g + 1))]), skb[g + 2][D.Low6(Pick(c, g + 2))]),
         skb[g + 3][D.Low6(Pick(c, g + 3))])
  }

  /** PC2 takes only bits that some table looks at. */
  lemma Covered(i: nat, b: nat)
    requires i < 8 && b < 6
    ensures var g := if i < 4 then 0 else 4; var n := Tapped(i, b);
        n in Taps(g) || n in Taps(g + 1) || n in Taps(g + 2) || n in Taps(g + 3)
  {
  }

  lemma OneTable(skb: SkbTables, c: bv32, g: nat, i: nat, b: nat)
    requires SkbHolds(skb) && g < 8 && i < 8 && b < 6 && (g < 4 <==> i < 4)
    ensures Bit(skb[g][D.Low6(Pick(c, g))], Gathering(i) + b) == (Tapped(i, b) in Taps(g) && Bit(c, Tapped(i, b)))
  {
    hide Bit;
    hide SixBits;
    hide Pick;
    hide Taps;
    hide Tapped;
    assert SkbBit(skb, g, Pick(c, g), i, b);
    PickBits(c, g);
  }

  /** The word gathered for a register has all bits that PC2 selects from it. */
  lemma GatheredBit(skb: SkbTables, c: bv32, i: nat, b: nat)
    requires SkbHolds(skb) && i < 8 && b < 6
    ensures Bit(Gathered(skb, c, if i < 4 then 0 else 4), Gathering(i) + b) == Bit(c, Tapped(i, b))
  {
    hide Bit;
    hide Pick;
    hide Taps;
    hide Tapped;
    hide SkbHolds;
    hide D.Or;
    var g, p := if i < 4 then 0 else 4, Gathering(i) + b;
    var x0, x1 := skb[g][D.Low6(Pick(c, g))], skb[g + 1][D.Low6(Pick(c, g + 1))];
    var x2, x3 := skb[g + 2][D.Low6(Pick(c, g + 2))], skb[g + 3][D.Low6(Pick(c, g + 3))];
    OneTable(skb, c, g, i, b);
    OneTable(skb, c, g + 1, i, b);
    OneTable(skb, c, g + 2, i, b);
    OneTable(skb, c, g + 3, i, b);
    Covered(i, b);
    OrBit(x0, x1, p);
    OrBit(D.Or(x0, x1), x2, p);
    OrBit(D.Or(D.Or(x0, x1), x2), x3, p);
  }

  // ----- The words of the schedule -----

  /** Line 460. */
  function EvenWord(s: bv32, t: bv32): bv32 { (t << 16) | (s & 0x0000ffff) }

  /** Lines 461-463. */
  function OddWord(s: bv32, t: bv32): bv32
  {
    var u := (s >> 16) | (t & 0xffff0000);
    (u << 4) | (u >> 28)
  }

  lemma EvenBits(s: bv32, t: bv32, k: bv32)
    requires k == EvenWord(s, t)
    ensures Bit(k, 0) == Bit(s, 0) && Bit(k, 1) == Bit(s, 1) && Bit(k, 2) == Bit(s, 2)
    ensures Bit(k, 3) == Bit(s, 3) && Bit(k, 4) == Bit(s, 4) && Bit(k, 5) == Bit(s, 5)
    ensures Bit(k, 8) == Bit(s, 8) && Bit(k, 9) == Bit(s, 9) && Bit(k, 10) == Bit(s, 10)
    ensures Bit(k, 11) == Bit(s, 11) && Bit(k, 12) == Bit(s, 12) && Bit(k, 13) == Bit(s, 13)
    ensures Bit(k, 16) == Bit(t, 0) && Bit(k, 17) == Bit(t, 1) && Bit(k, 18) == Bit(t, 2)
    ensures Bit(k, 19) == Bit(t, 3) && Bit(k, 20) == Bit(t, 4) && Bit(k, 21) == Bit(t, 5)
    ensures Bit(k, 24) == Bit(t, 8) && Bit(k, 25) == Bit(t, 9) && Bit(k, 26) == Bit(t, 10)
    ensures Bit(k, 27) == Bit(t, 11) && Bit(k, 28) == Bit(t, 12) && Bit(k, 29) == Bit(t, 13)
  {
  }

  lemma OddBits(s: bv32, t: bv32, k: bv32)
    requires k == OddWord(s, t)
    ensures Bit(k, 4) == Bit(s, 16) && Bit(k, 5) == Bit(s, 17) && Bit(k, 6) == Bit(s, 18)
    ensures Bit(k, 7) == Bit(s, 19) && Bit(k, 8) == Bit(s, 20) && Bit(k, 9) == Bit(s, 21)
    ensures Bit(k, 12) == Bit(s, 24) && Bit(k, 13) == Bit(s, 25) && Bit(k, 14) == Bit(s, 26)
    ensures Bit(k, 15) == Bit(s, 27) && Bit(k, 16) == Bit(s, 28) && Bit(k, 17) == Bit(s, 29)
    ensures Bit(k, 20) == Bit(t, 16) && Bit(k, 21) == Bit(t, 17) && Bit(k, 22) == Bit(t, 18)
    ensures Bit(k, 23) == Bit(t, 19) && Bit(k, 24) == Bit(t, 20) && Bit(k, 25) == Bit(t, 21)
    ensures Bit(k, 28) == Bit(t, 24) && Bit(k, 29) == Bit(t, 25) && Bit(k, 30) == Bit(t, 26)
    ensures Bit(k, 31) == Bit(t, 27) && Bit(k, 0) == Bit(t, 28) && Bit(k, 1) == Bit(t, 29)
  {
  }

  /** Six bits of k from place p up, around the word, are those of w from place q up. */
  predicate Six(k: bv32, p: nat, w: bv32, q: nat)
    requires p < 32 && q <= 24
  {
    && Bit(k, p) == Bit(w, q) && Bit(k, (p + 1) % 32) == Bit(w, q + 1) && Bit(k, (p + 2) % 32) == Bit(w, q + 2)
    && Bit(k, (p + 3) % 32) == Bit(w, q + 3) && Bit(k, (p + 4) % 32) == Bit(w, q + 4)
    && Bit(k, (p + 5) % 32) == Bit(w, q + 5)
  }

  lemma SixAt(k: bv32, p: nat, w: bv32, q: nat, b: nat)
    requires p < 32 && q <= 24 && b < 6 && Six(k, p, w, q)
    ensures Bit(k, (p + b) % 32) == Bit(w, q + b)
  {
    hide Bit;
    if b == 0 {} else if b == 1 {} else if b == 2 {} else if b == 3 {} else if b == 4 {} else {}
  }

  lemma EvenLow(s: bv32, t: bv32, k: bv32)
    requires k == EvenWord(s, t)
    ensures Six(k, 0, s, 0) && Six(k, 8, s, 8)
  {
    hide Bit;
    hide EvenWord;
    EvenBits(s, t, k);
  }

  lemma EvenHigh(s: bv32, t: bv32, k: bv32)
    requires k == EvenWord(s, t)
    ensures Six(k, 16, t, 0) && Six(k, 24, t, 8)
  {
    hide Bit;
    hide EvenWord;
    EvenBits(s, t, k);
  }

  lemma OddLow(s: bv32, t: bv32, k: bv32)
    requires k == OddWord(s, t)
    ensures Six(k, 4, s, 16) && Six(k, 12, s, 24)
  {
    hide Bit;
    hide OddWord;
    OddBits(s, t, k);
  }

  lemma OddHigh(s: bv32, t: bv32, k: bv32)
    requires k == OddWord(s, t)
    ensures Six(k, 20, t, 16) && Six(k, 28, t, 24)
  {
    hide Bit;
    hide OddWord;
    OddBits(s, t, k);
  }

  lemma WordSix(s: bv32, t: bv32, i: nat)
    requires i < 8
    ensures Six(if i % 2 == 0 then EvenWord(s, t) else OddWord(s, t), 4 * i, if i < 4 then s else t, Gathering(i))
  {
    hide Six;
    hide EvenWord;
    hide OddWord;
    EvenLow(s, t, EvenWord(s, t));
    EvenHigh(s, t, EvenWord(s, t));
    OddLow(s, t, OddWord(s, t));
    OddHigh(s, t, OddWord(s, t));
    if i == 0 {} else if i == 1 {} else if i == 2 {} else if i == 3 {} else if i == 4 {}
    else if i == 5 {} else if i == 6 {} else {}
  }

  lemma WordBit(skb: SkbTables, c: bv32, d: bv32, s: bv32, t: bv32, i: nat, b: nat)
    requires SkbHolds(skb) && s == Gathered(skb, c, 0) && t == Gathered(skb, d, 4) && i < 8 && b < 6
    ensures Bit(if i % 2 == 0 then EvenWord(s, t) else OddWord(s, t), (4 * i + b) % 32)
        == Bit(if i < 4 then c else d, Tapped(i, b))
  {
    hide *;
    WordSix(s, t, i);
    SixAt(if i % 2 == 0 then EvenWord(s, t) else OddWord(s, t), 4 * i, if i < 4 then s else t, Gathering(i), b);
    GatheredBit(skb, if i < 4 then c else d, i, b);
  }

  lemma SelectedBit(c: bv32, d: bv32, i: nat, b: nat)
    requires i < 8 && b < 6
    ensures |PC2| == 48 && ValidTable(PC2, 56)
    ensures Select(Reg(c) + Reg(d), PC2)[6 * i + b] == Bit(if i < 4 then c else d, Tapped(i, b))
  {
    Pc2Valid();
    Pc2Halves(6 * i + b);
    hide PC2;
    hide Bit;
  }

  /** The two words that a turn of the loop stores hold the round key. */
  lemma WordsHold(skb: SkbTables, c: bv32, d: bv32, k: Key48)
    requires SkbHolds(skb) && |PC2| == 48 && ValidTable(PC2, 56) && k == Select(Reg(c) + Reg(d), PC2)
    ensures var s, t := Gathered(skb, c, 0), Gathered(skb, d, 4); KeyPair(EvenWord(s, t), OddWord(s, t), k)
  {
    var s, t := Gathered(skb, c, 0), Gathered(skb, d, 4);
    hide Bit;
    hide SkbHolds;
    hide Gathered;
    hide EvenWord;
    hide OddWord;
    hide PC2;
    hide Reg;
    hide Tapped;
    forall i: nat, b: nat | i < 8 && b < 6
      ensures KeyBit(EvenWord(s, t), OddWord(s, t), k, i, b)
    {
      WordBit(skb, c, d, s, t, i, b);
      SelectedBit(c, d, i, b);
    }
  }

  // ----- des_set_key -----

  /** shifts2. */
  function ShiftsTwice(i: nat): bool { !(i == 0 || i == 1 || i == 8 || i == 15) }

  lemma RotsAre(i: nat)
    requires i < 16
    ensures |ROTS| == 16 && ROTS[i] == if ShiftsTwice(i) then 2 else 1
  {
  }

  /** Before round i the words hold the registers of the standard. */
  ghost predicate AtRound(c: bv32, d: bv32, key: BitStr, i: nat)
    requires |key| == 64 && i <= 16
  {
    Small(c) && Small(d) && Reg(c) == Register(key, 0, i) && Reg(d) == Register(key, 1, i)
  }

  lemma NextRound(c: bv32, d: bv32, key: BitStr, i: nat)
    requires |key| == 64 && i < 16 && AtRound(c, d, key, i)
    ensures AtRound(Turned(c, ShiftsTwice(i)), Turned(d, ShiftsTwice(i)), key, i + 1)
  {
    RotsAre(i);
    hide ROTS;
    hide Reg;
    hide Small;
    hide Turned;
    TurnedIs(c, ShiftsTwice(i));
    TurnedIs(d, ShiftsTwice(i));
  }

  lemma RoundWords(skb: SkbTables, c: bv32, d: bv32, key: BitStr, i: nat)
    requires SkbHolds(skb) && |key| == 64 && i < 16 && AtRound(c, d, key, i + 1)
    ensures var s, t := Gathered(skb, c, 0), Gathered(skb, d, 4);
        KeyPair(EvenWord(s, t), OddWord(s, t), RoundKey(key, i))
  {
    Pc2Valid();
    hide PC2;
    hide Reg;
    hide Register;
    hide KeyPair;
    hide SkbHolds;
    WordsHold(skb, c, d, RoundKey(key, i));
  }

  /** The first m pairs are those of the standard. */
  ghost predicate FilledTo(s: seq<bv32>, key: BitStr, m: nat)
    requires |key| == 64
  {
    |s| == 32 && m <= 16 && forall j: nat :: j < m ==> KeyPair(s[2 * j], s[2 * j + 1], RoundKey(key, j))
  }

  lemma FilledMore(s: seq<bv32>, s': seq<bv32>, key: BitStr, m: nat)
    requires |key| == 64 && m < 16 && FilledTo(s, key, m) && |s'| == 32
    requires (forall n :: 0 <= n < 2 * m ==> s'[n] == s[n])
    requires KeyPair(s'[2 * m], s'[2 * m + 1], RoundKey(key, m))
    ensures FilledTo(s', key, m + 1)
  {
    hide KeyPair;
    hide RoundKey;
  }

  lemma FilledAll(s: D.Schedule, key: BitStr)
    requires |key| == 64 && FilledTo(s, key, 16)
    ensures Holds(s, Schedule(key))
  {
    hide KeyPair;
    hide RoundKey;
  }

  /** des_set_key: the schedule holds the sixteen round keys KS of FIPS 46-3 for the eight bytes of the key, given as
      the two words that c2l reads. */
  method SetKey(skb: SkbTables, key: D.Block, schedule: array<bv32>)
    requires SkbHolds(skb) && schedule.Length == 32
    modifies schedule
    ensures Holds(schedule[..], Schedule(BitsOf(key)))
  {
    ghost var bits := BitsOf(key);
    RegistersAre(key);
    RegistersSmall(key);
    var z := Registers(key);
    var c, d := z.l, z.r;
    assert AtRound(c, d, bits, 0);
    hide *;
    for i := 0 to 16
      invariant AtRound(c, d, bits, i) && FilledTo(schedule[..], bits, i)
    {
      ghost var before := schedule[..];
      NextRound(c, d, bits, i);
      c, d := Turned(c, ShiftsTwice(i)), Turned(d, ShiftsTwice(i));
      var s, t := Gathered(skb, c, 0), Gathered(skb, d, 4);
      RoundWords(skb, c, d, bits, i);
      schedule[2 * i], schedule[2 * i + 1] := EvenWord(s, t), OddWord(s, t);
      FilledMore(before, schedule[..], bits, i);
    }
    FilledAll(schedule[..], bits);
  }
}
