/** The MD5 transformation: RFC 1321, section 3.4, and md5_process_block, crypt/md5.c:240-405.  The table of
sines is a parameter. */
module Md5Block {
  import opened ByteOrder

  type Sines = t: seq<bv32> | |t| == 64 witness seq(64, _ => 0 as bv32)
  type Words = x: seq<bv32> | |x| == 16 witness seq(16, _ => 0 as bv32)

  datatype Regs = Regs(a: bv32, b: bv32, c: bv32, d: bv32)

  // ----- RFC 1321 -----

  function F(x: bv32, y: bv32, z: bv32): bv32 { (x & y) | (!x & z) }

  function G(x: bv32, y: bv32, z: bv32): bv32 { (x & z) | (y & !z) }

  function H(x: bv32, y: bv32, z: bv32): bv32 { x ^ y ^ z }

  function I(x: bv32, y: bv32, z: bv32): bv32 { y ^ (x | !z) }

  /** The four rounds of sixteen steps use one of the functions each. */
  function Aux(i: nat, b: bv32, c: bv32, d: bv32): bv32
  {
    if i < 16 then F(b, c, d) else if i < 32 then G(b, c, d) else if i < 48 then H(b, c, d) else I(b, c, d)
  }

  /** The word that step i uses. */
  function WordIndex(i: nat): (k: nat)
    ensures k < 16
  {
    (if i < 16 then i else if i < 32 then 5 * i + 1 else if i < 48 then 3 * i + 5 else 7 * i) % 16
  }

  /** By how much step i rotates. */
  function Turn(i: nat): (s: nat)
    ensures 0 < s < 32
  {
    var j := i % 4;
    if i < 16 then Pick(j, 7, 12, 17, 22) else if i < 32 then Pick(j, 5, 9, 14, 20)
    else if i < 48 then Pick(j, 4, 11, 16, 23) else Pick(j, 6, 10, 15, 21)
  }

  function Pick(j: int, p: nat, q: nat, r: nat, s: nat): nat
  {
    if j == 0 then p else if j == 1 then q else if j == 2 then r else s
  }

  function Rol(w: bv32, s: nat): bv32
    requires s <= 32
  {
    (w << s) | (w >> (32 - s))
  }

  function Sum(x: bv32, y: bv32): bv32 { x + y }

  /** Step i computes one new register. */
  function Fresh(t: Sines, x: Words, r: Regs, i: nat): bv32
    requires i < 64
  {
    Sum(Rol(Sum(r.a, Sum(Sum(Aux(i, r.b, r.c, r.d), x[WordIndex(i)]), t[i])), Turn(i)), r.b)
  }

  /** The registers are used in rotation. */
  function Steps(t: Sines, x: Words, r: Regs, n: nat): Regs
    requires n <= 64
  {
    if n == 0 then r else
      var y := Steps(t, x, r, n - 1);
      Regs(y.d, Fresh(t, x, y, n - 1), y.b, y.c)
  }

  function WordsOf(block: Bytes): Words
    requires |block| == 64
  {
    seq(16, i requires 0 <= i < 16 => LeWord(block[4 * i], block[4 * i + 1], block[4 * i + 2], block[4 * i + 3]))
  }

  function Compress(t: Sines, r: Regs, block: Bytes): Regs
    requires |block| == 64
  {
    var y := Steps(t, WordsOf(block), r, 64);
    Regs(Sum(y.a, r.a), Sum(y.b, r.b), Sum(y.c, r.c), Sum(y.d, r.d))
  }

  // ----- The program -----

  function FF(b: bv32, c: bv32, d: bv32): bv32 { d ^ (b & (c ^ d)) }

  function FG(b: bv32, c: bv32, d: bv32): bv32 { FF(d, b, c) }

  function FH(b: bv32, c: bv32, d: bv32): bv32 { b ^ c ^ d }

  function FI(b: bv32, c: bv32, d: bv32): bv32 { c ^ (b | !d) }

  /** The program's forms of the four functions are those of the RFC. */
  lemma AuxIs(b: bv32, c: bv32, d: bv32)
    ensures F(b, c, d) == FF(b, c, d) && G(b, c, d) == FG(b, c, d) && H(b, c, d) == FH(b, c, d)
    ensures I(b, c, d) == FI(b, c, d)
  {
    AuxF(b, c, d);
    AuxG(b, c, d);
    hide F;
    hide G;
    hide FF;
    hide FG;
  }

  lemma AuxF(b: bv32, c: bv32, d: bv32)
    ensures F(b, c, d) == FF(b, c, d)
  {
    assert (b & c) | (!b & d) == d ^ (b & (c ^ d));
  }

  lemma AuxG(b: bv32, c: bv32, d: bv32)
    ensures G(b, c, d) == FG(b, c, d)
  {
    assert (b & d) | (c & !d) == c ^ (d & (b ^ c));
  }

  function ProgramAux(i: nat, b: bv32, c: bv32, d: bv32): bv32
  {
    if i < 16 then FF(b, c, d) else if i < 32 then FG(b, c, d) else if i < 48 then FH(b, c, d) else FI(b, c, d)
  }

  /** The macro OP. */
  function Op(f: bv32, a: bv32, b: bv32, x: bv32, s: nat, t: bv32): bv32
    requires s <= 32
  {
    Sum(Rol(Sum(a, Sum(Sum(f, x), t)), s), b)
  }

  /** Step n as the program takes it. */
  function OpAt(t: Sines, x: Words, n: nat, a: bv32, b: bv32, c: bv32, d: bv32): bv32
    requires n < 64
  {
    Op(ProgramAux(n, b, c, d), a, b, x[WordIndex(n)], Turn(n), t[n])
  }

  lemma OpIs(t: Sines, x: Words, n: nat, r: Regs)
    requires n < 64
    ensures OpAt(t, x, n, r.a, r.b, r.c, r.d) == Fresh(t, x, r, n)
  {
    AuxIs(r.b, r.c, r.d);
    hide Sum;
    hide Rol;
    hide F;
    hide G;
    hide H;
    hide I;
    hide FF;
    hide FG;
    hide FH;
    hide FI;
    hide WordIndex;
    hide Turn;
  }

  /** Four steps, after which every register is back in its place. */
  lemma FourSteps(t: Sines, x: Words, r0: Regs, n: nat, r: Regs)
    requires n + 4 <= 64 && r == Steps(t, x, r0, n)
    ensures var a := OpAt(t, x, n, r.a, r.b, r.c, r.d);
      var d := OpAt(t, x, n + 1, r.d, a, r.b, r.c);
      var c := OpAt(t, x, n + 2, r.c, d, a, r.b);
      var b := OpAt(t, x, n + 3, r.b, c, d, a);
      Steps(t, x, r0, n + 4) == Regs(a, b, c, d)
  {
    hide Fresh;
    hide OpAt;
    OpIs(t, x, n, r);
    var a := OpAt(t, x, n, r.a, r.b, r.c, r.d);
    assert Steps(t, x, r0, n + 1) == Regs(r.d, a, r.b, r.c);
    OpIs(t, x, n + 1, Regs(r.d, a, r.b, r.c));
    var d := OpAt(t, x, n + 1, r.d, a, r.b, r.c);
    assert Steps(t, x, r0, n + 2) == Regs(r.c, d, a, r.b);
    OpIs(t, x, n + 2, Regs(r.c, d, a, r.b));
    var c := OpAt(t, x, n + 2, r.c, d, a, r.b);
    assert Steps(t, x, r0, n + 3) == Regs(r.b, c, d, a);
    OpIs(t, x, n + 3, Regs(r.b, c, d, a));
  }

  /** The macro OP as a statement, with f applied to b, c and d, word k, rotation s and constant n. */
  method Do(t: Sines, x: Words, f: bv32, a: bv32, b: bv32, c: bv32, d: bv32, k: nat, s: nat, n: nat) returns (a': bv32)
    requires n < 64 && f == ProgramAux(n, b, c, d) && k == WordIndex(n) && s == Turn(n)
    ensures a' == OpAt(t, x, n, a, b, c, d)
  {
    hide ProgramAux;
    hide WordIndex;
    hide Turn;
    hide Op;
    a' := Op(f, a, b, x[k], s, t[n]);
  }

  /** Round 1, first half. */
  method Steps0(t: Sines, x: Words, a0: bv32, b0: bv32, c0: bv32, d0: bv32, ghost r0: Regs)
    returns (a: bv32, b: bv32, c: bv32, d: bv32)
    requires Regs(a0, b0, c0, d0) == Steps(t, x, r0, 0)
    ensures Regs(a, b, c, d) == Steps(t, x, r0, 8)
  {
    hide OpAt;
    hide Steps;
    hide FF;
    a, b, c, d := a0, b0, c0, d0;
    FourSteps(t, x, r0, 0, Regs(a, b, c, d));
    a := Do(t, x, FF(b, c, d), a, b, c, d, 0, 7, 0);
    d := Do(t, x, FF(a, b, c), d, a, b, c, 1, 12, 1);
    c := Do(t, x, FF(d, a, b), c, d, a, b, 2, 17, 2);
    b := Do(t, x, FF(c, d, a), b, c, d, a, 3, 22, 3);
    FourSteps(t, x, r0, 4, Regs(a, b, c, d));
    a := Do(t, x, FF(b, c, d), a, b, c, d, 4, 7, 4);
    d := Do(t, x, FF(a, b, c), d, a, b, c, 5, 12, 5);
    c := Do(t, x, FF(d, a, b), c, d, a, b, 6, 17, 6);
    b := Do(t, x, FF(c, d, a), b, c, d, a, 7, 22, 7);
  }

  /** Round 1, second half. */
  method Steps8(t: Sines, x: Words, a0: bv32, b0: bv32, c0: bv32, d0: bv32, ghost r0: Regs)
    returns (a: bv32, b: bv32, c: bv32, d: bv32)
    requires Regs(a0, b0, c0, d0) == Steps(t, x, r0, 8)
    ensures Regs(a, b, c, d) == Steps(t, x, r0, 16)
  {
    hide OpAt;
    hide Steps;
    hide FF;
    a, b, c, d := a0, b0, c0, d0;
    FourSteps(t, x, r0, 8, Regs(a, b, c, d));
    a := Do(t, x, FF(b, c, d), a, b, c, d, 8, 7, 8);
    d := Do(t, x, FF(a, b, c), d, a, b, c, 9, 12, 9);
    c := Do(t, x, FF(d, a, b), c, d, a, b, 10, 17, 10);
    b := Do(t, x, FF(c, d, a), b, c, d, a, 11, 22, 11);
    FourSteps(t, x, r0, 12, Regs(a, b, c, d));
    a := Do(t, x, FF(b, c, d), a, b, c, d, 12, 7, 12);
    d := Do(t, x, FF(a, b, c), d, a, b, c, 13, 12, 13);
    c := Do(t, x, FF(d, a, b), c, d, a, b, 14, 17, 14);
    b := Do(t, x, FF(c, d, a), b, c, d, a, 15, 22, 15);
  }

  /** Round 2, first half. */
  method Steps16(t: Sines, x: Words, a0: bv32, b0: bv32, c0: bv32, d0: bv32, ghost r0: Regs)
    returns (a: bv32, b: bv32, c: bv32, d: bv32)
    requires Regs(a0, b0, c0, d0) == Steps(t, x, r0, 16)
    ensures Regs(a, b, c, d) == Steps(t, x, r0, 24)
  {
    hide OpAt;
    hide Steps;
    hide FG;
    a, b, c, d := a0, b0, c0, d0;
    FourSteps(t, x, r0, 16, Regs(a, b, c, d));
    a := Do(t, x, FG(b, c, d), a, b, c, d, 1, 5, 16);
    d := Do(t, x, FG(a, b, c), d, a, b, c, 6, 9, 17);
    c := Do(t, x, FG(d, a, b), c, d, a, b, 11, 14, 18);
    b := Do(t, x, FG(c, d, a), b, c, d, a, 0, 20, 19);
    FourSteps(t, x, r0, 20, Regs(a, b, c, d));
    a := Do(t, x, FG(b, c, d), a, b, c, d, 5, 5, 20);
    d := Do(t, x, FG(a, b, c), d, a, b, c, 10, 9, 21);
    c := Do(t, x, FG(d, a, b), c, d, a, b, 15, 14, 22);
    b := Do(t, x, FG(c, d, a), b, c, d, a, 4, 20, 23);
  }

  /** Round 2, second half. */
  method Steps24(t: Sines, x: Words, a0: bv32, b0: bv32, c0: bv32, d0: bv32, ghost r0: Regs)
    returns (a: bv32, b: bv32, c: bv32, d: bv32)
    requires Regs(a0, b0, c0, d0) == Steps(t, x, r0, 24)
    ensures Regs(a, b, c, d) == Steps(t, x, r0, 32)
  {
    hide OpAt;
    hide Steps;
    hide FG;
    a, b, c, d := a0, b0, c0, d0;
    FourSteps(t, x, r0, 24, Regs(a, b, c, d));
    a := Do(t, x, FG(b, c, d), a, b, c, d, 9, 5, 24);
    d := Do(t, x, FG(a, b, c), d, a, b, c, 14, 9, 25);
    c := Do(t, x, FG(d, a, b), c, d, a, b, 3, 14, 26);
    b := Do(t, x, FG(c, d, a), b, c, d, a, 8, 20, 27);
    FourSteps(t, x, r0, 28, Regs(a, b, c, d));
    a := Do(t, x, FG(b, c, d), a, b, c, d, 13, 5, 28);
    d := Do(t, x, FG(a, b, c), d, a, b, c, 2, 9, 29);
    c := Do(t, x, FG(d, a, b), c, d, a, b, 7, 14, 30);
    b := Do(t, x, FG(c, d, a), b, c, d, a, 12, 20, 31);
  }

  /** Round 3, first half. */
  method Steps32(t: Sines, x: Words, a0: bv32, b0: bv32, c0: bv32, d0: bv32, ghost r0: Regs)
    returns (a: bv32, b: bv32, c: bv32, d: bv32)
    requires Regs(a0, b0, c0, d0) == Steps(t, x, r0, 32)
    ensures Regs(a, b, c, d) == Steps(t, x, r0, 40)
  {
    hide OpAt;
    hide Steps;
    hide FH;
    a, b, c, d := a0, b0, c0, d0;
    FourSteps(t, x, r0, 32, Regs(a, b, c, d));
    a := Do(t, x, FH(b, c, d), a, b, c, d, 5, 4, 32);
    d := Do(t, x, FH(a, b, c), d, a, b, c, 8, 11, 33);
    c := Do(t, x, FH(d, a, b), c, d, a, b, 11, 16, 34);
    b := Do(t, x, FH(c, d, a), b, c, d, a, 14, 23, 35);
    FourSteps(t, x, r0, 36, Regs(a, b, c, d));
    a := Do(t, x, FH(b, c, d), a, b, c, d, 1, 4, 36);
    d := Do(t, x, FH(a, b, c), d, a, b, c, 4, 11, 37);
    c := Do(t, x, FH(d, a, b), c, d, a, b, 7, 16, 38);
    b := Do(t, x, FH(c, d, a), b, c, d, a, 10, 23, 39);
  }

  /** Round 3, second half. */
  method Steps40(t: Sines, x: Words, a0: bv32, b0: bv32, c0: bv32, d0: bv32, ghost r0: Regs)
    returns (a: bv32, b: bv32, c: bv32, d: bv32)
    requires Regs(a0, b0, c0, d0) == Steps(t, x, r0, 40)
    ensures Regs(a, b, c, d) == Steps(t, x, r0, 48)
  {
    hide OpAt;
    hide Steps;
    hide FH;
    a, b, c, d := a0, b0, c0, d0;
    FourSteps(t, x, r0, 40, Regs(a, b, c, d));
    a := Do(t, x, FH(b, c, d), a, b, c, d, 13, 4, 40);
    d := Do(t, x, FH(a, b, c), d, a, b, c, 0, 11, 41);
    c := Do(t, x, FH(d, a, b), c, d, a, b, 3, 16, 42);
    b := Do(t, x, FH(c, d, a), b, c, d, a, 6, 23, 43);
    FourSteps(t, x, r0, 44, Regs(a, b, c, d));
    a := Do(t, x, FH(b, c, d), a, b, c, d, 9, 4, 44);
    d := Do(t, x, FH(a, b, c), d, a, b, c, 12, 11, 45);
    c := Do(t, x, FH(d, a, b), c, d, a, b, 15, 16, 46);
    b := Do(t, x, FH(c, d, a), b, c, d, a, 2, 23, 47);
  }

  /** Round 4, first half. */
  method Steps48(t: Sines, x: Words, a0: bv32, b0: bv32, c0: bv32, d0: bv32, ghost r0: Regs)
    returns (a: bv32, b: bv32, c: bv32, d: bv32)
    requires Regs(a0, b0, c0, d0) == Steps(t, x, r0, 48)
    ensures Regs(a, b, c, d) == Steps(t, x, r0, 56)
  {
    hide OpAt;
    hide Steps;
    hide FI;
    a, b, c, d := a0, b0, c0, d0;
    FourSteps(t, x, r0, 48, Regs(a, b, c, d));
    a := Do(t, x, FI(b, c, d), a, b, c, d, 0, 6, 48);
    d := Do(t, x, FI(a, b, c), d, a, b, c, 7, 10, 49);
    c := Do(t, x, FI(d, a, b), c, d, a, b, 14, 15, 50);
    b := Do(t, x, FI(c, d, a), b, c, d, a, 5, 21, 51);
    FourSteps(t, x, r0, 52, Regs(a, b, c, d));
    a := Do(t, x, FI(b, c, d), a, b, c, d, 12, 6, 52);
    d := Do(t, x, FI(a, b, c), d, a, b, c, 3, 10, 53);
    c := Do(t, x, FI(d, a, b), c, d, a, b, 10, 15, 54);
    b := Do(t, x, FI(c, d, a), b, c, d, a, 1, 21, 55);
  }

  /** Round 4, second half. */
  method Steps56(t: Sines, x: Words, a0: bv32, b0: bv32, c0: bv32, d0: bv32, ghost r0: Regs)
    returns (a: bv32, b: bv32, c: bv32, d: bv32)
    requires Regs(a0, b0, c0, d0) == Steps(t, x, r0, 56)
    ensures Regs(a, b, c, d) == Steps(t, x, r0, 64)
  {
    hide OpAt;
    hide Steps;
    hide FI;
    a, b, c, d := a0, b0, c0, d0;
    FourSteps(t, x, r0, 56, Regs(a, b, c, d));
    a := Do(t, x, FI(b, c, d), a, b, c, d, 8, 6, 56);
    d := Do(t, x, FI(a, b, c), d, a, b, c, 15, 10, 57);
    c := Do(t, x, FI(d, a, b), c, d, a, b, 6, 15, 58);
    b := Do(t, x, FI(c, d, a), b, c, d, a, 13, 21, 59);
    FourSteps(t, x, r0, 60, Regs(a, b, c, d));
    a := Do(t, x, FI(b, c, d), a, b, c, d, 4, 6, 60);
    d := Do(t, x, FI(a, b, c), d, a, b, c, 11, 10, 61);
    c := Do(t, x, FI(d, a, b), c, d, a, b, 2, 15, 62);
    b := Do(t, x, FI(c, d, a), b, c, d, a, 9, 21, 63);
  }

  /** The words of a block as the program gets them, correct_words. */
  function CorrectWords(big: bool, block: Bytes): Words
    requires |block| == 64
  {
    seq(16, i requires 0 <= i < 16 =>
      Swap(big, Native(big, block[4 * i], block[4 * i + 1], block[4 * i + 2], block[4 * i + 3])))
  }

  lemma WordsCorrect(big: bool, block: Bytes)
    requires |block| == 64
    ensures CorrectWords(big, block) == WordsOf(block)
  {
    hide Swap;
    hide Native;
    hide LeWord;
    forall i | 0 <= i < 16
      ensures CorrectWords(big, block)[i] == WordsOf(block)[i]
    {
      SwapFixesOrder(big, block[4 * i], block[4 * i + 1], block[4 * i + 2], block[4 * i + 3], 0);
    }
  }

  /** The body of the loop at lines 273-398. */
  method OneBlock(big: bool, t: Sines, r: Regs, block: Bytes) returns (r': Regs)
    requires |block| == 64
    ensures r' == Compress(t, r, block)
  {
    hide Steps;
    hide Sum;
    hide WordsOf;
    hide CorrectWords;
    WordsCorrect(big, block);
    NoSteps(t, WordsOf(block), r);
    var x := CorrectWords(big, block);
    var a, b, c, d := r.a, r.b, r.c, r.d;
    a, b, c, d := Steps0(t, x, a, b, c, d, r);
    a, b, c, d := Steps8(t, x, a, b, c, d, r);
    a, b, c, d := Steps16(t, x, a, b, c, d, r);
    a, b, c, d := Steps24(t, x, a, b, c, d, r);
    a, b, c, d := Steps32(t, x, a, b, c, d, r);
    a, b, c, d := Steps40(t, x, a, b, c, d, r);
    a, b, c, d := Steps48(t, x, a, b, c, d, r);
    a, b, c, d := Steps56(t, x, a, b, c, d, r);
    r' := Regs(Sum(a, r.a), Sum(b, r.b), Sum(c, r.c), Sum(d, r.d));
  }

  lemma NoSteps(t: Sines, x: Words, r: Regs)
    ensures Steps(t, x, r, 0) == r
  {
  }
}
