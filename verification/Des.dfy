/** DES on 32-bit words, crypt/des_impl.c:354-356, 382-396 and 471-561.  The contents of the combined S-box and
permutation tables and of the key schedule are parameters: nothing below depends on them. */
module Des {

  type SpTables = t: seq<seq<bv32>> | |t| == 8 && forall i :: 0 <= i < 8 ==> |t[i]| == 64
    witness seq(8, _ => seq(64, _ => 0 as bv32))

  type Schedule = s: seq<bv32> | |s| == 32 witness seq(32, _ => 0 as bv32)

  datatype Block = Block(l: bv32, r: bv32)

  function Swap(x: Block): Block { Block(x.r, x.l) }

  // ----- PERM_OP -----

  /** PERM_OP (a, b, t, n, m): exchange the bits of b under m with the bits of a n places higher. */
  function PermOp(a: bv32, b: bv32, n: nat, m: bv32): (bv32, bv32)
    requires n <= 16
  {
    var t := ((a >> n) ^ b) & m;
    (a ^ (t << n), b ^ t)
  }

  function Xor(a: bv32, b: bv32): bv32 { a ^ b }

  // Each of the five exchanges undoes itself, because no bit of its mask is shifted out.

  lemma Twice4(a: bv32, b: bv32)
    ensures var p := PermOp(a, b, 4, 0x0f0f0f0f); PermOp(p.0, p.1, 4, 0x0f0f0f0f) == (a, b)
  {
  }

  lemma Twice16(a: bv32, b: bv32)
    ensures var p := PermOp(a, b, 16, 0x0000ffff); PermOp(p.0, p.1, 16, 0x0000ffff) == (a, b)
  {
  }

  lemma Twice2(a: bv32, b: bv32)
    ensures var p := PermOp(a, b, 2, 0x33333333); PermOp(p.0, p.1, 2, 0x33333333) == (a, b)
  {
  }

  lemma Twice8(a: bv32, b: bv32)
    ensures var p := PermOp(a, b, 8, 0x00ff00ff); PermOp(p.0, p.1, 8, 0x00ff00ff) == (a, b)
  {
  }

  lemma Twice1(a: bv32, b: bv32)
    ensures var p := PermOp(a, b, 1, 0x55555555); PermOp(p.0, p.1, 1, 0x55555555) == (a, b)
  {
  }

  /** The five exchanges of IP, with r and l as the first operand in turn. */
  function Exchange(x: Block, k: nat): Block
    requires k < 5
  {
    if k == 0 then var p := PermOp(x.r, x.l, 4, 0x0f0f0f0f); Block(p.1, p.0)
    else if k == 1 then var p := PermOp(x.l, x.r, 16, 0x0000ffff); Block(p.0, p.1)
    else if k == 2 then var p := PermOp(x.r, x.l, 2, 0x33333333); Block(p.1, p.0)
    else if k == 3 then var p := PermOp(x.l, x.r, 8, 0x00ff00ff); Block(p.0, p.1)
    else var p := PermOp(x.r, x.l, 1, 0x55555555); Block(p.1, p.0)
  }

  /** Each exchange undoes itself. */
  lemma ExchangeTwice(x: Block, k: nat)
    requires k < 5
    ensures Exchange(Exchange(x, k), k) == x
  {
    hide PermOp;
    Twice4(x.r, x.l);
    Twice16(x.l, x.r);
    Twice2(x.r, x.l);
    Twice8(x.l, x.r);
    Twice1(x.r, x.l);
  }

  function Ip(x: Block): Block { Exchange(Exchange(Exchange(Exchange(Exchange(x, 0), 1), 2), 3), 4) }

  function Fp(x: Block): Block { Exchange(Exchange(Exchange(Exchange(Exchange(x, 4), 3), 2), 1), 0) }

  lemma FpIp(x: Block)
    ensures Fp(Ip(x)) == x && Ip(Fp(x)) == x
  {
    hide Exchange;
    var a := Exchange(x, 0);
    var b := Exchange(a, 1);
    var c := Exchange(b, 2);
    var d := Exchange(c, 3);
    ExchangeTwice(d, 4);
    ExchangeTwice(c, 3);
    ExchangeTwice(b, 2);
    ExchangeTwice(a, 1);
    ExchangeTwice(x, 0);
    a := Exchange(x, 4);
    b := Exchange(a, 3);
    c := Exchange(b, 2);
    d := Exchange(c, 1);
    ExchangeTwice(d, 0);
    ExchangeTwice(c, 1);
    ExchangeTwice(b, 2);
    ExchangeTwice(a, 3);
    ExchangeTwice(x, 4);
  }

  // ----- Rounds -----

  function RolL1(x: bv32): bv32 { (x << 1) | (x >> 31) }

  function RorL1(x: bv32): bv32 { (x << 31) | (x >> 1) }

  lemma RotateBack(x: bv32)
    ensures RorL1(RolL1(x)) == x && RolL1(RorL1(x)) == x
  {
  }

  function Low6(t: bv32): (i: nat)
    ensures i < 64
  {
    (t & 0x3f) as nat
  }

  function Six(t: bv32, n: nat): (i: nat)
    requires n <= 24
    ensures i < 64
  {
    Low6(t >> n)
  }

  function RotR4(v: bv32): bv32 { (v >> 4) + (v << 28) }

  function Or(a: bv32, b: bv32): bv32 { a | b }

  /** What D_ENCRYPT adds to the left half: R under the key words S and S + 1. */
  function F(sp: SpTables, s: Schedule, r: bv32, k: nat): bv32
    requires k < 31
  {
    var u := Xor(r, s[k]);
    var t := RotR4(Xor(r, s[k + 1]));
    Or(Or(Or(Or(Or(Or(Or(sp[1][Six(t, 0)], sp[3][Six(t, 8)]), sp[5][Six(t, 16)]), sp[7][Six(t, 24)]),
                sp[0][Six(u, 0)]), sp[2][Six(u, 8)]), sp[4][Six(u, 16)]), sp[6][Six(u, 24)])
  }

  /** Two rounds, with the keys at j and k. */
  function TwoRounds(sp: SpTables, s: Schedule, x: Block, j: nat, k: nat): Block
    requires j < 31 && k < 31
  {
    var l := Xor(x.l, F(sp, s, x.r, j));
    Block(l, Xor(x.r, F(sp, s, l, k)))
  }

  /** n double rounds with the keys in rising order. */
  function Rising(sp: SpTables, s: Schedule, x: Block, n: nat): Block
    requires n <= 8
  {
    if n == 0 then x else TwoRounds(sp, s, Rising(sp, s, x, n - 1), 4 * (n - 1), 4 * (n - 1) + 2)
  }

  /** n double rounds with the keys in falling order. */
  function Falling(sp: SpTables, s: Schedule, x: Block, n: nat): Block
    requires n <= 8
  {
    if n == 0 then x else TwoRounds(sp, s, Falling(sp, s, x, n - 1), 34 - 4 * n, 32 - 4 * n)
  }

  lemma TwoRoundsBack(sp: SpTables, s: Schedule, x: Block, j: nat, k: nat)
    requires j < 31 && k < 31
    ensures TwoRounds(sp, s, Swap(TwoRounds(sp, s, x, j, k)), k, j) == Swap(x)
  {
    hide F;
    hide Xor;
    var l := Xor(x.l, F(sp, s, x.r, j));
    XorBack(x.r, F(sp, s, l, k));
    XorBack(x.l, F(sp, s, x.r, j));
  }

  lemma XorBack(a: bv32, b: bv32)
    ensures Xor(Xor(a, b), b) == a
  {
  }

  /** Falling keys on the exchanged halves take back as many double rounds as one likes. */
  lemma {:induction false} FallingUndoes(sp: SpTables, s: Schedule, x: Block, n: nat)
    requires n <= 8
    ensures Falling(sp, s, Swap(Rising(sp, s, x, 8)), n) == Swap(Rising(sp, s, x, 8 - n))
  {
    hide TwoRounds;
    if n > 0 {
      FallingUndoes(sp, s, x, n - 1);
      var k := 8 - n;
      assert Rising(sp, s, x, k + 1) == TwoRounds(sp, s, Rising(sp, s, x, k), 4 * k, 4 * k + 2);
      TwoRoundsBack(sp, s, Rising(sp, s, x, k), 4 * k, 4 * k + 2);
    }
  }

  lemma {:induction false} RisingUndoes(sp: SpTables, s: Schedule, x: Block, n: nat)
    requires n <= 8
    ensures Rising(sp, s, Swap(Falling(sp, s, x, 8)), n) == Swap(Falling(sp, s, x, 8 - n))
  {
    hide TwoRounds;
    if n > 0 {
      RisingUndoes(sp, s, x, n - 1);
      var k := 9 - n;
      assert Falling(sp, s, x, k) == TwoRounds(sp, s, Falling(sp, s, x, k - 1), 34 - 4 * k, 32 - 4 * k);
      TwoRoundsBack(sp, s, Falling(sp, s, x, k - 1), 34 - 4 * k, 32 - 4 * k);
    }
  }

  // ----- des_encrypt -----

  /** After IP the halves change places and are rotated. */
  function Start(x: Block): Block { var y := Ip(x); Block(RolL1(y.r), RolL1(y.l)) }

  function Finish(x: Block): Block { Fp(Block(RorL1(x.l), RorL1(x.r))) }

  function Crypt(sp: SpTables, s: Schedule, x: Block, encrypt: bool): Block
  {
    Finish(if encrypt then Rising(sp, s, Start(x), 8) else Falling(sp, s, Start(x), 8))
  }

  lemma StartFinish(x: Block)
    ensures Start(Finish(x)) == Swap(x) && Finish(Swap(Start(x))) == x
  {
    hide Ip;
    hide Fp;
    hide RolL1;
    hide RorL1;
    FpIp(Block(RorL1(x.l), RorL1(x.r)));
    RotateBack(x.l);
    RotateBack(x.r);
    FpIp(x);
    RotateBack(Ip(x).l);
    RotateBack(Ip(x).r);
  }

  /** Decrypting undoes encrypting and the other way round, for any tables and any schedule. */
  lemma DecryptEncrypt(sp: SpTables, s: Schedule, x: Block)
    ensures Crypt(sp, s, Crypt(sp, s, x, true), false) == x
    ensures Crypt(sp, s, Crypt(sp, s, x, false), true) == x
  {
    var up, down := Rising(sp, s, Start(x), 8), Falling(sp, s, Start(x), 8);
    StartFinish(up);
    StartFinish(down);
    FallingUndoes(sp, s, Start(x), 8);
    RisingUndoes(sp, s, Start(x), 8);
    StartFinish(x);
  }

  method DesEncrypt(buf: array<bv32>, sp: SpTables, s: Schedule, encrypt: bool)
    requires buf.Length == 2
    modifies buf
    ensures Block(buf[0], buf[1]) == Crypt(sp, s, old(Block(buf[0], buf[1])), encrypt)
  {
    hide PermOp;
    hide F;
    hide RolL1;
    hide RorL1;
    hide Xor;
    ghost var x := Block(buf[0], buf[1]);
    var l, r := InitialPerm(buf[0], buf[1]);
    var t := RolL1(r);
    r := RolL1(l);
    l := t;
    assert Block(l, r) == Start(x);
    l, r := Rounds(l, r, sp, s, encrypt);
    l := RorL1(l);
    r := RorL1(r);
    l, r := FinalPerm(l, r);
    buf[0], buf[1] := l, r;
  }

  /** Lines 516-532. */
  method Rounds(l0: bv32, r0: bv32, sp: SpTables, s: Schedule, encrypt: bool) returns (l: bv32, r: bv32)
    ensures Block(l, r) == if encrypt then Rising(sp, s, Block(l0, r0), 8) else Falling(sp, s, Block(l0, r0), 8)
  {
    hide F;
    hide Xor;
    l, r := l0, r0;
    ghost var n := 0;
    if encrypt {
      var i := 0;
      while i < 32
        invariant 0 <= n <= 8 && i == 4 * n
        invariant Block(l, r) == Rising(sp, s, Block(l0, r0), n)
      {
        l := Xor(l, F(sp, s, r, i));
        r := Xor(r, F(sp, s, l, i + 2));
        i, n := i + 4, n + 1;
      }
    } else {
      var i := 30;
      while i > 0
        invariant 0 <= n <= 8 && i == 30 - 4 * n
        invariant Block(l, r) == Falling(sp, s, Block(l0, r0), n)
      {
        l := Xor(l, F(sp, s, r, i));
        r := Xor(r, F(sp, s, l, i - 2));
        i, n := i - 4, n + 1;
      }
    }
  }

  /** PERM_OP assigns both its operands. */
  method DoPermOp(a: bv32, b: bv32, n: nat, m: bv32) returns (a': bv32, b': bv32)
    requires n <= 16
    ensures (a', b') == PermOp(a, b, n, m)
  {
    var p := PermOp(a, b, n, m);
    a', b' := p.0, p.1;
  }

  /** Lines 484-488. */
  method InitialPerm(l: bv32, r: bv32) returns (l': bv32, r': bv32)
    ensures Block(l', r') == Ip(Block(l, r))
  {
    hide PermOp;
    l', r' := l, r;
    r', l' := DoPermOp(r', l', 4, 0x0f0f0f0f);
    l', r' := DoPermOp(l', r', 16, 0x0000ffff);
    r', l' := DoPermOp(r', l', 2, 0x33333333);
    l', r' := DoPermOp(l', r', 8, 0x00ff00ff);
    r', l' := DoPermOp(r', l', 1, 0x55555555);
  }

  /** Lines 551-555. */
  method FinalPerm(l: bv32, r: bv32) returns (l': bv32, r': bv32)
    ensures Block(l', r') == Fp(Block(l, r))
  {
    hide PermOp;
    l', r' := l, r;
    r', l' := DoPermOp(r', l', 1, 0x55555555);
    l', r' := DoPermOp(l', r', 8, 0x00ff00ff);
    r', l' := DoPermOp(r', l', 2, 0x33333333);
    l', r' := DoPermOp(l', r', 16, 0x0000ffff);
    r', l' := DoPermOp(r', l', 4, 0x0f0f0f0f);
  }
}
