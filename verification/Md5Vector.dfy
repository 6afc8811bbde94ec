/** A known answer: the digest of "abc" in the test suite of RFC 1321 (appendix A.5), with the sines of
crypt/md5.c:309-391. */
module Md5Vector {
  import opened ByteOrder
  import opened Md5Block
  import opened Md5

  function Of8(j: nat, x0: bv32, x1: bv32, x2: bv32, x3: bv32, x4: bv32, x5: bv32, x6: bv32, x7: bv32): bv32
  {
    if j == 0 then x0 else if j == 1 then x1 else if j == 2 then x2 else if j == 3 then x3
    else if j == 4 then x4 else if j == 5 then x5 else if j == 6 then x6 else x7
  }

  /** The integer part of 2^32 times the sine of i + 1 in radians, without its sign. */
  function Sine(i: nat): bv32
  {
    match i / 8
    case 0 => Of8(i % 8, 0xd76aa478, 0xe8c7b756, 0x242070db, 0xc1bdceee, 0xf57c0faf, 0x4787c62a, 0xa8304613, 0xfd469501)
    case 1 => Of8(i % 8, 0x698098d8, 0x8b44f7af, 0xffff5bb1, 0x895cd7be, 0x6b901122, 0xfd987193, 0xa679438e, 0x49b40821)
    case 2 => Of8(i % 8, 0xf61e2562, 0xc040b340, 0x265e5a51, 0xe9b6c7aa, 0xd62f105d, 0x02441453, 0xd8a1e681, 0xe7d3fbc8)
    case 3 => Of8(i % 8, 0x21e1cde6, 0xc33707d6, 0xf4d50d87, 0x455a14ed, 0xa9e3e905, 0xfcefa3f8, 0x676f02d9, 0x8d2a4c8a)
    case 4 => Of8(i % 8, 0xfffa3942, 0x8771f681, 0x6d9d6122, 0xfde5380c, 0xa4beea44, 0x4bdecfa9, 0xf6bb4b60, 0xbebfbc70)
    case 5 => Of8(i % 8, 0x289b7ec6, 0xeaa127fa, 0xd4ef3085, 0x04881d05, 0xd9d4d039, 0xe6db99e5, 0x1fa27cf8, 0xc4ac5665)
    case 6 => Of8(i % 8, 0xf4292244, 0x432aff97, 0xab9423a7, 0xfc93a039, 0x655b59c3, 0x8f0ccc92, 0xffeff47d, 0x85845dd1)
    case _ => Of8(i % 8, 0x6fa87e4f, 0xfe2ce6e0, 0xa3014314, 0x4e0811a1, 0xf7537e82, 0xbd3af235, 0x2ad7d2bb, 0xeb86d391)
  }

  const SINES: Sines := seq(64, i requires 0 <= i < 64 => Sine(i))

  /** The words of the one block that "abc" is padded to. */
  function AbcWord(k: nat): bv32 { if k == 0 then 0x80636261 else if k == 14 then 24 else 0 }

  const ABC: Words := seq(16, k requires 0 <= k < 16 => AbcWord(k))

  lemma StepIs(n: nat, a: bv32, b: bv32, c: bv32, d: bv32, x: bv32, s: nat, t: bv32, v: bv32)
    requires n < 64 && s <= 32 && x == AbcWord(WordIndex(n)) && s == Turn(n) && t == Sine(n)
    requires v == Op(ProgramAux(n, b, c, d), a, b, x, s, t)
    ensures OpAt(SINES, ABC, n, a, b, c, d) == v
  {
    hide Op;
    hide ProgramAux;
    hide AbcWord;
    hide Sine;
    hide WordIndex;
    hide Turn;
  }

  lemma FourAre(n: nat, a: bv32, b: bv32, c: bv32, d: bv32, a': bv32, d': bv32, c': bv32, b': bv32)
    requires n + 4 <= 64 && Steps(SINES, ABC, INIT, n) == Regs(a, b, c, d)
    requires OpAt(SINES, ABC, n, a, b, c, d) == a' && OpAt(SINES, ABC, n + 1, d, a', b, c) == d'
    requires OpAt(SINES, ABC, n + 2, c, d', a', b) == c' && OpAt(SINES, ABC, n + 3, b, c', d', a') == b'
    ensures Steps(SINES, ABC, INIT, n + 4) == Regs(a', b', c', d')
  {
    FourSteps(SINES, ABC, INIT, n, Regs(a, b, c, d));
    hide OpAt;
    hide Steps;
  }

  lemma Values0()
    ensures OpAt(SINES, ABC, 0, 0x67452301, 0xefcdab89, 0x98badcfe, 0x10325476) == 0xd6d117b4
    ensures OpAt(SINES, ABC, 1, 0x10325476, 0xd6d117b4, 0xefcdab89, 0x98badcfe) == 0x344a8432
    ensures OpAt(SINES, ABC, 2, 0x98badcfe, 0x344a8432, 0xd6d117b4, 0xefcdab89) == 0x2f6fbd72
    ensures OpAt(SINES, ABC, 3, 0xefcdab89, 0x2f6fbd72, 0x344a8432, 0xd6d117b4) == 0x7ad956f2
  {
    hide OpAt;
    StepIs(0, 0x67452301, 0xefcdab89, 0x98badcfe, 0x10325476, 0x80636261, 7, 0xd76aa478, 0xd6d117b4);
    StepIs(1, 0x10325476, 0xd6d117b4, 0xefcdab89, 0x98badcfe, 0x00000000, 12, 0xe8c7b756, 0x344a8432);
    StepIs(2, 0x98badcfe, 0x344a8432, 0xd6d117b4, 0xefcdab89, 0x00000000, 17, 0x242070db, 0x2f6fbd72);
    StepIs(3, 0xefcdab89, 0x2f6fbd72, 0x344a8432, 0xd6d117b4, 0x00000000, 22, 0xc1bdceee, 0x7ad956f2);
  }

  lemma Steps0()
    requires Steps(SINES, ABC, INIT, 0) == Regs(0x67452301, 0xefcdab89, 0x98badcfe, 0x10325476)
    ensures Steps(SINES, ABC, INIT, 4) == Regs(0xd6d117b4, 0x7ad956f2, 0x2f6fbd72, 0x344a8432)
  {
    hide *;
    Values0();
    FourAre(0, 0x67452301, 0xefcdab89, 0x98badcfe, 0x10325476, 0xd6d117b4, 0x344a8432, 0x2f6fbd72, 0x7ad956f2);
  }

  lemma Values4()
    ensures OpAt(SINES, ABC, 4, 0xd6d117b4, 0x7ad956f2, 0x2f6fbd72, 0x344a8432) == 0xc73741ef
    ensures OpAt(SINES, ABC, 5, 0x344a8432, 0xc73741ef, 0x7ad956f2, 0x2f6fbd72) == 0x8bac3051
    ensures OpAt(SINES, ABC, 6, 0x2f6fbd72, 0x8bac3051, 0xc73741ef, 0x7ad956f2) == 0x207dc67b
    ensures OpAt(SINES, ABC, 7, 0x7ad956f2, 0x207dc67b, 0x8bac3051, 0xc73741ef) == 0x928d99f6
  {
    hide OpAt;
    StepIs(4, 0xd6d117b4, 0x7ad956f2, 0x2f6fbd72, 0x344a8432, 0x00000000, 7, 0xf57c0faf, 0xc73741ef);
    StepIs(5, 0x344a8432, 0xc73741ef, 0x7ad956f2, 0x2f6fbd72, 0x00000000, 12, 0x4787c62a, 0x8bac3051);
    StepIs(6, 0x2f6fbd72, 0x8bac3051, 0xc73741ef, 0x7ad956f2, 0x00000000, 17, 0xa8304613, 0x207dc67b);
    StepIs(7, 0x7ad956f2, 0x207dc67b, 0x8bac3051, 0xc73741ef, 0x00000000, 22, 0xfd469501, 0x928d99f6);
  }

  lemma Steps4()
    requires Steps(SINES, ABC, INIT, 4) == Regs(0xd6d117b4, 0x7ad956f2, 0x2f6fbd72, 0x344a8432)
    ensures Steps(SINES, ABC, INIT, 8) == Regs(0xc73741ef, 0x928d99f6, 0x207dc67b, 0x8bac3051)
  {
    hide *;
    Values4();
    FourAre(4, 0xd6d117b4, 0x7ad956f2, 0x2f6fbd72, 0x344a8432, 0xc73741ef, 0x8bac3051, 0x207dc67b, 0x928d99f6);
  }

  lemma Values8()
    ensures OpAt(SINES, ABC, 8, 0xc73741ef, 0x928d99f6, 0x207dc67b, 0x8bac3051) == 0x854b3712
    ensures OpAt(SINES, ABC, 9, 0x8bac3051, 0x854b3712, 0x928d99f6, 0x207dc67b) == 0x74e2f284
    ensures OpAt(SINES, ABC, 10, 0x207dc67b, 0x74e2f284, 0x854b3712, 0x928d99f6) == 0x3020401c
    ensures OpAt(SINES, ABC, 11, 0x928d99f6, 0x3020401c, 0x74e2f284, 0x854b3712) == 0x5ed49596
  {
    hide OpAt;
    StepIs(8, 0xc73741ef, 0x928d99f6, 0x207dc67b, 0x8bac3051, 0x00000000, 7, 0x698098d8, 0x854b3712);
    StepIs(9, 0x8bac3051, 0x854b3712, 0x928d99f6, 0x207dc67b, 0x00000000, 12, 0x8b44f7af, 0x74e2f284);
    StepIs(10, 0x207dc67b, 0x74e2f284, 0x854b3712, 0x928d99f6, 0x00000000, 17, 0xffff5bb1, 0x3020401c);
    StepIs(11, 0x928d99f6, 0x3020401c, 0x74e2f284, 0x854b3712, 0x00000000, 22, 0x895cd7be, 0x5ed49596);
  }

  lemma Steps8()
    requires Steps(SINES, ABC, INIT, 8) == Regs(0xc73741ef, 0x928d99f6, 0x207dc67b, 0x8bac3051)
    ensures Steps(SINES, ABC, INIT, 12) == Regs(0x854b3712, 0x5ed49596, 0x3020401c, 0x74e2f284)
  {
    hide *;
    Values8();
    FourAre(8, 0xc73741ef, 0x928d99f6, 0x207dc67b, 0x8bac3051, 0x854b3712, 0x74e2f284, 0x3020401c, 0x5ed49596);
  }

  lemma Values12()
    ensures OpAt(SINES, ABC, 12, 0x854b3712, 0x5ed49596, 0x3020401c, 0x74e2f284) == 0xdda9b9a6
    ensures OpAt(SINES, ABC, 13, 0x74e2f284, 0xdda9b9a6, 0x5ed49596, 0x3020401c) == 0xa1051895
    ensures OpAt(SINES, ABC, 14, 0x3020401c, 0xa1051895, 0xdda9b9a6, 0x5ed49596) == 0xe396856b
    ensures OpAt(SINES, ABC, 15, 0x5ed49596, 0xe396856b, 0xa1051895, 0xdda9b9a6) == 0x72aff2e0
  {
    hide OpAt;
    StepIs(12, 0x854b3712, 0x5ed49596, 0x3020401c, 0x74e2f284, 0x00000000, 7, 0x6b901122, 0xdda9b9a6);
    StepIs(13, 0x74e2f284, 0xdda9b9a6, 0x5ed49596, 0x3020401c, 0x00000000, 12, 0xfd987193, 0xa1051895);
    StepIs(14, 0x3020401c, 0xa1051895, 0xdda9b9a6, 0x5ed49596, 0x00000018, 17, 0xa679438e, 0xe396856b);
    StepIs(15, 0x5ed49596, 0xe396856b, 0xa1051895, 0xdda9b9a6, 0x00000000, 22, 0x49b40821, 0x72aff2e0);
  }

  lemma Steps12()
    requires Steps(SINES, ABC, INIT, 12) == Regs(0x854b3712, 0x5ed49596, 0x3020401c, 0x74e2f284)
    ensures Steps(SINES, ABC, INIT, 16) == Regs(0xdda9b9a6, 0x72aff2e0, 0xe396856b, 0xa1051895)
  {
    hide *;
    Values12();
    FourAre(12, 0x854b3712, 0x5ed49596, 0x3020401c, 0x74e2f284, 0xdda9b9a6, 0xa1051895, 0xe396856b, 0x72aff2e0);
  }

  lemma Values16()
    ensures OpAt(SINES, ABC, 16, 0xdda9b9a6, 0x72aff2e0, 0xe396856b, 0xa1051895) == 0x3e9e9126
    ensures OpAt(SINES, ABC, 17, 0xa1051895, 0x3e9e9126, 0x72aff2e0, 0xe396856b) == 0x4a1d804e
    ensures OpAt(SINES, ABC, 18, 0xe396856b, 0x4a1d804e, 0x3e9e9126, 0x72aff2e0) == 0xe25e1652
    ensures OpAt(SINES, ABC, 19, 0x72aff2e0, 0xe25e1652, 0x4a1d804e, 0x3e9e9126) == 0xb5b204e4
  {
    hide OpAt;
    StepIs(16, 0xdda9b9a6, 0x72aff2e0, 0xe396856b, 0xa1051895, 0x00000000, 5, 0xf61e2562, 0x3e9e9126);
    StepIs(17, 0xa1051895, 0x3e9e9126, 0x72aff2e0, 0xe396856b, 0x00000000, 9, 0xc040b340, 0x4a1d804e);
    StepIs(18, 0xe396856b, 0x4a1d804e, 0x3e9e9126, 0x72aff2e0, 0x00000000, 14, 0x265e5a51, 0xe25e1652);
    StepIs(19, 0x72aff2e0, 0xe25e1652, 0x4a1d804e, 0x3e9e9126, 0x80636261, 20, 0xe9b6c7aa, 0xb5b204e4);
  }

  lemma Steps16()
    requires Steps(SINES, ABC, INIT, 16) == Regs(0xdda9b9a6, 0x72aff2e0, 0xe396856b, 0xa1051895)
    ensures Steps(SINES, ABC, INIT, 20) == Regs(0x3e9e9126, 0xb5b204e4, 0xe25e1652, 0x4a1d804e)
  {
    hide *;
    Values16();
    FourAre(16, 0xdda9b9a6, 0x72aff2e0, 0xe396856b, 0xa1051895, 0x3e9e9126, 0x4a1d804e, 0xe25e1652, 0xb5b204e4);
  }

  lemma Values20()
    ensures OpAt(SINES, ABC, 20, 0x3e9e9126, 0xb5b204e4, 0xe25e1652, 0x4a1d804e) == 0x59a8ffda
    ensures OpAt(SINES, ABC, 21, 0x4a1d804e, 0x59a8ffda, 0xb5b204e4, 0xe25e1652) == 0x6d002f1e
    ensures OpAt(SINES, ABC, 22, 0xe25e1652, 0x6d002f1e, 0x59a8ffda, 0xb5b204e4) == 0xabfc7920
    ensures OpAt(SINES, ABC, 23, 0xb5b204e4, 0xabfc7920, 0x6d002f1e, 0x59a8ffda) == 0x47092c07
  {
    hide OpAt;
    StepIs(20, 0x3e9e9126, 0xb5b204e4, 0xe25e1652, 0x4a1d804e, 0x00000000, 5, 0xd62f105d, 0x59a8ffda);
    StepIs(21, 0x4a1d804e, 0x59a8ffda, 0xb5b204e4, 0xe25e1652, 0x00000000, 9, 0x02441453, 0x6d002f1e);
    StepIs(22, 0xe25e1652, 0x6d002f1e, 0x59a8ffda, 0xb5b204e4, 0x00000000, 14, 0xd8a1e681, 0xabfc7920);
    StepIs(23, 0xb5b204e4, 0xabfc7920, 0x6d002f1e, 0x59a8ffda, 0x00000000, 20, 0xe7d3fbc8, 0x47092c07);
  }

  lemma Steps20()
    requires Steps(SINES, ABC, INIT, 20) == Regs(0x3e9e9126, 0xb5b204e4, 0xe25e1652, 0x4a1d804e)
    ensures Steps(SINES, ABC, INIT, 24) == Regs(0x59a8ffda, 0x47092c07, 0xabfc7920, 0x6d002f1e)
  {
    hide *;
    Values20();
    FourAre(20, 0x3e9e9126, 0xb5b204e4, 0xe25e1652, 0x4a1d804e, 0x59a8ffda, 0x6d002f1e, 0xabfc7920, 0x47092c07);
  }

  lemma Values24()
    ensures OpAt(SINES, ABC, 24, 0x59a8ffda, 0x47092c07, 0xabfc7920, 0x6d002f1e) == 0xb7f268cf
    ensures OpAt(SINES, ABC, 25, 0x6d002f1e, 0xb7f268cf, 0x47092c07, 0xabfc7920) == 0x09388eff
    ensures OpAt(SINES, ABC, 26, 0xabfc7920, 0x09388eff, 0xb7f268cf, 0x47092c07) == 0xfe1623b1
    ensures OpAt(SINES, ABC, 27, 0x47092c07, 0xfe1623b1, 0x09388eff, 0xb7f268cf) == 0x786acb8f
  {
    hide OpAt;
    StepIs(24, 0x59a8ffda, 0x47092c07, 0xabfc7920, 0x6d002f1e, 0x00000000, 5, 0x21e1cde6, 0xb7f268cf);
    StepIs(25, 0x6d002f1e, 0xb7f268cf, 0x47092c07, 0xabfc7920, 0x00000018, 9, 0xc33707d6, 0x09388eff);
    StepIs(26, 0xabfc7920, 0x09388eff, 0xb7f268cf, 0x47092c07, 0x00000000, 14, 0xf4d50d87, 0xfe1623b1);
    StepIs(27, 0x47092c07, 0xfe1623b1, 0x09388eff, 0xb7f268cf, 0x00000000, 20, 0x455a14ed, 0x786acb8f);
  }

  lemma Steps24()
    requires Steps(SINES, ABC, INIT, 24) == Regs(0x59a8ffda, 0x47092c07, 0xabfc7920, 0x6d002f1e)
    ensures Steps(SINES, ABC, INIT, 28) == Regs(0xb7f268cf, 0x786acb8f, 0xfe1623b1, 0x09388eff)
  {
    hide *;
    Values24();
    FourAre(24, 0x59a8ffda, 0x47092c07, 0xabfc7920, 0x6d002f1e, 0xb7f268cf, 0x09388eff, 0xfe1623b1, 0x786acb8f);
  }

  lemma Values28()
    ensures OpAt(SINES, ABC, 28, 0xb7f268cf, 0x786acb8f, 0xfe1623b1, 0x09388eff) == 0x790a77fb
    ensures OpAt(SINES, ABC, 29, 0x09388eff, 0x790a77fb, 0x786acb8f, 0xfe1623b1) == 0x9f47e4f8
    ensures OpAt(SINES, ABC, 30, 0xfe1623b1, 0x9f47e4f8, 0x790a77fb, 0x786acb8f) == 0xa62884aa
    ensures OpAt(SINES, ABC, 31, 0x786acb8f, 0xa62884aa, 0x9f47e4f8, 0x790a77fb) == 0x726342d3
  {
    hide OpAt;
    StepIs(28, 0xb7f268cf, 0x786acb8f, 0xfe1623b1, 0x09388eff, 0x00000000, 5, 0xa9e3e905, 0x790a77fb);
    StepIs(29, 0x09388eff, 0x790a77fb, 0x786acb8f, 0xfe1623b1, 0x00000000, 9, 0xfcefa3f8, 0x9f47e4f8);
    StepIs(30, 0xfe1623b1, 0x9f47e4f8, 0x790a77fb, 0x786acb8f, 0x00000000, 14, 0x676f02d9, 0xa62884aa);
    StepIs(31, 0x786acb8f, 0xa62884aa, 0x9f47e4f8, 0x790a77fb, 0x00000000, 20, 0x8d2a4c8a, 0x726342d3);
  }

  lemma Steps28()
    requires Steps(SINES, ABC, INIT, 28) == Regs(0xb7f268cf, 0x786acb8f, 0xfe1623b1, 0x09388eff)
    ensures Steps(SINES, ABC, INIT, 32) == Regs(0x790a77fb, 0x726342d3, 0xa62884aa, 0x9f47e4f8)
  {
    hide *;
    Values28();
    FourAre(28, 0xb7f268cf, 0x786acb8f, 0xfe1623b1, 0x09388eff, 0x790a77fb, 0x9f47e4f8, 0xa62884aa, 0x726342d3);
  }

  lemma Values32()
    ensures OpAt(SINES, ABC, 32, 0x790a77fb, 0x726342d3, 0xa62884aa, 0x9f47e4f8) == 0xb3707ebf
    ensures OpAt(SINES, ABC, 33, 0x9f47e4f8, 0xb3707ebf, 0x726342d3, 0xa62884aa) == 0x60127b2e
    ensures OpAt(SINES, ABC, 34, 0xa62884aa, 0x60127b2e, 0xb3707ebf, 0x726342d3) == 0x8d212ff5
    ensures OpAt(SINES, ABC, 35, 0x726342d3, 0x8d212ff5, 0x60127b2e, 0xb3707ebf) == 0x3b0875c7
  {
    hide OpAt;
    StepIs(32, 0x790a77fb, 0x726342d3, 0xa62884aa, 0x9f47e4f8, 0x00000000, 4, 0xfffa3942, 0xb3707ebf);
    StepIs(33, 0x9f47e4f8, 0xb3707ebf, 0x726342d3, 0xa62884aa, 0x00000000, 11, 0x8771f681, 0x60127b2e);
    StepIs(34, 0xa62884aa, 0x60127b2e, 0xb3707ebf, 0x726342d3, 0x00000000, 16, 0x6d9d6122, 0x8d212ff5);
    StepIs(35, 0x726342d3, 0x8d212ff5, 0x60127b2e, 0xb3707ebf, 0x00000018, 23, 0xfde5380c, 0x3b0875c7);
  }

  lemma Steps32()
    requires Steps(SINES, ABC, INIT, 32) == Regs(0x790a77fb, 0x726342d3, 0xa62884aa, 0x9f47e4f8)
    ensures Steps(SINES, ABC, INIT, 36) == Regs(0xb3707ebf, 0x3b0875c7, 0x8d212ff5, 0x60127b2e)
  {
    hide *;
    Values32();
    FourAre(32, 0x790a77fb, 0x726342d3, 0xa62884aa, 0x9f47e4f8, 0xb3707ebf, 0x60127b2e, 0x8d212ff5, 0x3b0875c7);
  }

  lemma Values36()
    ensures OpAt(SINES, ABC, 36, 0xb3707ebf, 0x3b0875c7, 0x8d212ff5, 0x60127b2e) == 0x21b117b9
    ensures OpAt(SINES, ABC, 37, 0x60127b2e, 0x21b117b9, 0x3b0875c7, 0x8d212ff5) == 0x6e7429d5
    ensures OpAt(SINES, ABC, 38, 0x8d212ff5, 0x6e7429d5, 0x21b117b9, 0x3b0875c7) == 0x3575227e
    ensures OpAt(SINES, ABC, 39, 0x3b0875c7, 0x3575227e, 0x6e7429d5, 0x21b117b9) == 0x5a2f5ea5
  {
    hide OpAt;
    StepIs(36, 0xb3707ebf, 0x3b0875c7, 0x8d212ff5, 0x60127b2e, 0x00000000, 4, 0xa4beea44, 0x21b117b9);
    StepIs(37, 0x60127b2e, 0x21b117b9, 0x3b0875c7, 0x8d212ff5, 0x00000000, 11, 0x4bdecfa9, 0x6e7429d5);
    StepIs(38, 0x8d212ff5, 0x6e7429d5, 0x21b117b9, 0x3b0875c7, 0x00000000, 16, 0xf6bb4b60, 0x3575227e);
    StepIs(39, 0x3b0875c7, 0x3575227e, 0x6e7429d5, 0x21b117b9, 0x00000000, 23, 0xbebfbc70, 0x5a2f5ea5);
  }

  lemma Steps36()
    requires Steps(SINES, ABC, INIT, 36) == Regs(0xb3707ebf, 0x3b0875c7, 0x8d212ff5, 0x60127b2e)
    ensures Steps(SINES, ABC, INIT, 40) == Regs(0x21b117b9, 0x5a2f5ea5, 0x3575227e, 0x6e7429d5)
  {
    hide *;
    Values36();
    FourAre(36, 0xb3707ebf, 0x3b0875c7, 0x8d212ff5, 0x60127b2e, 0x21b117b9, 0x6e7429d5, 0x3575227e, 0x5a2f5ea5);
  }

  lemma Values40()
    ensures OpAt(SINES, ABC, 40, 0x21b117b9, 0x5a2f5ea5, 0x3575227e, 0x6e7429d5) == 0x11de1779
    ensures OpAt(SINES, ABC, 41, 0x6e7429d5, 0x11de1779, 0x5a2f5ea5, 0x3575227e) == 0xfadcaa38
    ensures OpAt(SINES, ABC, 42, 0x3575227e, 0xfadcaa38, 0x11de1779, 0x5a2f5ea5) == 0x31c465ca
    ensures OpAt(SINES, ABC, 43, 0x5a2f5ea5, 0x31c465ca, 0xfadcaa38, 0x11de1779) == 0x4c6124f4
  {
    hide OpAt;
    StepIs(40, 0x21b117b9, 0x5a2f5ea5, 0x3575227e, 0x6e7429d5, 0x00000000, 4, 0x289b7ec6, 0x11de1779);
    StepIs(41, 0x6e7429d5, 0x11de1779, 0x5a2f5ea5, 0x3575227e, 0x80636261, 11, 0xeaa127fa, 0xfadcaa38);
    StepIs(42, 0x3575227e, 0xfadcaa38, 0x11de1779, 0x5a2f5ea5, 0x00000000, 16, 0xd4ef3085, 0x31c465ca);
    StepIs(43, 0x5a2f5ea5, 0x31c465ca, 0xfadcaa38, 0x11de1779, 0x00000000, 23, 0x04881d05, 0x4c6124f4);
  }

  lemma Steps40()
    requires Steps(SINES, ABC, INIT, 40) == Regs(0x21b117b9, 0x5a2f5ea5, 0x3575227e, 0x6e7429d5)
    ensures Steps(SINES, ABC, INIT, 44) == Regs(0x11de1779, 0x4c6124f4, 0x31c465ca, 0xfadcaa38)
  {
    hide *;
    Values40();
    FourAre(40, 0x21b117b9, 0x5a2f5ea5, 0x3575227e, 0x6e7429d5, 0x11de1779, 0xfadcaa38, 0x31c465ca, 0x4c6124f4);
  }

  lemma Values44()
    ensures OpAt(SINES, ABC, 44, 0x11de1779, 0x4c6124f4, 0x31c465ca, 0xfadcaa38) == 0x7f2e507b
    ensures OpAt(SINES, ABC, 45, 0xfadcaa38, 0x7f2e507b, 0x4c6124f4, 0x31c465ca) == 0x99d9679d
    ensures OpAt(SINES, ABC, 46, 0x31c465ca, 0x99d9679d, 0x7f2e507b, 0x4c6124f4) == 0x8fae6399
    ensures OpAt(SINES, ABC, 47, 0x4c6124f4, 0x8fae6399, 0x99d9679d, 0x7f2e507b) == 0x7beb9700
  {
    hide OpAt;
    StepIs(44, 0x11de1779, 0x4c6124f4, 0x31c465ca, 0xfadcaa38, 0x00000000, 4, 0xd9d4d039, 0x7f2e507b);
    StepIs(45, 0xfadcaa38, 0x7f2e507b, 0x4c6124f4, 0x31c465ca, 0x00000000, 11, 0xe6db99e5, 0x99d9679d);
    StepIs(46, 0x31c465ca, 0x99d9679d, 0x7f2e507b, 0x4c6124f4, 0x00000000, 16, 0x1fa27cf8, 0x8fae6399);
    StepIs(47, 0x4c6124f4, 0x8fae6399, 0x99d9679d, 0x7f2e507b, 0x00000000, 23, 0xc4ac5665, 0x7beb9700);
  }

  lemma Steps44()
    requires Steps(SINES, ABC, INIT, 44) == Regs(0x11de1779, 0x4c6124f4, 0x31c465ca, 0xfadcaa38)
    ensures Steps(SINES, ABC, INIT, 48) == Regs(0x7f2e507b, 0x7beb9700, 0x8fae6399, 0x99d9679d)
  {
    hide *;
    Values44();
    FourAre(44, 0x11de1779, 0x4c6124f4, 0x31c465ca, 0xfadcaa38, 0x7f2e507b, 0x99d9679d, 0x8fae6399, 0x7beb9700);
  }

  lemma Values48()
    ensures OpAt(SINES, ABC, 48, 0x7f2e507b, 0x7beb9700, 0x8fae6399, 0x99d9679d) == 0x7b201df8
    ensures OpAt(SINES, ABC, 49, 0x99d9679d, 0x7b201df8, 0x7beb9700, 0x8fae6399) == 0xf4e8e96e
    ensures OpAt(SINES, ABC, 50, 0x8fae6399, 0xf4e8e96e, 0x7b201df8, 0x7beb9700) == 0xb298cefd
    ensures OpAt(SINES, ABC, 51, 0x7beb9700, 0xb298cefd, 0xf4e8e96e, 0x7b201df8) == 0x8bf025c4
  {
    hide OpAt;
    StepIs(48, 0x7f2e507b, 0x7beb9700, 0x8fae6399, 0x99d9679d, 0x80636261, 6, 0xf4292244, 0x7b201df8);
    StepIs(49, 0x99d9679d, 0x7b201df8, 0x7beb9700, 0x8fae6399, 0x00000000, 10, 0x432aff97, 0xf4e8e96e);
    StepIs(50, 0x8fae6399, 0xf4e8e96e, 0x7b201df8, 0x7beb9700, 0x00000018, 15, 0xab9423a7, 0xb298cefd);
    StepIs(51, 0x7beb9700, 0xb298cefd, 0xf4e8e96e, 0x7b201df8, 0x00000000, 21, 0xfc93a039, 0x8bf025c4);
  }

  lemma Steps48()
    requires Steps(SINES, ABC, INIT, 48) == Regs(0x7f2e507b, 0x7beb9700, 0x8fae6399, 0x99d9679d)
    ensures Steps(SINES, ABC, INIT, 52) == Regs(0x7b201df8, 0x8bf025c4, 0xb298cefd, 0xf4e8e96e)
  {
    hide *;
    Values48();
    FourAre(48, 0x7f2e507b, 0x7beb9700, 0x8fae6399, 0x99d9679d, 0x7b201df8, 0xf4e8e96e, 0xb298cefd, 0x8bf025c4);
  }

  lemma Values52()
    ensures OpAt(SINES, ABC, 52, 0x7b201df8, 0x8bf025c4, 0xb298cefd, 0xf4e8e96e) == 0x06cc5e8a
    ensures OpAt(SINES, ABC, 53, 0xf4e8e96e, 0x06cc5e8a, 0x8bf025c4, 0xb298cefd) == 0x5b0d97aa
    ensures OpAt(SINES, ABC, 54, 0xb298cefd, 0x5b0d97aa, 0x06cc5e8a, 0x8bf025c4) == 0x7d632dd0
    ensures OpAt(SINES, ABC, 55, 0x8bf025c4, 0x7d632dd0, 0x5b0d97aa, 0x06cc5e8a) == 0x3bfa2c27
  {
    hide OpAt;
    StepIs(52, 0x7b201df8, 0x8bf025c4, 0xb298cefd, 0xf4e8e96e, 0x00000000, 6, 0x655b59c3, 0x06cc5e8a);
    StepIs(53, 0xf4e8e96e, 0x06cc5e8a, 0x8bf025c4, 0xb298cefd, 0x00000000, 10, 0x8f0ccc92, 0x5b0d97aa);
    StepIs(54, 0xb298cefd, 0x5b0d97aa, 0x06cc5e8a, 0x8bf025c4, 0x00000000, 15, 0xffeff47d, 0x7d632dd0);
    StepIs(55, 0x8bf025c4, 0x7d632dd0, 0x5b0d97aa, 0x06cc5e8a, 0x00000000, 21, 0x85845dd1, 0x3bfa2c27);
  }

  lemma Steps52()
    requires Steps(SINES, ABC, INIT, 52) == Regs(0x7b201df8, 0x8bf025c4, 0xb298cefd, 0xf4e8e96e)
    ensures Steps(SINES, ABC, INIT, 56) == Regs(0x06cc5e8a, 0x3bfa2c27, 0x7d632dd0, 0x5b0d97aa)
  {
    hide *;
    Values52();
    FourAre(52, 0x7b201df8, 0x8bf025c4, 0xb298cefd, 0xf4e8e96e, 0x06cc5e8a, 0x5b0d97aa, 0x7d632dd0, 0x3bfa2c27);
  }

  lemma Values56()
    ensures OpAt(SINES, ABC, 56, 0x06cc5e8a, 0x3bfa2c27, 0x7d632dd0, 0x5b0d97aa) == 0x7f81cc35
    ensures OpAt(SINES, ABC, 57, 0x5b0d97aa, 0x7f81cc35, 0x3bfa2c27, 0x7d632dd0) == 0x094454ab
    ensures OpAt(SINES, ABC, 58, 0x7d632dd0, 0x094454ab, 0x7f81cc35, 0x3bfa2c27) == 0x4f9dbe3f
    ensures OpAt(SINES, ABC, 59, 0x3bfa2c27, 0x4f9dbe3f, 0x094454ab, 0x7f81cc35) == 0x7327d604
  {
    hide OpAt;
    StepIs(56, 0x06cc5e8a, 0x3bfa2c27, 0x7d632dd0, 0x5b0d97aa, 0x00000000, 6, 0x6fa87e4f, 0x7f81cc35);
    StepIs(57, 0x5b0d97aa, 0x7f81cc35, 0x3bfa2c27, 0x7d632dd0, 0x00000000, 10, 0xfe2ce6e0, 0x094454ab);
    StepIs(58, 0x7d632dd0, 0x094454ab, 0x7f81cc35, 0x3bfa2c27, 0x00000000, 15, 0xa3014314, 0x4f9dbe3f);
    StepIs(59, 0x3bfa2c27, 0x4f9dbe3f, 0x094454ab, 0x7f81cc35, 0x00000000, 21, 0x4e0811a1, 0x7327d604);
  }

  lemma Steps56()
    requires Steps(SINES, ABC, INIT, 56) == Regs(0x06cc5e8a, 0x3bfa2c27, 0x7d632dd0, 0x5b0d97aa)
    ensures Steps(SINES, ABC, INIT, 60) == Regs(0x7f81cc35, 0x7327d604, 0x4f9dbe3f, 0x094454ab)
  {
    hide *;
    Values56();
    FourAre(56, 0x06cc5e8a, 0x3bfa2c27, 0x7d632dd0, 0x5b0d97aa, 0x7f81cc35, 0x094454ab, 0x4f9dbe3f, 0x7327d604);
  }

  lemma Values60()
    ensures OpAt(SINES, ABC, 60, 0x7f81cc35, 0x7327d604, 0x4f9dbe3f, 0x094454ab) == 0x310ade8f
    ensures OpAt(SINES, ABC, 61, 0x094454ab, 0x310ade8f, 0x7327d604, 0x4f9dbe3f) == 0x624d8cb2
    ensures OpAt(SINES, ABC, 62, 0x4f9dbe3f, 0x624d8cb2, 0x310ade8f, 0x7327d604) == 0xe484b9d8
    ensures OpAt(SINES, ABC, 63, 0x7327d604, 0xe484b9d8, 0x624d8cb2, 0x310ade8f) == 0xc08226b3
  {
    hide OpAt;
    StepIs(60, 0x7f81cc35, 0x7327d604, 0x4f9dbe3f, 0x094454ab, 0x00000000, 6, 0xf7537e82, 0x310ade8f);
    StepIs(61, 0x094454ab, 0x310ade8f, 0x7327d604, 0x4f9dbe3f, 0x00000000, 10, 0xbd3af235, 0x624d8cb2);
    StepIs(62, 0x4f9dbe3f, 0x624d8cb2, 0x310ade8f, 0x7327d604, 0x00000000, 15, 0x2ad7d2bb, 0xe484b9d8);
    StepIs(63, 0x7327d604, 0xe484b9d8, 0x624d8cb2, 0x310ade8f, 0x00000000, 21, 0xeb86d391, 0xc08226b3);
  }

  lemma Steps60()
    requires Steps(SINES, ABC, INIT, 60) == Regs(0x7f81cc35, 0x7327d604, 0x4f9dbe3f, 0x094454ab)
    ensures Steps(SINES, ABC, INIT, 64) == Regs(0x310ade8f, 0xc08226b3, 0xe484b9d8, 0x624d8cb2)
  {
    hide *;
    Values60();
    FourAre(60, 0x7f81cc35, 0x7327d604, 0x4f9dbe3f, 0x094454ab, 0x310ade8f, 0x624d8cb2, 0xe484b9d8, 0xc08226b3);
  }

  lemma AllSteps()
    ensures Steps(SINES, ABC, INIT, 64) == Regs(0x310ade8f, 0xc08226b3, 0xe484b9d8, 0x624d8cb2)
  {
    assert Steps(SINES, ABC, INIT, 0) == Regs(0x67452301, 0xefcdab89, 0x98badcfe, 0x10325476);
    hide *;
    Steps0();
    Steps4();
    Steps8();
    Steps12();
    Steps16();
    Steps20();
    Steps24();
    Steps28();
    Steps32();
    Steps36();
    Steps40();
    Steps44();
    Steps48();
    Steps52();
    Steps56();
    Steps60();
  }

  /** The block that "abc" is padded to. */
  function AbcBlock(): (p: Bytes)
    ensures |p| == 64
  {
    [0x61, 0x62, 0x63, 0x80] + seq(52, _ => 0) + [24, 0, 0, 0, 0, 0, 0, 0]
  }

  lemma SmallBytes()
    ensures AsByte(24) == 24 && AsByte(0) == 0
  {
  }

  lemma SmallWords()
    ensures Word32(24) == LeWord(24, 0, 0, 0) && Word32(0) == LeWord(0, 0, 0, 0)
  {
    SmallBytes();
    hide AsByte;
    hide LeWord;
  }

  lemma LengthWords()
    ensures LeBytes(Word32(24)) == [24, 0, 0, 0] && LeBytes(Word32(0)) == [0, 0, 0, 0]
  {
    SmallWords();
    LeBytesWord(24, 0, 0, 0);
    LeBytesWord(0, 0, 0, 0);
    hide Word32;
    hide LeWord;
    hide ByteOf;
  }

  lemma AbcBits()
    ensures BitsLow(3) == 24 && BitsHigh(3) == 0
  {
  }

  lemma AbcLength()
    ensures LengthBytes(3) == [24, 0, 0, 0, 0, 0, 0, 0]
  {
    AbcBits();
    LengthWords();
    hide BitsLow;
    hide BitsHigh;
    hide LeBytes;
    hide Word32;
  }

  lemma AbcPadding()
    ensures Padding(3) == [0x80] + seq(52, _ => 0)
  {
  }

  lemma PaddedForm(m: Bytes)
    ensures Padded(m) == m + Padding(|m|) + LengthBytes(|m|)
  {
    hide Padding;
    hide LengthBytes;
  }

  lemma AbcPadded()
    ensures Padded([0x61, 0x62, 0x63]) == AbcBlock()
  {
    PaddedForm([0x61, 0x62, 0x63]);
    AbcLength();
    AbcPadding();
    hide Padded;
    hide LengthBytes;
    hide Padding;
  }

  lemma AbcWords()
    ensures WordsOf(AbcBlock()) == ABC
  {
    assert LeWord(0x61, 0x62, 0x63, 0x80) == 0x80636261;
    assert LeWord(24, 0, 0, 0) == 24;
    assert LeWord(0, 0, 0, 0) == 0;
    hide LeWord;
    var s := AbcBlock();
    assert s[0] == 0x61 && s[1] == 0x62 && s[2] == 0x63 && s[3] == 0x80;
    assert s[56] == 24;
    forall k | 0 <= k < 16
      ensures WordsOf(s)[k] == ABC[k]
    {
    }
  }

  /** MD5 ("abc") = 900150983cd24fb0d6963f7d28e17f72. */
  lemma AbcDigest()
    ensures Digest(SINES, [0x61, 0x62, 0x63])
         == [0x90, 0x01, 0x50, 0x98, 0x3c, 0xd2, 0x4f, 0xb0,
             0xd6, 0x96, 0x3f, 0x7d, 0x28, 0xe1, 0x7f, 0x72]
  {
    AbcPadded();
    AbcWords();
    AllSteps();
    hide Steps;
    hide SINES;
    hide ABC;
    hide WordsOf;
    hide Padded;
    var s := AbcBlock();
    assert s[0..64] == s;
    assert Fold(SINES, INIT, s, 1) == Compress(SINES, Fold(SINES, INIT, s, 0), s[0..64]);
  }
}
