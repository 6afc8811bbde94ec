/** Words of four bytes, lowest byte first, as c2l and l2c of crypt/des_impl.c (lines 305-313) and RFC 1321 take
them. */
module ByteOrder {

  type Bytes = seq<bv8>

  function LeWord(a: bv8, b: bv8, c: bv8, d: bv8): bv32
  {
    (a as bv32) | ((b as bv32) << 8) | ((c as bv32) << 16) | ((d as bv32) << 24)
  }

  function ByteOf(l: bv32, n: nat): bv8
    requires n <= 24
  {
    ((l >> n) & 0xff) as bv8
  }

  lemma LeWordBytes(l: bv32)
    ensures LeWord(ByteOf(l, 0), ByteOf(l, 8), ByteOf(l, 16), ByteOf(l, 24)) == l
  {
  }

  lemma LeBytesWord(a: bv8, b: bv8, c: bv8, d: bv8)
    ensures ByteOf(LeWord(a, b, c, d), 0) == a && ByteOf(LeWord(a, b, c, d), 8) == b
    ensures ByteOf(LeWord(a, b, c, d), 16) == c && ByteOf(LeWord(a, b, c, d), 24) == d
  {
  }

  lemma FourBytes(a: bv8, b: bv8, c: bv8, d: bv8)
    ensures ((a as bv32) | ((b as bv32) << 8) | ((c as bv32) << 16) | ((d as bv32) << 24)) as nat
         == a as nat + 0x100 * (b as nat) + 0x1_0000 * (c as nat) + 0x100_0000 * (d as nat)
  {
  }

  lemma LeWordForm(a: bv8, b: bv8, c: bv8, d: bv8)
    ensures LeWord(a, b, c, d) == (a as bv32) | ((b as bv32) << 8) | ((c as bv32) << 16) | ((d as bv32) << 24)
  {
  }

  /** As numbers: the word is a + 2^8 b + 2^16 c + 2^24 d. */
  lemma LeWordNumber(a: bv8, b: bv8, c: bv8, d: bv8)
    ensures LeWord(a, b, c, d) as nat == a as nat + 0x100 * (b as nat) + 0x1_0000 * (c as nat) + 0x100_0000 * (d as nat)
  {
    hide *;
    LeWordForm(a, b, c, d);
    FourBytes(a, b, c, d);
  }

  lemma Digits256(n: nat, a: nat, b: nat, c: nat, d: nat)
    requires a < 0x100 && b < 0x100 && c < 0x100 && d < 0x100 && n == a + 0x100 * b + 0x1_0000 * c + 0x100_0000 * d
    ensures a == n % 0x100 && b == n / 0x100 % 0x100 && c == n / 0x1_0000 % 0x100 && d == n / 0x100_0000 % 0x100
  {
    var m := b + 0x100 * c + 0x1_0000 * d;
    var k := c + 0x100 * d;
    assert n == a + 0x100 * m && m == b + 0x100 * k;
    assert n / 0x100 == m && n / 0x1_0000 == k && n / 0x100_0000 == d;
  }

  /** And the bytes are the word's digits to the base 256, the lowest first. */
  lemma LeBytesNumber(l: bv32)
    ensures LeBytes(l)[0] as nat == l as nat % 0x100
    ensures LeBytes(l)[1] as nat == l as nat / 0x100 % 0x100
    ensures LeBytes(l)[2] as nat == l as nat / 0x1_0000 % 0x100
    ensures LeBytes(l)[3] as nat == l as nat / 0x100_0000 % 0x100
  {
    LeWordBytes(l);
    hide LeWord;
    hide ByteOf;
    var s := LeBytes(l);
    LeWordNumber(s[0], s[1], s[2], s[3]);
    Digits256(l as nat, s[0] as nat, s[1] as nat, s[2] as nat, s[3] as nat);
  }

  // ----- Words as the machine keeps them, and the macro SWAP of crypt/md5.c:49-54 -----

  function SwapBytes(n: bv32): bv32 { (n << 24) | ((n & 0xff00) << 8) | ((n >> 8) & 0xff00) | (n >> 24) }

  /** SWAP on a big-endian or a little-endian machine. */
  function Swap(big: bool, n: bv32): bv32 { if big then SwapBytes(n) else n }

  /** A word in memory as the machine reads it. */
  function Native(big: bool, a: bv8, b: bv8, c: bv8, d: bv8): bv32
  {
    if big then LeWord(d, c, b, a) else LeWord(a, b, c, d)
  }

  function LeBytes(n: bv32): (s: Bytes)
    ensures |s| == 4
  {
    [ByteOf(n, 0), ByteOf(n, 8), ByteOf(n, 16), ByteOf(n, 24)]
  }

  /** A word as the machine writes it. */
  function NativeBytes(big: bool, n: bv32): (s: Bytes)
    ensures |s| == 4
  {
    if big then [ByteOf(n, 24), ByteOf(n, 16), ByteOf(n, 8), ByteOf(n, 0)] else LeBytes(n)
  }

  lemma SwapLeWord(a: bv8, b: bv8, c: bv8, d: bv8)
    ensures SwapBytes(LeWord(d, c, b, a)) == LeWord(a, b, c, d)
  {
  }

  lemma SwapByteOf(n: bv32)
    ensures ByteOf(SwapBytes(n), 24) == ByteOf(n, 0) && ByteOf(SwapBytes(n), 16) == ByteOf(n, 8)
    ensures ByteOf(SwapBytes(n), 8) == ByteOf(n, 16) && ByteOf(SwapBytes(n), 0) == ByteOf(n, 24)
  {
  }

  /** Swapping after loading and before storing makes either machine little-endian. */
  lemma SwapFixesOrder(big: bool, a: bv8, b: bv8, c: bv8, d: bv8, n: bv32)
    ensures Swap(big, Native(big, a, b, c, d)) == LeWord(a, b, c, d)
    ensures NativeBytes(big, Swap(big, n)) == LeBytes(n)
  {
    SwapLeWord(a, b, c, d);
    SwapByteOf(n);
    hide SwapBytes;
    hide LeWord;
    hide ByteOf;
  }
}
