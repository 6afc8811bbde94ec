/** The MD5 digest, whole (RFC 1321, sections 3.1 to 3.5) and as the stream of crypt/md5.c. */
module Md5 {
  import opened Bits
  import opened Limbs
  import opened ByteOrder
  import opened Md5Block

  // ----- RFC 1321 -----

  const INIT: Regs := Regs(0x67452301, 0xefcdab89, 0x98badcfe, 0x10325476)

  /** The transformation run over the first n blocks of m. */
  function Fold(t: Sines, r: Regs, m: Bytes, n: nat): Regs
    requires 64 * n <= |m|
  {
    if n == 0 then r else Compress(t, Fold(t, r, m, n - 1), m[64 * (n - 1)..64 * n])
  }

  /** Step 1: a one bit and as many zero bits as bring the length to 56 modulo 64 bytes. */
  function Padding(len: nat): (p: Bytes)
    ensures |p| == 1 + (55 - len) % 64 && (len + |p|) % 64 == 56
    ensures p[0] == 128 && forall i :: 0 < i < |p| ==> p[i] == 0
  {
    [0x80] + seq((55 - len) % 64, _ => 0)
  }

  /** Step 2: the length in bits modulo 2^64, low-order word first. */
  function LengthBytes(len: nat): (s: Bytes)
    ensures |s| == 8
  {
    LeBytes(Word32(BitsLow(len))) + LeBytes(Word32(BitsHigh(len)))
  }

  /** A number as a machine word, put together from its digits to the base 256. */
  function Word32(n: nat): bv32
    requires n < B
  {
    LeWord(AsByte(n % 0x100), AsByte(n / 0x100 % 0x100), AsByte(n / 0x1_0000 % 0x100), AsByte(n / 0x100_0000 % 0x100))
  }

  /** A number as a byte, from its two hexadecimal digits. */
  function AsByte(n: nat): bv8
    requires n < 0x100
  {
    ((n / 16) as bv8 << 4) | (n % 16) as bv8
  }

  function BitsLow(len: nat): (n: nat)
    ensures n < B
  {
    8 * len % (B * B) % B
  }

  function BitsHigh(len: nat): (n: nat)
    ensures n < B
  {
    8 * len % (B * B) / B
  }

  function Padded(m: Bytes): (p: Bytes)
    ensures |p| % 64 == 0
  {
    var x := |m| + |Padding(|m|)|;
    QuotRem(x + 8, x / 64 + 1, 0, 64);
    hide Padding;
    hide LengthBytes;
    m + Padding(|m|) + LengthBytes(|m|)
  }

  /** Step 5: the four registers, low-order bytes first. */
  function Output(r: Regs): (s: Bytes)
    ensures |s| == 16
  {
    LeBytes(r.a) + LeBytes(r.b) + LeBytes(r.c) + LeBytes(r.d)
  }

  function Digest(t: Sines, m: Bytes): (d: Bytes)
    ensures |d| == 16
  {
    Output(Fold(t, INIT, Padded(m), |Padded(m)| / 64))
  }

  // ----- Folding piece by piece -----

  lemma {:induction false} FoldPrefix(t: Sines, r: Regs, m: Bytes, m': Bytes, n: nat)
    requires 64 * n <= |m| && 64 * n <= |m'| && m[..64 * n] == m'[..64 * n]
    ensures Fold(t, r, m, n) == Fold(t, r, m', n)
  {
    hide Compress;
    if n > 0 {
      var k := 64 * (n - 1);
      assert m[..64 * n][..k] == m[..k] && m'[..64 * n][..k] == m'[..k];
      assert m[..64 * n][k..] == m[k..64 * n] && m'[..64 * n][k..] == m'[k..64 * n];
      FoldPrefix(t, r, m, m', n - 1);
    }
  }

  lemma {:induction false} FoldAppend(t: Sines, r: Regs, a: Bytes, b: Bytes, j: nat, k: nat)
    requires |a| == 64 * j && 64 * k <= |b|
    ensures Fold(t, Fold(t, r, a, j), b, k) == Fold(t, r, a + b, j + k)
    decreases k
  {
    hide Compress;
    if k == 0 {
      assert (a + b)[..64 * j] == a[..64 * j];
      FoldPrefix(t, r, a, a + b, j);
    } else {
      FoldAppend(t, r, a, b, j, k - 1);
      assert (a + b)[64 * (j + k - 1)..64 * (j + k)] == b[64 * (k - 1)..64 * k];
    }
  }

  // ----- The two-word byte counter -----

  /** Adding to the low word with a carry into the high one. */
  method AddToCount(t0: Limb, t1: Limb, n: Limb) returns (t0': Limb, t1': Limb)
    ensures t1' * B + t0' == (t1 * B + t0 + n) % (B * B)
  {
    t0' := (t0 + n) % B;
    t1' := t1;
    if t0' < n {
      t1' := (t1 + 1) % B;
    }
    CountCarries(t0, t1, n, t0', t1');
  }

  lemma CountCarries(t0: Limb, t1: Limb, n: Limb, t0': Limb, t1': Limb)
    requires t0' == (t0 + n) % B && t1' == if t0' < n then (t1 + 1) % B else t1
    ensures t1' * B + t0' == (t1 * B + t0 + n) % (B * B)
  {
    if t0 + n < B {
    } else if t1 + 1 < B {
    } else {
    }
  }

  /** The shifts by three turn the byte count into a bit count. */
  lemma CountBits(t0: Limb, t1: Limb, len: nat)
    requires t1 * B + t0 == len % (B * B)
    ensures t0 * 8 % B == BitsLow(len)
    ensures BitOr(t1 * 8 % B, t0 / 0x2000_0000) == BitsHigh(len)
  {
    var q, r := t0 / 0x2000_0000, t0 % 0x2000_0000;
    var p, s := t1 / 0x2000_0000, t1 % 0x2000_0000;
    EightTimes(len, len / (B * B), p, s, q, r);
    var low, high := 8 * r, 8 * s + q;
    QuotRem(8 * len, 8 * (len / (B * B)) + p, high * B + low, B * B);
    QuotRem(high * B + low, high, low, B);
    QuotRem(t0 * 8, q, 8 * r, B);
    QuotRem(t1 * 8, p, 8 * s, B);
    assert Pow2(3) == 8;
    BitOrLow(s, q, 3);
  }

  lemma EightTimes(len: nat, c: nat, p: nat, s: nat, q: nat, r: nat)
    requires len == c * (B * B) + (p * 0x2000_0000 + s) * B + q * 0x2000_0000 + r
    ensures 8 * len == (8 * c + p) * (B * B) + ((8 * s + q) * B + 8 * r)
  {
  }

  // ----- The stream -----

  /** After n blocks of a message the registers and the counter are these. */
  ghost predicate Absorbed(t: Sines, r: Regs, count: int, m: Bytes, n: nat)
  {
    64 * n <= |m| && r == Fold(t, INIT, m, n) && count == 64 * n % (B * B)
  }

  /** Running k more blocks, which follow in the message. */
  lemma AbsorbMore(t: Sines, r: Regs, count: int, m: Bytes, n: nat, p: Bytes, k: nat, m': Bytes)
    requires Absorbed(t, r, count, m, n) && |p| == 64 * k && 64 * (n + k) <= |m'|
    requires m'[..64 * (n + k)] == m[..64 * n] + p
    ensures Absorbed(t, Fold(t, r, p, k), (count + |p|) % (B * B), m', n + k)
  {
    hide Fold;
    assert m[..64 * n][..64 * n] == m[..64 * n];
    FoldPrefix(t, INIT, m, m[..64 * n], n);
    FoldAppend(t, INIT, m[..64 * n], p, n, k);
    FoldPrefix(t, INIT, m[..64 * n] + p, m', n + k);
    var q, M := 64 * n / (B * B), B * B;
    QuotRem(count + |p|, (count + |p|) / M, (count + |p|) % M, M);
    QuotRem(64 * (n + k), (count + |p|) / M + q, (count + |p|) % M, M);
  }

  /** The first n bytes of the buffer are what follows the processed blocks of the message. */
  ghost predicate Held(buf: Bytes, n: nat, m: Bytes, blocks: nat)
  {
    n <= |buf| == 128 && |m| == 64 * blocks + n && buf[..n] == m[64 * blocks..]
  }

  lemma HeldLonger(buf: Bytes, buf': Bytes, n: nat, m: Bytes, blocks: nat, p: Bytes)
    requires Held(buf, n, m, blocks) && |buf'| == 128 && n + |p| <= 128 && buf'[..n + |p|] == buf[..n] + p
    ensures Held(buf', n + |p|, m + p, blocks)
  {
  }

  lemma HeldDrained(buf: Bytes, buf': Bytes, n: nat, m: Bytes, blocks: nat, k: nat)
    requires Held(buf, n, m, blocks) && |buf'| == 128 && 64 * k <= n && buf'[..n - 64 * k] == buf[64 * k..n]
    ensures Held(buf', n - 64 * k, m, blocks + k)
    ensures m[..64 * (blocks + k)] == m[..64 * blocks] + buf[..64 * k]
  {
  }

  class Md5Ctx {
    const t: Sines
    const big: bool
    var a: bv32
    var b: bv32
    var c: bv32
    var d: bv32
    var total0: Limb
    var total1: Limb
    var buflen: nat
    const buffer: array<bv8>
    ghost var msg: Bytes
    ghost var blocks: nat

    function Reg(): Regs reads this { Regs(a, b, c, d) }

    function Count(): int reads this { total1 * B + total0 }

    /** `msg` is everything fed so far: some blocks of it are processed, the rest is in the buffer. */
    ghost predicate Holding()
      reads this, buffer
    {
      && buffer.Length == 128 && buflen <= 128 && Held(buffer[..], buflen, msg, blocks)
      && Absorbed(t, Reg(), Count(), msg, blocks)
    }

    ghost predicate Valid()
      reads this, buffer
    {
      Holding() && buflen <= 64
    }

    /** md5_init_ctx.  The bytes of the registers are those of section 3.3 of RFC 1321. */
    constructor (t: Sines, big: bool)
      ensures Valid() && msg == [] && this.t == t && this.big == big && fresh(buffer)
      ensures LeBytes(a) == [0x01, 0x23, 0x45, 0x67] && LeBytes(b) == [0x89, 0xab, 0xcd, 0xef]
      ensures LeBytes(c) == [0xfe, 0xdc, 0xba, 0x98] && LeBytes(d) == [0x76, 0x54, 0x32, 0x10]
    {
      FirstBytes();
      this.t, this.big := t, big;
      a, b, c, d := 0x67452301, 0xefcdab89, 0x98badcfe, 0x10325476;
      total0, total1, buflen := 0, 0, 0;
      buffer := new bv8[128];
      msg, blocks := [], 0;
    }

    /** md5_process_block. */
    method ProcessBlock(data: Bytes)
      requires |data| % 64 == 0 && |data| < B
      modifies this`a, this`b, this`c, this`d, this`total0, this`total1
      ensures Reg() == Fold(t, old(Reg()), data, |data| / 64)
      ensures Count() == (old(Count()) + |data|) % (B * B)
    {
      hide Compress;
      total0, total1 := AddToCount(total0, total1, |data|);
      var r := Regs(a, b, c, d);
      var n := 0;
      while n < |data| / 64
        invariant 0 <= n <= |data| / 64
        invariant r == Fold(t, old(Reg()), data, n)
        invariant Count() == (old(Count()) + |data|) % (B * B)
      {
        r := OneBlock(big, t, r, data[64 * n..64 * n + 64]);
        n := n + 1;
      }
      a, b, c, d := r.a, r.b, r.c, r.d;
    }

    /** memcpy into the buffer. */
    method CopyIn(at: nat, s: Bytes)
      requires at + |s| <= buffer.Length
      modifies buffer
      ensures buffer[..at + |s|] == old(buffer[..at]) + s
    {
      for i := 0 to |s|
        invariant buffer[..at] == old(buffer[..at])
        invariant buffer[at..at + i] == s[..i]
      {
        buffer[at + i] := s[i];
      }
    }

    /** Adding bytes to those held. */
    method Append(data: Bytes)
      requires Holding() && buflen + |data| <= 128
      modifies this`buflen, this`msg, buffer
      ensures Holding() && msg == old(msg) + data && buflen == old(buflen) + |data|
    {
      AbsorbLonger(t, Reg(), Count(), msg, blocks, data);
      hide Absorbed;
      hide Held;
      ghost var was := buffer[..];
      CopyIn(buflen, data);
      HeldLonger(was, buffer[..], buflen, msg, blocks, data);
      buflen, msg := buflen + |data|, msg + data;
    }

    /** Lines 210-217: processing the whole blocks held. */
    method Drain()
      requires Holding() && buflen > 64
      modifies this, buffer
      ensures Holding() && msg == old(msg) && buflen == old(buflen) % 64
    {
      hide Absorbed;
      hide Fold;
      hide Held;
      var m := buflen / 64 * 64;
      ghost var r, count, was := Reg(), Count(), buffer[..];
      ProcessBlock(buffer[..m]);
      CopyIn(0, buffer[m..buflen]);
      HeldDrained(was, buffer[..], buflen, msg, blocks, m / 64);
      AbsorbMore(t, r, count, msg, blocks, was[..m], m / 64, msg);
      blocks := blocks + m / 64;
      buflen := buflen % 64;
    }

    /** Lines 202-221: with bytes left over from before, fill up the buffer first, and empty it if it got full. */
    method TopUp(data: Bytes) returns (add: nat)
      requires Valid() && buflen != 0
      modifies this, buffer
      ensures Valid() && add <= |data| && msg == old(msg) + data[..add] && (add < |data| ==> buflen == 0)
    {
      add := if 128 - buflen > |data| then |data| else 128 - buflen;
      Append(data[..add]);
      if buflen > 64 {
        Drain();
      }
    }

    /** Lines 224-229: whole blocks straight from the input. */
    method Direct(data: Bytes)
      requires Valid() && buflen == 0 && |data| % 64 == 0 && |data| < B
      modifies this
      ensures Valid() && buflen == 0 && msg == old(msg) + data
    {
      hide Absorbed;
      hide Fold;
      ghost var r, count := Reg(), Count();
      ProcessBlock(data);
      assert (msg + data)[..64 * (blocks + |data| / 64)] == msg[..64 * blocks] + data;
      AbsorbMore(t, r, count, msg, blocks, data, |data| / 64, msg + data);
      msg, blocks := msg + data, blocks + |data| / 64;
    }

    /** Lines 223-236: with an empty buffer, process what makes up blocks and hold the rest. */
    method Rest(data: Bytes)
      requires Valid() && (data != [] ==> buflen == 0) && |data| < B
      modifies this, buffer
      ensures Valid() && msg == old(msg) + data
    {
      hide Holding;
      var rest := data;
      if |rest| > 64 {
        var n := |rest| / 64 * 64;
        Direct(rest[..n]);
        rest := rest[n..];
        assert data == data[..n] + rest;
      }
      if |rest| > 0 {
        Append(rest);
      }
    }

    /** md5_process_bytes: the data are fed, however they were cut and whatever was held before. */
    method ProcessBytes(data: Bytes)
      requires Valid() && |data| < B
      modifies this, buffer
      ensures Valid() && msg == old(msg) + data
    {
      hide Holding;
      var add := 0;
      if buflen != 0 {
        add := TopUp(data);
      }
      Rest(data[add..]);
      assert data == data[..add] + data[add..];
    }

    /** Lines 100-107 and the shifts of 113-115: count what is held, and the bits of it all. */
    method CountHeld() returns (low: Limb, high: Limb)
      requires Valid()
      modifies this`total0, this`total1
      ensures low == BitsLow(|msg|) && high == BitsHigh(|msg|)
    {
      CountRest(blocks, buflen, Count());
      total0, total1 := AddToCount(total0, total1, buflen);
      CountBits(total0, total1, |msg|);
      low, high := total0 * 8 % B, BitOr(total1 * 8 % B, total0 / 0x2000_0000);
    }

    /** Lines 109-115: the padding, then the two words of the length. */
    method WriteTail(low: bv32, high: bv32) returns (n: nat)
      requires buflen <= 64 && buffer.Length == 128
      modifies buffer
      ensures n == buflen + PadLength(buflen) + 8
      ensures buffer[..n] == old(buffer[..buflen]) + Fill(PadLength(buflen)) + LeBytes(low) + LeBytes(high)
    {
      SwapFixesOrder(big, 0, 0, 0, 0, low);
      SwapFixesOrder(big, 0, 0, 0, 0, high);
      hide LeBytes;
      hide Swap;
      hide NativeBytes;
      hide Fill;
      var pad := if buflen >= 56 then 64 + 56 - buflen else 56 - buflen;
      CopyIn(buflen, Fill(pad));
      CopyIn(buflen + pad, NativeBytes(big, Swap(big, low)));
      CopyIn(buflen + pad + 4, NativeBytes(big, Swap(big, high)));
      n := buflen + pad + 8;
    }

    method Pad() returns (n: nat)
      requires Valid()
      modifies this`total0, this`total1, buffer
      ensures n % 64 == 0 && n <= 128 && buffer.Length == 128
      ensures buffer[..n] == msg[64 * blocks..] + Padding(|msg|) + LengthBytes(|msg|)
    {
      TailIs(buffer[..], buflen, msg, blocks);
      hide Word32;
      hide LeBytes;
      hide Padding;
      hide LengthBytes;
      hide Fill;
      hide Absorbed;
      hide Fold;
      var low, high := CountHeld();
      n := WriteTail(Word32(low), Word32(high));
    }

    /** md5_finish_ctx: the digest is that of everything fed. */
    method Finish() returns (digest: Bytes)
      requires Valid()
      modifies this, buffer
      ensures digest == Digest(t, old(msg))
    {
      ghost var r := Reg();
      var n := Pad();
      ProcessBlock(buffer[..n]);
      LastFold(t, r, msg, blocks, buffer[..n], n / 64);
      digest := NativeBytes(big, Swap(big, a)) + NativeBytes(big, Swap(big, b)) + NativeBytes(big, Swap(big, c))
          + NativeBytes(big, Swap(big, d));
      OutputIs(big, Reg());
    }
  }

  lemma FirstBytes()
    ensures LeBytes(0x67452301) == [0x01, 0x23, 0x45, 0x67] && LeBytes(0xefcdab89) == [0x89, 0xab, 0xcd, 0xef]
    ensures LeBytes(0x98badcfe) == [0xfe, 0xdc, 0xba, 0x98] && LeBytes(0x10325476) == [0x76, 0x54, 0x32, 0x10]
  {
  }

  /** Byte k of a register is digit k of its number to the base 256, and the registers follow each other. */
  lemma OutputNumber(r: Regs)
    ensures Output(r) == LeBytes(r.a) + LeBytes(r.b) + LeBytes(r.c) + LeBytes(r.d)
    ensures Output(r)[0] as nat == r.a as nat % 0x100 && Output(r)[3] as nat == r.a as nat / 0x100_0000 % 0x100
    ensures Output(r)[4] as nat == r.b as nat % 0x100 && Output(r)[8] as nat == r.c as nat % 0x100
    ensures Output(r)[12] as nat == r.d as nat % 0x100
  {
    hide LeBytes;
    LeBytesNumber(r.a);
    LeBytesNumber(r.b);
    LeBytesNumber(r.c);
    LeBytesNumber(r.d);
  }

  /** The length in bits as a 64-bit number, its lowest byte first. */
  lemma LengthNumber(len: nat)
    ensures var s := LengthBytes(len);
            s[0] as nat + 0x100 * (s[1] as nat) + 0x1_0000 * (s[2] as nat) + 0x100_0000 * (s[3] as nat)
            + B * (s[4] as nat + 0x100 * (s[5] as nat) + 0x1_0000 * (s[6] as nat) + 0x100_0000 * (s[7] as nat))
            == 8 * len % (B * B)
  {
    hide LeBytes;
    WordNumber(BitsLow(len));
    WordNumber(BitsHigh(len));
    hide Word32;
  }

  lemma WordNumber(n: nat)
    requires n < B
    ensures var s := LeBytes(Word32(n));
            s[0] as nat + 0x100 * (s[1] as nat) + 0x1_0000 * (s[2] as nat) + 0x100_0000 * (s[3] as nat) == n
  {
    hide *;
    Word32Number(n);
    BytesOf(Word32(n));
  }

  lemma Word32Number(n: nat)
    requires n < B
    ensures Word32(n) as nat == n
  {
    hide *;
    ByteNumber(n % 0x100);
    ByteNumber(n / 0x100 % 0x100);
    ByteNumber(n / 0x1_0000 % 0x100);
    ByteNumber(n / 0x100_0000 % 0x100);
    WordForm(n);
    LeWordNumber(AsByte(n % 0x100), AsByte(n / 0x100 % 0x100), AsByte(n / 0x1_0000 % 0x100),
                 AsByte(n / 0x100_0000 % 0x100));
    FourDigits(n);
  }

  lemma WordForm(n: nat)
    requires n < B
    ensures Word32(n) == LeWord(AsByte(n % 0x100), AsByte(n / 0x100 % 0x100),
                                AsByte(n / 0x1_0000 % 0x100), AsByte(n / 0x100_0000 % 0x100))
  {
  }

  lemma ByteNumber(n: nat)
    requires n < 0x100
    ensures AsByte(n) as nat == n
  {
    DigitNumber(n / 16);
    DigitNumber(n % 16);
    TwoDigits((n / 16) as bv8, (n % 16) as bv8);
  }

  lemma DigitNumber(n: nat)
    requires n < 16
    ensures (n as bv8) < 16 && (n as bv8) as nat == n
  {
  }

  lemma TwoDigits(a: bv8, b: bv8)
    requires a < 16 && b < 16
    ensures ((a << 4) | b) as nat == 16 * (a as nat) + b as nat
  {
  }

  lemma FourDigits(n: nat)
    requires n < B
    ensures n == n % 0x100 + 0x100 * (n / 0x100 % 0x100) + 0x1_0000 * (n / 0x1_0000 % 0x100)
                 + 0x100_0000 * (n / 0x100_0000 % 0x100)
  {
    var m := n / 0x100;
    var k := m / 0x100;
    assert n / 0x1_0000 == k && n / 0x100_0000 == k / 0x100;
    assert n == n % 0x100 + 0x100 * m && m == m % 0x100 + 0x100 * k && k == k % 0x100 + 0x100 * (k / 0x100);
  }

  lemma BytesOf(l: bv32)
    ensures var s := LeBytes(l);
            s[0] as nat + 0x100 * (s[1] as nat) + 0x1_0000 * (s[2] as nat) + 0x100_0000 * (s[3] as nat) == l as nat
  {
    hide LeWord;
    hide ByteOf;
    LeWordBytes(l);
    LeWordNumber(LeBytes(l)[0], LeBytes(l)[1], LeBytes(l)[2], LeBytes(l)[3]);
  }

  /** The first `pad` bytes of fillbuf. */
  function Fill(pad: nat): (s: Bytes)
    requires pad >= 1
    ensures |s| == pad
  {
    [0x80] + seq(pad - 1, _ => 0)
  }

  lemma CountRest(n: nat, buflen: nat, count: int)
    requires count == 64 * n % (B * B) && buflen <= 64
    ensures (count + buflen) % (B * B) == (64 * n + buflen) % (B * B)
  {
    var M, q := B * B, 64 * n / (B * B);
    QuotRem(64 * n + buflen, (count + buflen) / M + q, (count + buflen) % M, M);
  }

  function PadLength(buflen: nat): (pad: nat)
    requires buflen <= 64
    ensures 1 <= pad <= 64
  {
    if buflen >= 56 then 64 + 56 - buflen else 56 - buflen
  }

  /** The program's two cases make the padding of the RFC. */
  lemma PadSize(n: nat, buflen: nat)
    requires buflen <= 64
    ensures Fill(PadLength(buflen)) == Padding(64 * n + buflen)
    ensures (buflen + PadLength(buflen) + 8) % 64 == 0 && buflen + PadLength(buflen) + 8 <= 128
  {
  }

  lemma TailIs(buf: Bytes, buflen: nat, m: Bytes, n: nat)
    requires Held(buf, buflen, m, n) && buflen <= 64
    ensures (buflen + PadLength(buflen) + 8) % 64 == 0 && buflen + PadLength(buflen) + 8 <= 128
    ensures buf[..buflen] + Fill(PadLength(buflen)) + LeBytes(Word32(BitsLow(|m|))) + LeBytes(Word32(BitsHigh(|m|)))
         == m[64 * n..] + Padding(|m|) + LengthBytes(|m|)
  {
    PadSize(n, buflen);
    hide LeBytes;
    hide Padding;
    hide Fill;
  }

  lemma LastFold(t: Sines, r: Regs, m: Bytes, n: nat, p: Bytes, k: nat)
    requires 64 * n <= |m| && r == Fold(t, INIT, m, n) && |p| == 64 * k
    requires p == m[64 * n..] + Padding(|m|) + LengthBytes(|m|)
    ensures Digest(t, m) == Output(Fold(t, r, p, k))
  {
    hide Fold;
    hide Padding;
    hide LengthBytes;
    hide Output;
    assert m[..64 * n][..64 * n] == m[..64 * n];
    FoldPrefix(t, INIT, m, m[..64 * n], n);
    FoldAppend(t, INIT, m[..64 * n], p, n, k);
    assert m[..64 * n] + p == Padded(m);
  }

  lemma OutputIs(big: bool, r: Regs)
    ensures NativeBytes(big, Swap(big, r.a)) + NativeBytes(big, Swap(big, r.b)) + NativeBytes(big, Swap(big, r.c))
        + NativeBytes(big, Swap(big, r.d))
         == Output(r)
  {
    SwapFixesOrder(big, 0, 0, 0, 0, r.a);
    SwapFixesOrder(big, 0, 0, 0, 0, r.b);
    SwapFixesOrder(big, 0, 0, 0, 0, r.c);
    SwapFixesOrder(big, 0, 0, 0, 0, r.d);
    hide LeBytes;
    hide NativeBytes;
    hide Swap;
  }

  lemma AbsorbLonger(t: Sines, r: Regs, count: int, m: Bytes, n: nat, p: Bytes)
    requires Absorbed(t, r, count, m, n)
    ensures Absorbed(t, r, count, m + p, n)
  {
    assert (m + p)[..64 * n] == m[..64 * n];
    FoldPrefix(t, INIT, m, m + p, n);
  }

  /** md5_buffer. */
  method Md5Buffer(t: Sines, big: bool, data: Bytes) returns (digest: Bytes)
    requires |data| < B
    ensures digest == Digest(t, data)
  {
    hide LeBytes;
    var ctx := new Md5Ctx(t, big);
    ctx.ProcessBytes(data);
    assert [] + data == data;
    digest := ctx.Finish();
  }

  /** The message that a run of calls feeds. */
  function Concat(chunks: seq<Bytes>): Bytes
  {
    if chunks == [] then [] else Concat(chunks[..|chunks| - 1]) + chunks[|chunks| - 1]
  }

  /** Every run: whatever the message and however it is cut, on machines of either byte order, the stream
      yields the digest of the RFC. */
  method AnyRun(t: Sines, big: bool, chunks: seq<Bytes>) returns (digest: Bytes)
    requires forall i :: 0 <= i < |chunks| ==> |chunks[i]| < B
    ensures digest == Digest(t, Concat(chunks))
  {
    hide Digest;
    hide LeBytes;
    var ctx := new Md5Ctx(t, big);
    for i := 0 to |chunks|
      invariant fresh(ctx) && fresh(ctx.buffer) && ctx.Valid() && ctx.t == t
      invariant ctx.msg == Concat(chunks[..i])
    {
      ctx.ProcessBytes(chunks[i]);
      assert chunks[..i + 1][..i] == chunks[..i];
    }
    assert chunks[..|chunks|] == chunks;
    digest := ctx.Finish();
  }
}
