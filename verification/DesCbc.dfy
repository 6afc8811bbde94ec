/** Buffers of bytes in ECB and CBC mode: _des_crypt, crypt/des_impl.c:565-642. */
module DesCbc {
  import opened Des
  import opened ByteOrder

  /** The two words stored in the eight bytes from `at`. */
  function BlockAt(s: Bytes, at: nat): Block
    requires at + 8 <= |s|
  {
    Block(LeWord(s[at], s[at + 1], s[at + 2], s[at + 3]), LeWord(s[at + 4], s[at + 5], s[at + 6], s[at + 7]))
  }

  /** The first n blocks of a buffer. */
  function Blocks(s: Bytes, n: nat): (bs: seq<Block>)
    requires 8 * n <= |s|
    ensures |bs| == n && forall i :: 0 <= i < n ==> bs[i] == BlockAt(s, 8 * i)
  {
    seq(n, i requires 0 <= i < n => BlockAt(s, 8 * i))
  }

  lemma BlockAtInjective(s: Bytes, t: Bytes, at: nat, i: nat)
    requires at + 8 <= |s| == |t| && BlockAt(s, at) == BlockAt(t, at) && at <= i < at + 8
    ensures s[i] == t[i]
  {
    LeBytesWord(s[at], s[at + 1], s[at + 2], s[at + 3]);
    LeBytesWord(t[at], t[at + 1], t[at + 2], t[at + 3]);
    LeBytesWord(s[at + 4], s[at + 5], s[at + 6], s[at + 7]);
    LeBytesWord(t[at + 4], t[at + 5], t[at + 6], t[at + 7]);
    hide LeWord;
    hide ByteOf;
  }

  /** The blocks determine the bytes. */
  lemma BlocksInjective(s: Bytes, t: Bytes, n: nat)
    requires |s| == |t| == 8 * n && Blocks(s, n) == Blocks(t, n)
    ensures s == t
  {
    hide LeWord;
    forall i | 0 <= i < |s|
      ensures s[i] == t[i]
    {
      assert Blocks(s, n)[i / 8] == BlockAt(s, 8 * (i / 8));
      assert Blocks(t, n)[i / 8] == BlockAt(t, 8 * (i / 8));
      hide BlockAt;
      BlockAtInjective(s, t, 8 * (i / 8), i);
    }
  }

  lemma BlocksAppend(s: Bytes, t: Bytes, m: nat, n: nat)
    requires |s| == 8 * m && |t| == 8 * n
    ensures Blocks(s + t, m + n) == Blocks(s, m) + Blocks(t, n)
  {
    hide LeWord;
    forall i | 0 <= i < m + n
      ensures Blocks(s + t, m + n)[i] == (Blocks(s, m) + Blocks(t, n))[i]
    {
      if i >= m { SameBlock(s + t, 8 * i, t, 8 * (i - m)); }
    }
  }

  lemma SameBlock(s: Bytes, i: nat, t: Bytes, j: nat)
    requires i + 8 <= |s| && j + 8 <= |t| && s[i..i + 8] == t[j..j + 8]
    ensures BlockAt(s, i) == BlockAt(t, j)
  {
    hide LeWord;
    var x, y := s[i..i + 8], t[j..j + 8];
    assert x[0] == y[0] && x[1] == y[1] && x[2] == y[2] && x[3] == y[3];
    assert x[4] == y[4] && x[5] == y[5] && x[6] == y[6] && x[7] == y[7];
  }

  // ----- The modes -----

  /** How a block is enciphered and deciphered, and whether the blocks are chained. */
  datatype Mode = Mode(sp: SpTables, s: Schedule, cbc: bool) {

    function Mask(x: Block, v: Block): Block
    {
      if cbc then Block(Xor(x.l, v.l), Xor(x.r, v.r)) else x
    }

    /** Encryption: each plain block, masked by the cipher block before it, is enciphered. */
    function Encrypted(iv: Block, bs: seq<Block>): (cs: seq<Block>)
      ensures |cs| == |bs|
    {
      if bs == [] then [] else
        var cs := Encrypted(iv, bs[..|bs| - 1]);
        cs + [Crypt(sp, s, Mask(bs[|bs| - 1], Last(iv, cs)), true)]
    }

    /** Decryption: each cipher block is deciphered and masked by the cipher block before it. */
    function Decrypted(iv: Block, cs: seq<Block>): (bs: seq<Block>)
      ensures |bs| == |cs|
    {
      seq(|cs|, i requires 0 <= i < |cs| => Mask(Crypt(sp, s, cs[i], false), if i == 0 then iv else cs[i - 1]))
    }

    /** What a call makes of the blocks, and what it leaves in the vector. */
    function Processed(iv: Block, bs: seq<Block>, encrypt: bool): (cs: seq<Block>)
      ensures |cs| == |bs|
    {
      if encrypt then Encrypted(iv, bs) else Decrypted(iv, bs)
    }

    function NextIv(iv: Block, bs: seq<Block>, encrypt: bool): Block
    {
      if encrypt then Last(iv, Encrypted(iv, bs)) else Last(Block(0, 0), bs)
    }

    lemma MaskTwice(x: Block, v: Block)
      ensures Mask(Mask(x, v), v) == x
    {
      XorBack(x.l, v.l);
      XorBack(x.r, v.r);
      hide Xor;
    }

    lemma {:induction false} EncryptedPrefix(iv: Block, bs: seq<Block>, n: nat)
      requires n <= |bs|
      ensures Encrypted(iv, bs)[..n] == Encrypted(iv, bs[..n])
      decreases |bs|
    {
      hide Crypt;
      hide Mask;
      if n == |bs| {
        assert bs[..n] == bs;
      } else {
        EncryptedPrefix(iv, bs[..|bs| - 1], n);
        assert bs[..|bs| - 1][..n] == bs[..n];
      }
    }

    /** Cipher block i, in terms of the plain block and the cipher block before it. */
    lemma EncryptedAt(iv: Block, bs: seq<Block>, i: nat)
      requires i < |bs|
      ensures Encrypted(iv, bs)[i] == Crypt(sp, s, Mask(bs[i], if i == 0 then iv else Encrypted(iv, bs)[i - 1]), true)
    {
      hide Crypt;
      hide Mask;
      EncryptedPrefix(iv, bs, i + 1);
      EncryptedPrefix(iv, bs, i);
      assert bs[..i + 1][..i] == bs[..i];
      assert Encrypted(iv, bs)[i] == Encrypted(iv, bs)[..i + 1][i];
    }

    /** Decryption takes back encryption from the same initial vector. */
    lemma RoundTrip(iv: Block, bs: seq<Block>)
      ensures Decrypted(iv, Encrypted(iv, bs)) == bs
    {
      hide Crypt;
      hide Mask;
      var cs := Encrypted(iv, bs);
      forall i | 0 <= i < |bs|
        ensures Decrypted(iv, cs)[i] == bs[i]
      {
        EncryptedAt(iv, bs, i);
        var v := if i == 0 then iv else cs[i - 1];
        DecryptEncrypt(sp, s, Mask(bs[i], v));
        MaskTwice(bs[i], v);
      }
    }

    /** Encryption takes back decryption, so that no two buffers decrypt to the same one. */
    lemma {:induction false} RoundTripBack(iv: Block, cs: seq<Block>)
      ensures Encrypted(iv, Decrypted(iv, cs)) == cs
      decreases |cs|
    {
      hide Crypt;
      hide Mask;
      if cs != [] {
        var n := |cs| - 1;
        RoundTripBack(iv, cs[..n]);
        assert Decrypted(iv, cs)[..n] == Decrypted(iv, cs[..n]);
        MaskTwice(Crypt(sp, s, cs[n], false), if n == 0 then iv else cs[n - 1]);
        DecryptEncrypt(sp, s, cs[n]);
      }
    }

    /** Encrypting in pieces: the second piece goes on from the last cipher block of the first. */
    lemma {:induction false} EncryptedChained(iv: Block, a: seq<Block>, b: seq<Block>)
      ensures Encrypted(iv, a + b) == Encrypted(iv, a) + Encrypted(Last(iv, Encrypted(iv, a)), b)
      decreases |b|
    {
      hide Crypt;
      hide Mask;
      if b == [] {
        assert a + b == a;
      } else {
        var n := |b| - 1;
        EncryptedChained(iv, a, b[..n]);
        assert (a + b)[..|a + b| - 1] == a + b[..n];
      }
    }

    /** With chaining, different vectors decrypt a first block differently. */
    lemma DecryptedDiffers(v: Block, w: Block, cs: seq<Block>)
      ensures Decrypted(v, cs) == Decrypted(w, cs) <==> v == w || !cbc || cs == []
    {
      if cs != [] && cbc && Decrypted(v, cs) == Decrypted(w, cs) {
        var x := Crypt(sp, s, cs[0], false);
        assert Decrypted(v, cs)[0] == Mask(x, v) && Decrypted(w, cs)[0] == Mask(x, w);
        MaskInjective(x, v, w);
      }
      hide Crypt;
      hide Xor;
    }

    lemma MaskInjective(x: Block, v: Block, w: Block)
      requires cbc && Mask(x, v) == Mask(x, w)
      ensures v == w
    {
      XorCancel(x.l, v.l, w.l);
      XorCancel(x.r, v.r, w.r);
      hide Xor;
    }

    lemma DecryptedChained(iv: Block, a: seq<Block>, b: seq<Block>)
      ensures Decrypted(iv, a + b) == Decrypted(iv, a) + Decrypted(Last(iv, a), b)
    {
      hide Crypt;
      hide Mask;
    }
  }

  lemma XorCancel(a: bv32, b: bv32, c: bv32)
    requires Xor(a, b) == Xor(a, c)
    ensures b == c
  {
    assert Xor(a, Xor(a, b)) == b && Xor(a, Xor(a, c)) == c;
  }

  function Last(iv: Block, cs: seq<Block>): Block { if cs == [] then iv else cs[|cs| - 1] }

  // ----- _des_crypt -----

  /** Two uses of c2l. */
  method Load(a: array<bv8>, at: nat) returns (x: Block)
    requires at + 8 <= a.Length
    ensures x == BlockAt(a[..], at)
  {
    x := Block(LeWord(a[at], a[at + 1], a[at + 2], a[at + 3]), LeWord(a[at + 4], a[at + 5], a[at + 6], a[at + 7]));
  }

  /** Two uses of l2c. */
  method Store(a: array<bv8>, at: nat, x: Block)
    requires at + 8 <= a.Length
    modifies a
    ensures BlockAt(a[..], at) == x
    ensures a[..at] == old(a[..at]) && a[at + 8..] == old(a[at + 8..])
  {
    LeWordBytes(x.l);
    LeWordBytes(x.r);
    hide LeWord;
    hide ByteOf;
    a[at], a[at + 1], a[at + 2], a[at + 3] := ByteOf(x.l, 0), ByteOf(x.l, 8), ByteOf(x.l, 16), ByteOf(x.l, 24);
    a[at + 4], a[at + 5], a[at + 6], a[at + 7] := ByteOf(x.r, 0), ByteOf(x.r, 8), ByteOf(x.r, 16), ByteOf(x.r, 24);
  }

  lemma BlocksStep(s: Bytes, t: Bytes, k: nat, x: Block)
    requires |s| == |t| && 8 * k + 8 <= |s| && t[..8 * k] == s[..8 * k] && BlockAt(t, 8 * k) == x
    ensures Blocks(t, k + 1) == Blocks(s, k) + [x]
  {
    forall i | 0 <= i < k
      ensures Blocks(t, k + 1)[i] == Blocks(s, k)[i]
    {
      assert t[..8 * k][8 * i..8 * i + 8] == t[8 * i..8 * i + 8] && s[..8 * k][8 * i..8 * i + 8] == s[8 * i..8 * i + 8];
      SameBlock(t, 8 * i, s, 8 * i);
    }
  }

  /** Running the cipher on one block. */
  method Cipher(m: Mode, x: Block, encrypt: bool) returns (y: Block)
    ensures y == Crypt(m.sp, m.s, x, encrypt)
  {
    hide Crypt;
    var tbuf := new bv32[2];
    tbuf[0], tbuf[1] := x.l, x.r;
    DesEncrypt(tbuf, m.sp, m.s, encrypt);
    y := Block(tbuf[0], tbuf[1]);
  }

  // What holds when the first k blocks are processed: the buffer was `was`, is `s`.

  ghost predicate EncSoFar(m: Mode, iv: Block, was: Bytes, s: Bytes, k: nat, tout: Block)
  {
    && |s| == |was| && 8 * k <= |s| && s[8 * k..] == was[8 * k..]
    && Blocks(s, k) == m.Encrypted(iv, Blocks(was, k))
    && tout == Last(iv, Blocks(s, k))
  }

  lemma EncStart(m: Mode, iv: Block, was: Bytes)
    ensures EncSoFar(m, iv, was, was, 0, iv)
  {
    hide LeWord;
  }

  lemma EncTurn(m: Mode, iv: Block, was: Bytes, s: Bytes, t: Bytes, k: nat, tout: Block, tout': Block)
    requires EncSoFar(m, iv, was, s, k, tout) && 8 * k + 8 <= |s| == |t|
    requires t[..8 * k] == s[..8 * k] && t[8 * k + 8..] == s[8 * k + 8..] && BlockAt(t, 8 * k) == tout'
    requires tout' == Crypt(m.sp, m.s, m.Mask(BlockAt(s, 8 * k), tout), true)
    ensures EncSoFar(m, iv, was, t, k + 1, tout')
  {
    hide LeWord;
    hide Crypt;
    hide m.Mask;
    SameTail(s, was, 8 * k);
    BlocksStep(s, t, k, tout');
    BlocksStep(was, was, k, BlockAt(was, 8 * k));
    hide BlockAt;
    hide Blocks;
  }

  ghost predicate DecSoFar(m: Mode, iv: Block, was: Bytes, s: Bytes, k: nat, mask: Block)
  {
    && |s| == |was| && 8 * k <= |s| && s[8 * k..] == was[8 * k..]
    && Blocks(s, k) == m.Decrypted(iv, Blocks(was, k))
    && (m.cbc ==> mask == Last(iv, Blocks(was, k)))
  }

  lemma DecStart(m: Mode, iv: Block, was: Bytes)
    ensures DecSoFar(m, iv, was, was, 0, iv) && Block(0, 0) == Last(Block(0, 0), Blocks(was, 0))
  {
    hide LeWord;
  }

  lemma DecTurn(m: Mode, iv: Block, was: Bytes, s: Bytes, t: Bytes, k: nat, mask: Block, tin: Block, tout: Block)
    requires DecSoFar(m, iv, was, s, k, mask) && 8 * k + 8 <= |s| == |t|
    requires t[..8 * k] == s[..8 * k] && t[8 * k + 8..] == s[8 * k + 8..] && BlockAt(t, 8 * k) == tout
    requires tin == BlockAt(s, 8 * k) && tout == m.Mask(Crypt(m.sp, m.s, tin, false), mask)
    ensures DecSoFar(m, iv, was, t, k + 1, if m.cbc then tin else mask)
    ensures tin == Last(Block(0, 0), Blocks(was, k + 1))
  {
    hide LeWord;
    hide Crypt;
    hide m.Mask;
    SameTail(s, was, 8 * k);
    BlocksStep(s, t, k, tout);
    BlocksStep(was, was, k, tin);
    hide BlockAt;
    hide Blocks;
    DecryptStep(m, iv, Blocks(was, k), tin, mask);
    hide m.Decrypted;
  }

  lemma DecryptStep(m: Mode, iv: Block, cs: seq<Block>, c: Block, mask: Block)
    requires m.cbc ==> mask == Last(iv, cs)
    ensures m.Decrypted(iv, cs + [c]) == m.Decrypted(iv, cs) + [m.Mask(Crypt(m.sp, m.s, c, false), mask)]
  {
    hide Crypt;
    hide Xor;
  }

  /** Lines 584-607. */
  method EncryptBuffer(buf: array<bv8>, len: nat, ivec: array<bv8>, m: Mode)
    requires len % 8 == 0 && len <= buf.Length && ivec.Length == 8 && buf != ivec
    modifies buf, ivec
    ensures buf[len..] == old(buf[len..])
    ensures Blocks(buf[..], len / 8) == m.Encrypted(old(BlockAt(ivec[..], 0)), old(Blocks(buf[..], len / 8)))
    ensures BlockAt(ivec[..], 0) == Last(old(BlockAt(ivec[..], 0)), Blocks(buf[..], len / 8))
  {
    hide *;
    var tout := Load(ivec, 0);
    ghost var iv, was, k := tout, buf[..], 0;
    var at := 0;
    EncStart(m, iv, was);
    while at < len
      invariant at == 8 * k && k <= len / 8
      invariant EncSoFar(m, iv, was, buf[..], k, tout)
    {
      ghost var s, last := buf[..], tout;
      tout := EncryptOne(buf, at, m, tout);
      EncTurn(m, iv, was, s, buf[..], k, last, tout);
      at, k := at + 8, k + 1;
    }
    EncDone(m, iv, was, buf[..], k, tout);
    Store(ivec, 0, tout);
  }

  lemma EncDone(m: Mode, iv: Block, was: Bytes, s: Bytes, k: nat, tout: Block)
    requires EncSoFar(m, iv, was, s, k, tout)
    ensures |s| == |was| && 8 * k <= |s| && s[8 * k..] == was[8 * k..]
    ensures Blocks(s, k) == m.Encrypted(iv, Blocks(was, k)) && tout == Last(iv, Blocks(s, k))
  {
  }

  /** Lines 608-636.  With no data at all the vector is overwritten by zeros. */
  method DecryptBuffer(buf: array<bv8>, len: nat, ivec: array<bv8>, m: Mode)
    requires len % 8 == 0 && len <= buf.Length && ivec.Length == 8 && buf != ivec
    modifies buf, ivec
    ensures buf[len..] == old(buf[len..])
    ensures Blocks(buf[..], len / 8) == m.Decrypted(old(BlockAt(ivec[..], 0)), old(Blocks(buf[..], len / 8)))
    ensures BlockAt(ivec[..], 0) == Last(Block(0, 0), old(Blocks(buf[..], len / 8)))
  {
    hide *;
    var tin := Block(0, 0);
    var mask := Load(ivec, 0);
    ghost var iv, was, k := mask, buf[..], 0;
    var at := 0;
    DecStart(m, iv, was);
    while at < len
      invariant at == 8 * k && k <= len / 8
      invariant DecSoFar(m, iv, was, buf[..], k, mask)
      invariant tin == Last(Block(0, 0), Blocks(was, k))
    {
      ghost var s := buf[..];
      tin := DecryptOne(buf, at, m, mask);
      DecTurn(m, iv, was, s, buf[..], k, mask, tin, BlockAt(buf[..], at));
      if m.cbc {
        mask := tin;
      }
      at, k := at + 8, k + 1;
    }
    DecDone(m, iv, was, buf[..], k, mask);
    Store(ivec, 0, tin);
  }

  lemma DecDone(m: Mode, iv: Block, was: Bytes, s: Bytes, k: nat, mask: Block)
    requires DecSoFar(m, iv, was, s, k, mask)
    ensures |s| == |was| && 8 * k <= |s| && s[8 * k..] == was[8 * k..]
    ensures Blocks(s, k) == m.Decrypted(iv, Blocks(was, k))
  {
  }

  /** One turn of the encrypting loop. */
  method EncryptOne(buf: array<bv8>, at: nat, m: Mode, mask: Block) returns (tout: Block)
    requires at + 8 <= buf.Length
    modifies buf
    ensures tout == Crypt(m.sp, m.s, m.Mask(old(BlockAt(buf[..], at)), mask), true) == BlockAt(buf[..], at)
    ensures buf[..at] == old(buf[..at]) && buf[at + 8..] == old(buf[at + 8..])
  {
    hide *;
    var tin := Load(buf, at);
    tin := m.Mask(tin, mask);
    tout := Cipher(m, tin, true);
    Store(buf, at, tout);
  }

  /** One turn of the decrypting loop. */
  method DecryptOne(buf: array<bv8>, at: nat, m: Mode, mask: Block) returns (tin: Block)
    requires at + 8 <= buf.Length
    modifies buf
    ensures tin == old(BlockAt(buf[..], at)) && BlockAt(buf[..], at) == m.Mask(Crypt(m.sp, m.s, tin, false), mask)
    ensures buf[..at] == old(buf[..at]) && buf[at + 8..] == old(buf[at + 8..])
  {
    hide *;
    tin := Load(buf, at);
    var tout := Cipher(m, tin, false);
    tout := m.Mask(tout, mask);
    Store(buf, at, tout);
  }

  lemma SameTail(s: Bytes, t: Bytes, at: nat)
    requires |s| == |t| && at + 8 <= |s| && s[at..] == t[at..]
    ensures BlockAt(s, at) == BlockAt(t, at) && s[at + 8..] == t[at + 8..]
  {
    assert s[at..][..8] == s[at..at + 8] && t[at..][..8] == t[at..at + 8];
    SameBlock(s, at, t, at);
    assert s[at..][8..] == s[at + 8..] && t[at..][8..] == t[at + 8..];
  }

  /** The whole of _des_crypt for a given key schedule. */
  method DesCrypt(buf: array<bv8>, len: nat, ivec: array<bv8>, m: Mode, encrypt: bool)
    requires len % 8 == 0 && len <= buf.Length && ivec.Length == 8 && buf != ivec
    modifies buf, ivec
    ensures buf[len..] == old(buf[len..])
    ensures Blocks(buf[..], len / 8) == m.Processed(old(BlockAt(ivec[..], 0)), old(Blocks(buf[..], len / 8)), encrypt)
    ensures BlockAt(ivec[..], 0) == m.NextIv(old(BlockAt(ivec[..], 0)), old(Blocks(buf[..], len / 8)), encrypt)
  {
    hide Blocks;
    hide BlockAt;
    hide m.Encrypted;
    hide m.Decrypted;
    hide Last;
    if encrypt {
      EncryptBuffer(buf, len, ivec, m);
    } else {
      DecryptBuffer(buf, len, ivec, m);
    }
  }

  /** Encrypting a buffer and decrypting it with the same initial vector restores every byte. */
  lemma BufferRoundTrip(m: Mode, iv: Block, plain: Bytes, cipher: Bytes, result: Bytes, n: nat)
    requires |plain| == |cipher| == |result| == 8 * n
    requires Blocks(cipher, n) == m.Processed(iv, Blocks(plain, n), true)
    requires Blocks(result, n) == m.Processed(iv, Blocks(cipher, n), false)
    ensures result == plain
  {
    hide Blocks;
    hide m.Encrypted;
    hide m.Decrypted;
    m.RoundTrip(iv, Blocks(plain, n));
    BlocksInjective(result, plain, n);
  }

  // ----- A buffer in pieces -----

  /** Two calls on consecutive pieces, the second with the vector that the first leaves, put out what one call
      puts out: always when encrypting, and when decrypting exactly if the first piece is not empty, or its
      vector is zero, or there is no chaining, or nothing follows. */
  lemma PiecesOutput(m: Mode, iv: Block, a: seq<Block>, b: seq<Block>, encrypt: bool)
    ensures (m.Processed(iv, a + b, encrypt)
             == m.Processed(iv, a, encrypt) + m.Processed(m.NextIv(iv, a, encrypt), b, encrypt))
       <==> (encrypt || a != [] || iv == Block(0, 0) || !m.cbc || b == [])
  {
    if encrypt {
      m.EncryptedChained(iv, a, b);
    } else {
      m.DecryptedChained(iv, a, b);
      m.DecryptedDiffers(iv, Block(0, 0), b);
      SameHead(m.Decrypted(iv, a), m.Decrypted(Last(iv, a), b), m.Decrypted(Last(Block(0, 0), a), b));
    }
    hide m.Encrypted;
    hide m.Decrypted;
  }

  /** They leave the vector that one call leaves: always when encrypting, and when decrypting exactly if the
      second piece is not empty, or there is no first one, or the last cipher block is zero. */
  lemma PiecesVector(m: Mode, iv: Block, a: seq<Block>, b: seq<Block>, encrypt: bool)
    ensures m.NextIv(iv, a + b, encrypt) == m.NextIv(m.NextIv(iv, a, encrypt), b, encrypt)
       <==> (encrypt || b != [] || a == [] || a[|a| - 1] == Block(0, 0))
  {
    if encrypt {
      m.EncryptedChained(iv, a, b);
      LastOf(iv, m.Encrypted(iv, a), m.Encrypted(Last(iv, m.Encrypted(iv, a)), b));
    }
    hide m.Encrypted;
  }

  lemma LastOf(iv: Block, x: seq<Block>, y: seq<Block>)
    ensures Last(iv, x + y) == Last(Last(iv, x), y)
  {
  }

  /** Two calls on a and b put out and leave behind what one call on both does. */
  ghost predicate SameAsOne(m: Mode, iv: Block, a: seq<Block>, b: seq<Block>, encrypt: bool)
  {
    && m.Processed(iv, a + b, encrypt)
       == m.Processed(iv, a, encrypt) + m.Processed(m.NextIv(iv, a, encrypt), b, encrypt)
    && m.NextIv(iv, a + b, encrypt) == m.NextIv(m.NextIv(iv, a, encrypt), b, encrypt)
  }

  /** Two calls are one call, in output and in the vector they leave, exactly under this condition. */
  lemma Pieces(m: Mode, iv: Block, a: seq<Block>, b: seq<Block>, encrypt: bool)
    ensures SameAsOne(m, iv, a, b, encrypt)
       <==> (encrypt || if b == [] then a == [] || a[|a| - 1] == Block(0, 0)
                        else a != [] || iv == Block(0, 0) || !m.cbc)
  {
    PiecesOutput(m, iv, a, b, encrypt);
    PiecesVector(m, iv, a, b, encrypt);
    hide m.Processed;
    hide m.NextIv;
  }

  /** An empty call behind a piece loses the vector, and what follows is then decrypted wrongly. */
  lemma EmptyCallLosesVector(m: Mode, iv: Block, c: Block, next: seq<Block>)
    requires m.cbc && c != Block(0, 0) && next != []
    ensures !SameAsOne(m, iv, [c], [], false)
    ensures m.NextIv(m.NextIv(iv, [c], false), [], false) == Block(0, 0) != m.NextIv(iv, [c], false)
    ensures m.Processed(Block(0, 0), next, false) != m.Processed(m.NextIv(iv, [c], false), next, false)
  {
    Pieces(m, iv, [c], [], false);
    m.DecryptedDiffers(Block(0, 0), c, next);
    hide SameAsOne;
    hide m.Decrypted;
  }

  /** So does an empty call in front of the first piece. */
  lemma EmptyCallFirst(m: Mode, iv: Block, next: seq<Block>)
    requires m.cbc && iv != Block(0, 0) && next != []
    ensures !SameAsOne(m, iv, [], next, false)
  {
    Pieces(m, iv, [], next, false);
    hide SameAsOne;
  }

  function Concat(pieces: seq<seq<Block>>): seq<Block>
  {
    if pieces == [] then [] else Concat(pieces[..|pieces| - 1]) + pieces[|pieces| - 1]
  }

  /** The output of a run of calls, and the vector they leave. */
  function Run(m: Mode, iv: Block, pieces: seq<seq<Block>>, encrypt: bool): (r: (seq<Block>, Block))
    decreases |pieces|
  {
    if pieces == [] then ([], iv) else
      var (out, v) := Run(m, iv, pieces[..|pieces| - 1], encrypt);
      (out + m.Processed(v, pieces[|pieces| - 1], encrypt), m.NextIv(v, pieces[|pieces| - 1], encrypt))
  }

  /** Any number of calls, on pieces none of which is empty when decrypting, are one call on the whole. */
  lemma {:induction false} AnyPieces(m: Mode, iv: Block, pieces: seq<seq<Block>>, encrypt: bool)
    requires pieces != [] && (encrypt || forall i :: 0 <= i < |pieces| ==> pieces[i] != [])
    ensures Run(m, iv, pieces, encrypt) == (m.Processed(iv, Concat(pieces), encrypt),
        m.NextIv(iv, Concat(pieces), encrypt))
    decreases |pieces|
  {
    hide m.Processed;
    hide m.NextIv;
    var before, last := pieces[..|pieces| - 1], pieces[|pieces| - 1];
    if before == [] {
      assert Concat(pieces) == last;
      assert Run(m, iv, pieces, encrypt).0 == [] + m.Processed(iv, last, encrypt) == m.Processed(iv, last, encrypt);
    } else {
      AnyPieces(m, iv, before, encrypt);
      NotEmpty(before, encrypt);
      Pieces(m, iv, Concat(before), last, encrypt);
    }
  }

  lemma NotEmpty(pieces: seq<seq<Block>>, encrypt: bool)
    requires pieces != [] && (encrypt || forall i :: 0 <= i < |pieces| ==> pieces[i] != [])
    ensures encrypt || Concat(pieces) != []
  {
  }

  /** The same for bytes: the outputs of two calls, put together, are the output of one call on the joined
      buffer, exactly under the condition of PiecesOutput. */
  lemma BufferPieces(m: Mode, iv: Block, s: Bytes, t: Bytes, j: nat, k: nat, out1: Bytes, out2: Bytes, out: Bytes,
                     encrypt: bool)
    requires |s| == |out1| == 8 * j && |t| == |out2| == 8 * k && |out| == 8 * (j + k)
    requires Blocks(out1, j) == m.Processed(iv, Blocks(s, j), encrypt)
    requires Blocks(out2, k) == m.Processed(m.NextIv(iv, Blocks(s, j), encrypt), Blocks(t, k), encrypt)
    requires Blocks(out, j + k) == m.Processed(iv, Blocks(s + t, j + k), encrypt)
    ensures out == out1 + out2 <==> (encrypt || j > 0 || iv == Block(0, 0) || !m.cbc || k == 0)
  {
    hide Blocks;
    hide m.Processed;
    hide m.NextIv;
    BlocksAppend(s, t, j, k);
    BlocksAppend(out1, out2, j, k);
    PiecesOutput(m, iv, Blocks(s, j), Blocks(t, k), encrypt);
    if Blocks(out, j + k) == Blocks(out1 + out2, j + k) {
      BlocksInjective(out, out1 + out2, j + k);
    }
  }

  lemma SameHead(x: seq<Block>, y: seq<Block>, z: seq<Block>)
    ensures x + y == x + z <==> y == z
  {
    assert (x + y)[|x|..] == y && (x + z)[|x|..] == z;
  }
}
