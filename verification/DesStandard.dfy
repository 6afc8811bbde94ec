/** The whole of _des_crypt, crypt/des_impl.c:565-642, on the bits of the bytes: electronic codebook and cipher block
chaining over the cipher of FIPS 46-3 with the standard S-boxes. */
module DesStandard {
  import opened BitSeq
  import opened DesSpec
  import opened ByteOrder
  import opened DesFips
  import opened DesKey
  import D = Des
  import opened DesCbc
  import opened StandardBoxes
  import opened DesTablesHold

  // ----- Bits of bytes -----

  /** Bit e of a byte. */
  predicate ByteBit(a: bv8, e: nat)
    requires e < 8
  {
    (a >> e) & 1 == 1
  }

  lemma LowBytes(a: bv8, b: bv8, c: bv8, d: bv8, w: bv32)
    requires w == LeWord(a, b, c, d)
    ensures Bit(w, 0) == ByteBit(a, 0) && Bit(w, 1) == ByteBit(a, 1)
    ensures Bit(w, 2) == ByteBit(a, 2) && Bit(w, 3) == ByteBit(a, 3)
    ensures Bit(w, 4) == ByteBit(a, 4) && Bit(w, 5) == ByteBit(a, 5)
    ensures Bit(w, 6) == ByteBit(a, 6) && Bit(w, 7) == ByteBit(a, 7)
    ensures Bit(w, 8) == ByteBit(b, 0) && Bit(w, 9) == ByteBit(b, 1)
    ensures Bit(w, 10) == ByteBit(b, 2) && Bit(w, 11) == ByteBit(b, 3)
    ensures Bit(w, 12) == ByteBit(b, 4) && Bit(w, 13) == ByteBit(b, 5)
    ensures Bit(w, 14) == ByteBit(b, 6) && Bit(w, 15) == ByteBit(b, 7)
  {
  }

  lemma HighBytes(a: bv8, b: bv8, c: bv8, d: bv8, w: bv32)
    requires w == LeWord(a, b, c, d)
    ensures Bit(w, 16) == ByteBit(c, 0) && Bit(w, 17) == ByteBit(c, 1)
    ensures Bit(w, 18) == ByteBit(c, 2) && Bit(w, 19) == ByteBit(c, 3)
    ensures Bit(w, 20) == ByteBit(c, 4) && Bit(w, 21) == ByteBit(c, 5)
    ensures Bit(w, 22) == ByteBit(c, 6) && Bit(w, 23) == ByteBit(c, 7)
    ensures Bit(w, 24) == ByteBit(d, 0) && Bit(w, 25) == ByteBit(d, 1)
    ensures Bit(w, 26) == ByteBit(d, 2) && Bit(w, 27) == ByteBit(d, 3)
    ensures Bit(w, 28) == ByteBit(d, 4) && Bit(w, 29) == ByteBit(d, 5)
    ensures Bit(w, 30) == ByteBit(d, 6) && Bit(w, 31) == ByteBit(d, 7)
  {
  }

  /** The eight bits of w from place k up are those of a byte. */
  predicate HasByte(w: bv32, k: nat, a: bv8)
    requires k <= 24
  {
    && Bit(w, k) == ByteBit(a, 0) && Bit(w, k + 1) == ByteBit(a, 1) && Bit(w, k + 2) == ByteBit(a, 2)
    && Bit(w, k + 3) == ByteBit(a, 3) && Bit(w, k + 4) == ByteBit(a, 4) && Bit(w, k + 5) == ByteBit(a, 5)
    && Bit(w, k + 6) == ByteBit(a, 6) && Bit(w, k + 7) == ByteBit(a, 7)
  }

  lemma ByteAt(w: bv32, k: nat, a: bv8, e: nat)
    requires k <= 24 && e < 8 && HasByte(w, k, a)
    ensures Bit(w, k + e) == ByteBit(a, e)
  {
    hide Bit;
    hide ByteBit;
    if e == 0 {} else if e == 1 {} else if e == 2 {} else if e == 3 {}
    else if e == 4 {} else if e == 5 {} else if e == 6 {} else {}
  }

  lemma HasLow(a: bv8, b: bv8, c: bv8, d: bv8)
    ensures var w := LeWord(a, b, c, d); HasByte(w, 0, a) && HasByte(w, 8, b)
  {
    hide Bit;
    hide ByteBit;
    hide LeWord;
    LowBytes(a, b, c, d, LeWord(a, b, c, d));
  }

  lemma HasHigh(a: bv8, b: bv8, c: bv8, d: bv8)
    ensures var w := LeWord(a, b, c, d); HasByte(w, 16, c) && HasByte(w, 24, d)
  {
    hide Bit;
    hide ByteBit;
    hide LeWord;
    HighBytes(a, b, c, d, LeWord(a, b, c, d));
  }

  /** Bit e of byte k of a word. */
  lemma LeWordBit(a: bv8, b: bv8, c: bv8, d: bv8, k: nat, e: nat)
    requires k < 4 && e < 8
    ensures Bit(LeWord(a, b, c, d), 8 * k + e) == ByteBit([a, b, c, d][k], e)
  {
    hide *;
    HasLow(a, b, c, d);
    HasHigh(a, b, c, d);
    ByteAt(LeWord(a, b, c, d), 8 * k, [a, b, c, d][k], e);
  }

  lemma WordBit(s: Bytes, at: nat, h: nat, k: nat, e: nat)
    requires at + 8 <= |s| && h < 2 && k < 4 && e < 8
    ensures Bit(if h == 0 then BlockAt(s, at).l else BlockAt(s, at).r, 8 * k + e) == ByteBit(s[at + 4 * h + k], e)
  {
    hide LeWord;
    hide Bit;
    hide ByteBit;
    var p := at + 4 * h;
    LeWordBit(s[p], s[p + 1], s[p + 2], s[p + 3], k, e);
  }

  lemma PlaceInWord(n: nat)
    requires n < 64
    ensures BitPlace(n) == 8 * (n / 8 % 4) + (7 - n % 8) && n / 8 == 4 * (n / 32) + n / 8 % 4
  {
  }

  /** Bit n of a block, as FIPS 46-3 counts them, is bit 7 - n % 8 of byte n / 8. */
  lemma BlockBit(s: Bytes, at: nat, n: nat)
    requires at + 8 <= |s| && n < 64
    ensures BitsOf(BlockAt(s, at))[n] == ((s[at + n / 8] >> (7 - n % 8)) & 1 == 1)
  {
    hide BlockAt;
    hide Bit;
    hide BitPlace;
    PlaceInWord(n);
    WordBit(s, at, n / 32, n / 8 % 4, 7 - n % 8);
  }

  /** The 64 bits of eight bytes: byte by byte, the highest bit of each first. */
  function BitsAt(s: Bytes, at: nat): (b: DesSpec.Block)
    requires at + 8 <= |s|
    ensures forall n :: 0 <= n < 64 ==> b[n] == ((s[at + n / 8] >> (7 - n % 8)) & 1 == 1)
  {
    seq(64, n requires 0 <= n < 64 => ByteBit(s[at + n / 8], 7 - n % 8))
  }

  lemma BitsAtBlock(s: Bytes, at: nat)
    requires at + 8 <= |s|
    ensures BitsOf(BlockAt(s, at)) == BitsAt(s, at)
  {
    hide BitsOf;
    hide BlockAt;
    forall n | 0 <= n < 64
      ensures BitsOf(BlockAt(s, at))[n] == BitsAt(s, at)[n]
    {
      BlockBit(s, at, n);
    }
  }

  // ----- The modes -----

  lemma BlockXor(x: D.Block, v: D.Block)
    ensures BitsOf(D.Block(D.Xor(x.l, v.l), D.Xor(x.r, v.r))) == BitSeq.Xor(BitsOf(x), BitsOf(v))
  {
    hide Bit;
    hide D.Xor;
    hide BitPlace;
    forall n | 0 <= n < 64
      ensures BitsOf(D.Block(D.Xor(x.l, v.l), D.Xor(x.r, v.r)))[n] == BitSeq.Xor(BitsOf(x), BitsOf(v))[n]
    {
      XorBit(if n < 32 then x.l else x.r, if n < 32 then v.l else v.r, BitPlace(n));
    }
  }

  lemma MaskIs(m: Mode, x: D.Block, v: D.Block)
    ensures BitsOf(m.Mask(x, v)) == if m.cbc then BitSeq.Xor(BitsOf(x), BitsOf(v)) else BitsOf(x)
  {
    BlockXor(x, v);
    hide BitsOf;
    hide D.Xor;
  }

  /** Each cipher block is the plain block, masked by the cipher block before it, under the cipher of the standard. */
  lemma EncryptedIs(m: Mode, sbox: SBoxes, ks: seq<Key48>, iv: D.Block, bs: seq<D.Block>, i: nat)
    requires SpHolds(m.sp, sbox) && Holds(m.s, ks) && i < |bs|
    ensures ValidSBoxes(sbox)
    ensures var cs, x := m.Encrypted(iv, bs), BitsOf(bs[i]);
            var v := BitsOf(if i == 0 then iv else cs[i - 1]);
            BitsOf(cs[i]) == Cipher(sbox, Zeros(24)).Encipher(if m.cbc then BitSeq.Xor(x, v) else x, ks)
  {
    hide SpHolds;
    hide Holds;
    hide BitsOf;
    hide m.Mask;
    hide m.Encrypted;
    hide D.Crypt;
    hide Cipher.Encipher;
    var v := if i == 0 then iv else m.Encrypted(iv, bs)[i - 1];
    m.EncryptedAt(iv, bs, i);
    MaskIs(m, bs[i], v);
    CryptIs(m.sp, sbox, m.s, ks, m.Mask(bs[i], v), true);
  }

  /** Each plain block is the deciphered block, masked by the cipher block before it. */
  lemma DecryptedIs(m: Mode, sbox: SBoxes, ks: seq<Key48>, iv: D.Block, cs: seq<D.Block>, i: nat)
    requires SpHolds(m.sp, sbox) && Holds(m.s, ks) && i < |cs|
    ensures ValidSBoxes(sbox)
    ensures var v := BitsOf(if i == 0 then iv else cs[i - 1]);
            var y := Cipher(sbox, Zeros(24)).Encipher(BitsOf(cs[i]), Reverse(ks));
            BitsOf(m.Decrypted(iv, cs)[i]) == if m.cbc then BitSeq.Xor(y, v) else y
  {
    hide SpHolds;
    hide Holds;
    hide BitsOf;
    hide m.Mask;
    hide D.Crypt;
    hide Cipher.Encipher;
    CryptIs(m.sp, sbox, m.s, ks, cs[i], false);
    MaskIs(m, D.Crypt(m.sp, m.s, cs[i], false), if i == 0 then iv else cs[i - 1]);
  }

  // ----- The whole program -----

  /** Block i of `now` is what FIPS 46-3 makes of block i of `was`, in bits. */
  ghost predicate StandardAt(cbc: bool, encrypt: bool, key: Bytes, iv: Bytes, was: Bytes, now: Bytes, i: nat)
    requires |key| == |iv| == 8 && |was| == |now| && 8 * i + 8 <= |was|
  {
    && ValidSBoxes(STANDARD)
    && var c, ks, x := Cipher(STANDARD, Zeros(24)), Schedule(BitsAt(key, 0)), BitsAt(was, 8 * i);
       if encrypt then
         var v := if i == 0 then BitsAt(iv, 0) else BitsAt(now, 8 * (i - 1));
         BitsAt(now, 8 * i) == c.Encipher(if cbc then BitSeq.Xor(x, v) else x, ks)
       else
         var v := if i == 0 then BitsAt(iv, 0) else BitsAt(was, 8 * (i - 1));
         var y := c.Encipher(x, Reverse(ks));
         BitsAt(now, 8 * i) == if cbc then BitSeq.Xor(y, v) else y
  }

  lemma EncryptBits(m: Mode, key: Bytes, iv: Bytes, was: Bytes, now: Bytes, n: nat, i: nat)
    requires |key| == |iv| == 8 && |was| == |now| && 8 * n <= |was| && i < n
    requires SpHolds(m.sp, STANDARD) && Holds(m.s, Schedule(BitsAt(key, 0)))
    requires Blocks(now, n) == m.Encrypted(BlockAt(iv, 0), Blocks(was, n))
    ensures StandardAt(m.cbc, true, key, iv, was, now, i)
  {
    hide STANDARD;
    hide Schedule;
    hide SpHolds;
    hide Holds;
    hide BlockAt;
    hide BitsOf;
    hide BitsAt;
    hide Cipher.Encipher;
    hide m.Encrypted;
    BitsAtBlock(iv, 0);
    BitsAtBlock(was, 8 * i);
    BitsAtBlock(now, 8 * i);
    if i > 0 { BitsAtBlock(now, 8 * (i - 1)); }
    EncryptedIs(m, STANDARD, Schedule(BitsAt(key, 0)), BlockAt(iv, 0), Blocks(was, n), i);
  }

  lemma DecryptBits(m: Mode, key: Bytes, iv: Bytes, was: Bytes, now: Bytes, n: nat, i: nat)
    requires |key| == |iv| == 8 && |was| == |now| && 8 * n <= |was| && i < n
    requires SpHolds(m.sp, STANDARD) && Holds(m.s, Schedule(BitsAt(key, 0)))
    requires Blocks(now, n) == m.Decrypted(BlockAt(iv, 0), Blocks(was, n))
    ensures StandardAt(m.cbc, false, key, iv, was, now, i)
  {
    hide STANDARD;
    hide Schedule;
    hide SpHolds;
    hide Holds;
    hide BlockAt;
    hide BitsOf;
    hide BitsAt;
    hide Cipher.Encipher;
    hide m.Decrypted;
    BitsAtBlock(iv, 0);
    BitsAtBlock(was, 8 * i);
    BitsAtBlock(now, 8 * i);
    if i > 0 { BitsAtBlock(was, 8 * (i - 1)); }
    DecryptedIs(m, STANDARD, Schedule(BitsAt(key, 0)), BlockAt(iv, 0), Blocks(was, n), i);
  }

  lemma AllBits(m: Mode, encrypt: bool, key: Bytes, iv: Bytes, was: Bytes, now: Bytes, n: nat)
    requires |key| == |iv| == 8 && |was| == |now| && 8 * n <= |was|
    requires SpHolds(m.sp, STANDARD) && Holds(m.s, Schedule(BitsAt(key, 0)))
    requires Blocks(now, n) == m.Processed(BlockAt(iv, 0), Blocks(was, n), encrypt)
    ensures forall i :: 0 <= i < n ==> StandardAt(m.cbc, encrypt, key, iv, was, now, i)
  {
    hide StandardAt;
    hide STANDARD;
    hide Schedule;
    hide SpHolds;
    hide Holds;
    hide Blocks;
    hide BitsAt;
    forall i | 0 <= i < n
      ensures StandardAt(m.cbc, encrypt, key, iv, was, now, i)
    {
      if encrypt {
        EncryptBits(m, key, iv, was, now, n, i);
      } else {
        DecryptBits(m, key, iv, was, now, n, i);
      }
    }
  }

  /** What the vector holds afterwards. */
  ghost predicate VectorAt(encrypt: bool, iv: Bytes, iv': Bytes, was: Bytes, now: Bytes, n: nat)
    requires |iv| == |iv'| == 8 && |was| == |now| && 8 * n <= |was|
  {
    BitsAt(iv', 0) == if n > 0 then BitsAt(if encrypt then now else was, 8 * (n - 1))
                      else if encrypt then BitsAt(iv, 0) else Zeros(64)
  }

  lemma VectorBits(m: Mode, iv: Bytes, iv': Bytes, was: Bytes, now: Bytes, n: nat, encrypt: bool)
    requires |iv| == |iv'| == 8 && |was| == |now| && 8 * n <= |was|
    requires Blocks(now, n) == m.Processed(BlockAt(iv, 0), Blocks(was, n), encrypt)
    requires BlockAt(iv', 0) == m.NextIv(BlockAt(iv, 0), Blocks(was, n), encrypt)
    ensures VectorAt(encrypt, iv, iv', was, now, n)
  {
    NoBits();
    hide BlockAt;
    hide BitsOf;
    hide BitsAt;
    BitsAtBlock(iv, 0);
    BitsAtBlock(iv', 0);
    if n > 0 {
      BitsAtBlock(was, 8 * (n - 1));
      BitsAtBlock(now, 8 * (n - 1));
    }
  }

  lemma NoBits()
    ensures BitsOf(D.Block(0, 0)) == Zeros(64)
  {
    hide BitPlace;
    forall n | 0 <= n < 32
      ensures !Bit(0, n)
    {
    }
  }

  /** _des_crypt: for every key, vector and buffer the bits of the buffer's bytes become those that FIPS 46-3 and its
      modes give, and the vector is left as the program leaves it. */
  method DesCryptKey(key: array<bv8>, buf: array<bv8>, len: nat, ivec: array<bv8>, cbc: bool, encrypt: bool)
    requires key.Length == 8 && ivec.Length == 8 && len % 8 == 0 && len <= buf.Length && buf != ivec
    modifies buf, ivec
    ensures buf[len..] == old(buf[len..]) && ValidSBoxes(STANDARD)
    ensures encrypt ==> forall i :: 0 <= i < len / 8 ==>
              var x := old(BitsAt(buf[..], 8 * i));
              var v := if i == 0 then old(BitsAt(ivec[..], 0)) else BitsAt(buf[..], 8 * (i - 1));
              BitsAt(buf[..], 8 * i) == Cipher(STANDARD, Zeros(24)).Encipher(
                if cbc then BitSeq.Xor(x, v) else x, Schedule(old(BitsAt(key[..], 0))))
    ensures !encrypt ==> forall i :: 0 <= i < len / 8 ==>
              var x := Cipher(STANDARD, Zeros(24)).Encipher(
                old(BitsAt(buf[..], 8 * i)), Reverse(Schedule(old(BitsAt(key[..], 0)))));
              var v := if i == 0 then old(BitsAt(ivec[..], 0)) else old(BitsAt(buf[..], 8 * (i - 1)));
              BitsAt(buf[..], 8 * i) == if cbc then BitSeq.Xor(x, v) else x
    ensures encrypt ==>
              BitsAt(ivec[..], 0) == if len == 0 then old(BitsAt(ivec[..], 0)) else BitsAt(buf[..], len - 8)
    ensures !encrypt ==>
              BitsAt(ivec[..], 0) == if len == 0 then Zeros(64) else old(BitsAt(buf[..], len - 8))
  {
    hide *;
    ghost var k0, v0, b0 := key[..], ivec[..], buf[..];
    StandardOnto();
    WithTables(key, buf, len, ivec, cbc, encrypt);
    StandardMeans(cbc, encrypt, k0, v0, b0, buf[..], len / 8);
    VectorMeans(encrypt, v0, ivec[..], b0, buf[..], len);
  }

  lemma VectorMeans(encrypt: bool, iv: Bytes, iv': Bytes, was: Bytes, now: Bytes, len: nat)
    requires |iv| == |iv'| == 8 && |was| == |now| && len % 8 == 0 && len <= |was|
    requires VectorAt(encrypt, iv, iv', was, now, len / 8)
    ensures encrypt ==> BitsAt(iv', 0) == if len == 0 then BitsAt(iv, 0) else BitsAt(now, len - 8)
    ensures !encrypt ==> BitsAt(iv', 0) == if len == 0 then Zeros(64) else BitsAt(was, len - 8)
  {
    hide BitsAt;
    assert len > 0 ==> 8 * (len / 8 - 1) == len - 8;
  }

  lemma StandardMeans(cbc: bool, encrypt: bool, key: Bytes, iv: Bytes, was: Bytes, now: Bytes, n: nat)
    requires |key| == |iv| == 8 && |was| == |now| && 8 * n <= |was| && ValidSBoxes(STANDARD)
    requires forall i :: 0 <= i < n ==> StandardAt(cbc, encrypt, key, iv, was, now, i)
    ensures encrypt ==> forall i :: 0 <= i < n ==>
              var x := BitsAt(was, 8 * i);
              var v := if i == 0 then BitsAt(iv, 0) else BitsAt(now, 8 * (i - 1));
              BitsAt(now, 8 * i) == Cipher(STANDARD, Zeros(24)).Encipher(
                if cbc then BitSeq.Xor(x, v) else x, Schedule(BitsAt(key, 0)))
    ensures !encrypt ==> forall i :: 0 <= i < n ==>
              var x := Cipher(STANDARD, Zeros(24)).Encipher(BitsAt(was, 8 * i), Reverse(Schedule(BitsAt(key, 0))));
              var v := if i == 0 then BitsAt(iv, 0) else BitsAt(was, 8 * (i - 1));
              BitsAt(now, 8 * i) == if cbc then BitSeq.Xor(x, v) else x
  {
    hide BitsAt;
    hide Schedule;
    hide STANDARD;
    hide Cipher.Encipher;
    forall i | 0 <= i < n
      ensures StandardAt(cbc, encrypt, key, iv, was, now, i) && BitsAt(now, 8 * i) == BitsAt(now, 8 * i)
    {
    }
  }

  method Keys(key: array<bv8>) returns (s: D.Schedule)
    requires key.Length == 8
    ensures Holds(s, Schedule(BitsAt(key[..], 0)))
  {
    hide *;
    SkbTablesHold();
    BitsAtBlock(key[..], 0);
    var k := Load(key, 0);
    var schedule := new bv32[32];
    SetKey(SKB, k, schedule);
    s := schedule[..];
  }

  method WithTables(key: array<bv8>, buf: array<bv8>, len: nat, ivec: array<bv8>, cbc: bool, encrypt: bool)
    requires key.Length == 8 && ivec.Length == 8 && len % 8 == 0 && len <= buf.Length && buf != ivec
    modifies buf, ivec
    ensures buf[len..] == old(buf[len..])
    ensures forall i :: 0 <= i < len / 8 ==>
              StandardAt(cbc, encrypt, old(key[..]), old(ivec[..]), old(buf[..]), buf[..], i)
    ensures VectorAt(encrypt, old(ivec[..]), ivec[..], old(buf[..]), buf[..], len / 8)
  {
    hide *;
    ghost var k0, v0, b0 := key[..], ivec[..], buf[..];
    SpTablesHold();
    var schedule := Keys(key);
    var m := Mode(SPTRANS, schedule, cbc);
    DesCrypt(buf, len, ivec, m, encrypt);
    AllBits(m, encrypt, k0, v0, b0, buf[..], len / 8);
    VectorBits(m, v0, ivec[..], b0, buf[..], len / 8, encrypt);
  }
}
