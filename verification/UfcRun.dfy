/** Any sequence of calls of UFC-crypt on one crypt_data object, crypt/crypt_util.c:594-892 and
crypt/crypt-entry.c:66-103. */
module UfcRun {
  import opened BitSeq
  import opened DesSpec
  import opened UfcTables
  import opened UfcData
  import opened UfcState
  import opened UfcSalt
  import opened StandardBoxes

  datatype Call =
    | SetSalt(s0: int, s1: int)
    | SetKey(key64: Block)
    | Encrypt(block: Block, edflag: int)
    | Crypt(key: seq<int>, c0: int, c1: int)

  /** All that the past has left behind: whether only null salts were set, and the last key's schedule, if any. */
  datatype Past = Past(blank: bool, ks: seq<Key48>)

  const START := Past(true, [])

  function After(p: Past, c: Call): Past
  {
    match c
    case SetSalt(s0, s1) => p.(blank := p.blank && s0 == 0 && s1 == 0)
    case SetKey(key) => Past(false, Schedule(key))
    case Encrypt(_, _) => p.(blank := false)
    case Crypt(key, s0, s1) => Past(p.blank && s0 == 0 && s1 == 0, Schedule(KeyOf(FirstEight(key))))
  }

  /** What the call delivers: a block for Encrypt and Crypt. */
  function Output(sbox: SBoxes, p: Past, c: Call): BitStr
    requires ValidSBoxes(sbox)
  {
    match c
    case SetSalt(_, _) => []
    case SetKey(_) => []
    case Encrypt(block, edflag) => Cipher(sbox, Zeros(24)).Encipher(block, if edflag == 0 then p.ks else Reverse(p.ks))
    case Crypt(key, s0, s1) =>
      Cipher(sbox, SaltInForce(p.blank, s0, s1)).EncipherTimes(25, Zeros(64), Schedule(KeyOf(FirstEight(key))))
  }

  function AfterAll(p: Past, cs: seq<Call>): Past
  {
    if cs == [] then p else After(AfterAll(p, cs[..|cs| - 1]), cs[|cs| - 1])
  }

  function Outputs(sbox: SBoxes, p: Past, cs: seq<Call>): (out: seq<BitStr>)
    requires ValidSBoxes(sbox)
    ensures |out| == |cs|
  {
    if cs == [] then []
    else Outputs(sbox, p, cs[..|cs| - 1]) + [Output(sbox, AfterAll(p, cs[..|cs| - 1]), cs[|cs| - 1])]
  }

  /** No block is enciphered before there is a key. */
  predicate Keyed(p: Past, cs: seq<Call>)
  {
    forall i :: 0 <= i < |cs| && cs[i].Encrypt? ==> AfterAll(p, cs[..i]).ks != []
  }

  /** The object is in a state that the past explains. */
  ghost predicate Explains(p: Past, d: CryptData)
    reads d, d.sb01, d.sb23, d.keysched
  {
    && d.Valid() && d.Blank() == p.blank
    && (p.ks != [] ==> d.Keyed(p.ks))
  }

  /** One call, as the past determines it. */
  method OneCall(d: CryptData, small: SmallTables, c: Call, ghost p: Past) returns (out: BitStr)
    requires Explains(p, d) && small.Valid() && (d.initialized > 0 ==> small.initialized)
    requires c.Encrypt? ==> p.ks != []
    modifies d, small, d.sb01, d.sb23, d.keysched
    ensures Explains(After(p, c), d) && small.Valid() && small.initialized
    ensures out == Output(d.sbox, p, c)
  {
    hide CryptData.Valid;
    hide CryptData.Keyed;
    hide SmallTables.Valid;
    hide Cipher.EncipherTimes;
    hide Schedule;
    out := [];
    match c
    case SetSalt(s0, s1) => JustSalt(d, small, s0, s1, p);
    case SetKey(key) => d.SetKey(small, key);
    case Encrypt(block, edflag) => out := JustEncrypt(d, small, block, edflag, p.ks);
    case Crypt(key, s0, s1) =>
      var v1, v2 := d.Crypt(small, key, s0, s1);
      out := Joined(v1, v2);
  }

  method JustSalt(d: CryptData, small: SmallTables, s0: int, s1: int, ghost p: Past)
    requires Explains(p, d) && small.Valid() && (d.initialized > 0 ==> small.initialized)
    modifies d, small, d.sb01, d.sb23
    ensures Explains(After(p, SetSalt(s0, s1)), d) && small.Valid() && small.initialized
  {
    hide TablesFor;
    hide CryptData.SaltState;
    hide CryptData.Blank;
    hide SmallTables.Valid;
    hide SaltInForce;
    d.SetupSalt(small, s0, s1);
  }

  method JustEncrypt(d: CryptData, small: SmallTables, block: Block, edflag: int, ghost ks: seq<Key48>)
    returns (out: BitStr)
    requires d.Valid() && d.Keyed(ks) && small.Valid() && (d.initialized > 0 ==> small.initialized)
    modifies d, small, d.sb01, d.sb23, d.keysched
    ensures d.Valid() && d.Keyed(ks) && !d.Blank() && small.Valid() && small.initialized
    ensures out == Cipher(d.sbox, Zeros(24)).Encipher(block, if edflag == 0 then ks else Reverse(ks))
  {
    hide CryptData.Valid;
    hide CryptData.Keyed;
    hide SmallTables.Valid;
    var a := new bool[64](i requires 0 <= i < 64 => block[i]);
    assert a[..] == block;
    d.Encrypt(small, a, edflag, ks);
    out := a[..];
  }

  /** Every sequence of calls on zeroed data gives the blocks of the standard. */
  method AnyRun(small: SmallTables, sbox: SBoxes, cs: seq<Call>) returns (out: seq<BitStr>)
    requires small.Valid() && ValidSBoxes(sbox) && Keyed(START, cs)
    modifies small
    ensures out == Outputs(sbox, START, cs)
  {
    var d := new CryptData(sbox);
    out := [];
    for i := 0 to |cs|
      invariant Explains(AfterAll(START, cs[..i]), d) && d.sbox == sbox && fresh(d)
      invariant fresh(d.sb01) && fresh(d.sb23) && fresh(d.keysched)
      invariant small.Valid() && (d.initialized > 0 ==> small.initialized)
      invariant out == Outputs(sbox, START, cs[..i])
    {
      assert cs[..i + 1][..i] == cs[..i];
      hide CryptData.Valid;
      hide SmallTables.Valid;
      var x := OneCall(d, small, cs[i], AfterAll(START, cs[..i]));
      out := out + [x];
    }
    assert cs[..|cs|] == cs;
  }

  // ----- What runs have in common -----

  lemma {:induction false} OutputAt(sbox: SBoxes, p: Past, cs: seq<Call>, i: nat)
    requires ValidSBoxes(sbox) && i < |cs|
    ensures Outputs(sbox, p, cs)[i] == Output(sbox, AfterAll(p, cs[..i]), cs[i])
    decreases |cs|
  {
    hide Output;
    var n := |cs| - 1;
    if i < n {
      OutputAt(sbox, p, cs[..n], i);
      assert cs[..n][..i] == cs[..i];
    }
  }

  /** What crypt_r delivers does not depend on the calls before it, unless the salt is that of two nulls. */
  lemma CryptForgets(sbox: SBoxes, cs: seq<Call>, i: nat)
    requires ValidSBoxes(sbox) && i < |cs| && cs[i].Crypt? && (cs[i].c0 != 0 || cs[i].c1 != 0)
    ensures Outputs(sbox, START, cs)[i]
         == Cipher(sbox, SaltBits(cs[i].c0, cs[i].c1)).EncipherTimes(25, Zeros(64),
             Schedule(KeyOf(FirstEight(cs[i].key))))
  {
    OutputAt(sbox, START, cs, i);
    hide Cipher.EncipherTimes;
  }

  /** No call from a to b sets a key. */
  predicate KeyKept(cs: seq<Call>, a: nat, b: nat)
    requires b <= |cs|
  {
    forall i :: a <= i < b ==> !cs[i].SetKey? && !cs[i].Crypt?
  }

  lemma {:induction false} SameSchedule(p: Past, cs: seq<Call>, a: nat, b: nat)
    requires a <= b <= |cs| && KeyKept(cs, a, b)
    ensures AfterAll(p, cs[..b]).ks == AfterAll(p, cs[..a]).ks
    decreases b
  {
    hide Schedule;
    if a < b {
      SameSchedule(p, cs, a, b - 1);
      assert cs[..b][..b - 1] == cs[..b - 1];
    }
  }

  /** Enciphered and later, under the same key, deciphered, or the other way round: the block is back.  Blocks,
      flags and salts in between do not matter, although each of them may turn the schedule or rework the tables. */
  lemma RestoredLater(sbox: SBoxes, cs: seq<Call>, i: nat, j: nat)
    requires ValidSBoxes(sbox) && i < j < |cs| && cs[i].Encrypt? && cs[j].Encrypt? && KeyKept(cs, i, j)
    requires (cs[i].edflag == 0) != (cs[j].edflag == 0) && cs[j].block == Outputs(sbox, START, cs)[i]
    ensures Outputs(sbox, START, cs)[j] == cs[i].block
  {
    OutputAt(sbox, START, cs, i);
    OutputAt(sbox, START, cs, j);
    SameSchedule(START, cs, i, j);
    hide AfterAll;
    hide Outputs;
    var c, ks := Cipher(sbox, Zeros(24)), AfterAll(START, cs[..i]).ks;
    c.DecipherEncipher(cs[i].block, ks);
    c.DecipherEncipher(cs[i].block, Reverse(ks));
    ReverseTwice(ks);
  }

  // ----- The call that does not belong to a run -----

  /** The salt "/." swaps its first bit. */
  lemma SlashSwaps()
    ensures SaltInForce(true, '/' as int, '.' as int) == SaltBits('/' as int, '.' as int) != Zeros(24)
  {
    assert BitOf(1, 0);
    assert SaltBits('/' as int, '.' as int)[0];
  }

  /** __init_des_r after that salt: the tables are unsalted, the record says otherwise. */
  method InitLosesSalt(small: SmallTables) returns (d: CryptData)
    requires small.Valid()
    modifies small
    ensures ValidSBoxes(d.sbox) && TablesFor(d.sb01[..], d.sb23[..], d.sbox, Zeros(32))
    ensures d.saltbits == Pack24(SaltBits('/' as int, '.' as int)) && !d.Valid()
  {
    StandardOnto();
    SlashSwaps();
    hide *;
    d := new CryptData(STANDARD);
    InitAfterSalt(d, small, '/' as int, '.' as int);
  }
}
