# MiNTLib: proofs about its number, cipher and option-table code

MiNTLib is a C library. This project models four of its parts and proves what they compute, for all
inputs and all sizes:

* **`gmp/`, multi-precision naturals** on arrays of 32-bit limbs: Karatsuba multiplication and squaring,
  block multiplication, Knuth division with fraction limbs, division by one limb. All of it works in place
  on one memory (`array<Limb>`) with pointers as offsets, so source and destination may overlap as the C
  code allows. A run of limbs stands for the number `V(mem, at, n)`; every operation is specified by an
  equation between numbers and by the limbs it leaves alone.
* **`crypt/`, two DES engines and MD5.** `DesSpec` is FIPS 46-3 bit by bit, with the salt of crypt(3).
  UFC-crypt keeps its data E-expanded and repairs its tables for each new salt; it is proved to compute
  DesSpec from key to cipher text, over every sequence of calls (`UfcRun.AnyRun`). The word-level DES of
  `des_impl.c` is proved to be DesSpec too, from the bits of the key's bytes to the bits of a buffer's bytes in ECB
  or CBC mode; its combined tables are proved, entry by entry, to be the standard S-boxes followed by P, and PC2.
  It is invertible for any tables and schedule. The MD5 stream is proved equal to the digest of RFC 1321.
* **`argp/`.** One tree of option tables is flattened twice, for the parser and for the help text. The two
  results are compared letter by letter. The usage lines enumerate all combinations of alternatives.
* **`gmp/support.c` and the double conversions.** The bit-by-bit `sqrt` rounds correctly in every rounding
  mode, and each of its floating-point operations is exact. Doubles are unpacked without loss.

## How it is laid out

| files | content |
|---|---|
| Limbs, LongLong, MpnLow | numbers as limb runs, the two-limb macros, the linear-time loops |
| Karatsuba, MpnMul, DivTheory, MpnDivOne, MpnDivRem, MpnRoundTrip | multiplication and division |
| Bits, BitSeq, ByteOrder, TwoPowers, Sequences | bits, words, byte order, powers of two, a law of sequences |
| DesSpec, StandardBoxes | FIPS 46-3 and its S-boxes |
| UfcTables, SelectTable, UfcInit, UfcKeys, Ufc, UfcSalt, UfcData, UfcState, UfcRun | UFC-crypt |
| Des, DesFips, DesKey, DesCbc | the DES of `des_impl.c`, its agreement with FIPS 46-3, its key schedule, its modes |
| DesTables, DesTablesHold, DesStandard | its combined tables and what they hold, and the whole, on bits of bytes |
| Md5Block, Md5, Md5Vector | RFC 1321, the block loop, the stream, and the digest of "abc" |
| ArgpTree, ArgpParse, ArgpHelp, ArgpAgree, ArgpUsage, ArgpPatterns | option tables |
| SqrtCore, Sqrt, DoubleBits | square root, doubles |

## How the C code is read

* `mp_limb_t` has 32 bits (`stdlib/gmp-mparam.h`); `B` is 2^32 and all wrap-around is written out.
  `udiv_qrnnd` demands a high word below the divisor and, as the portable macro, a divisor with its top bit
  set, so each of its uses is an obligation. The macros of `stdlib/longlong.h` are the portable ones; where a
  machine divides by an instruction, its result is that of `/` and `%`.
* The Karatsuba threshold is a parameter of at least 2. What `TMP_ALLOC` returns is a run of limbs given by
  the caller. The timing macros that select a path of `mpn_divmod_1` and `mpn_mod_1` are parameters too.
* `mpn_divrem` documents its overlap rule as QP + DSIZE >= NP, which allows the quotient to share limbs with
  the remainder. Then no memory can hold both, for some numerator to every divisor (`MpnRoundTrip.NoRoom`). The
  proof covers all other places: a quotient area below the numerator or at least dsize limbs above its start,
  which is what the comment's explanation describes, or an empty one. With three limbs or more, no limb beyond the
  divisor's length and fraction limbs asked for, line 200 writes one limb above the numerator, and the
  buffer must have it.
* `mpn_mul` with an empty second operand returns 0 and stores nothing, and the contract says so.
* In UFC-crypt and MD5 the S-boxes and the sines are parameters, and the results hold for any. `DesStandard` has
  the standard S-boxes and the tables of `des_impl.c`, `Md5Vector` the sines of `md5.c`. The lemmas of DesFips and
  DesKey are for tables with a stated meaning (`DesFips.SpHolds`, `DesKey.SkbHolds`), which DesTablesHold proves of
  the real ones. The DES permutation tables are those of `crypt/crypt_util.c`. A key of crypt(3) is given as the
  characters in front of its terminating null.
* UFC's words are bit strings of length 32, most significant bit first; `sb0` and `sb1` (and `sb2`, `sb3`)
  lie one behind the other, as the round loop relies on. `do_pc2` is kept as its first and last four tables.
* `isprint` is that of the C locale. An option list is the sequence in front of its end marker. A pointer
  into a string of option letters is an offset.
* Doubles in `sqrt` are real numbers with the obligation that each result has at most 53 significant bits;
  only the sign of the last comparison's operand is taken from a rounded number, and the rounding of
  `1.0+3*r/4` and `1.0+r/4` follows the rounding mode.

## Where the code does less than one might expect

* **Zeroed UFC data and the salt of two null characters** (`crypt/crypt_util.c:602-603`). That salt counts as
  already set, so nothing is swapped, though as a salt it swaps bits (`UfcData.NullsSwap`,
  `UfcState.NullSaltPassedOver`). `SetupSalt` states that this is the one exception: afterwards the mask is
  the salt's if and only if it is not the case that both characters are null and no other salt was set
  before. `Crypt` says what the block is in either case.
* **`__init_des_r` called directly** rebuilds unsalted tables but leaves the recorded swap bits. `InitDes` states
  that the two still agree if and only if the swap bits change no table entry; with S-boxes that take every
  value, as the standard ones do, if and only if there are none (`UfcSalt.SameExactly`). A salt and a call
  after which they disagree: `UfcRun.InitLosesSalt`. Every other entry point keeps the invariant.
* **Decrypting an empty buffer** overwrites the vector with zeros (`crypt/des_impl.c:583-635`): after another
  piece it loses the vector that the next piece needs (`DesCbc.EmptyCallLosesVector`), before the first piece
  the initial one (`DesCbc.EmptyCallFirst`). `DesCbc.Pieces` says exactly when two calls equal one, in output
  and in the vector they leave; without empty pieces any number of calls do (`DesCbc.AnyPieces`).
* **A short alias of a documentation entry** is shown by help and unknown to the parser
  (`ArgpAgree.Disagree`); `ArgpAgree.AgreeExactly` gives the exact condition.
* **A short option with the key ':'** reads to getopt as a colon of the letter before it (`argp/argp-parse.c:333-342`):
  an option without argument then takes one (`ArgpParse.ColonMisread`). A letter is read with its own argument if
  and only if the next letter declared is not a colon (`ArgpParse.ReadsColons`).
* **A first short option with the key '+' or '-'** sets getopt's ordering when no flag does (`ArgpParse.PlusMisread`);
  `ArgpParse.ReadsOrdering` has the exact condition.
* **More than 128 lines in one args_doc** make the loop of usage lines endless, because a level is a
  signed char: `ArgpUsage.EndsExactly`.
* **Packing an unpacked double** returns it exactly if its exponent field is not zero; zero and the denormal
  numbers come back changed: `DoubleBits.ConstructExtracted`.

## Model

| member | source | states |
|---|---|---|
| `MpnLow.AddN` | gmp/mpn-add_n.c:35-62 | sum and carry as one equation between numbers; nothing else changes; operands may overlap the result from below |
| `MpnLow.SubN` | gmp/mpn-sub_n.c:35-62 | difference and borrow as one equation between numbers, in place |
| `MpnLow.Mul1` | gmp/mpn-mul_1.c:29-55 | limb multiple: result plus carry times B^n is the product |
| `MpnLow.AddMul1` | gmp/mpn-addmul_1.c:30-61 | adds a limb multiple in place; the carry is the exact overflow |
| `MpnLow.SubMul1` | gmp/mpn-submul_1.c:31-61 | subtracts a limb multiple in place; the borrow is the exact shortfall |
| `MpnLow.Add1` | stdlib/gmp.h:430-468 | adds a limb, with the early exit that copies the untouched limbs |
| `MpnLow.Cmp` | gmp/mpn-cmp.c:39-56 | orders two runs exactly as their numbers, all three outcomes |
| `MpnLow.CopyIncr` | stdlib/gmp-impl.h:118-123 | copies limb by limb upwards, correct for a destination below an overlapping source |
| `MpnLow.CopyDecr` | stdlib/gmp-impl.h:124-129 | copies downwards, correct for a destination above an overlapping source |
| `LongLong.UmulPpmm` | stdlib/longlong.h:1297-1322 | four products of halves, put together with the carry that can occur and without the one that cannot, are the product |
| `LongLong.UdivQrnnd` | stdlib/longlong.h:1336-1386 | quotient and remainder of two limbs by one, for a high limb below the divisor and, in the portable macro, a divisor with its top bit set |
| `LongLong.HalfStep` | stdlib/longlong.h:1342-1353 | half a quotient limb: the estimate by the high half of the divisor is corrected at most twice, and the carry test is right |
| `LongLong.SubDdmmss` | stdlib/longlong.h:1287-1295 | two-limb difference modulo B^2 |
| `Limbs.VUnique` | gmp/mpn-cmp.c:39-56 | limb runs of one length and the same number are equal limb by limb |
| `Karatsuba.Identity` | gmp/mpn-mul_n.c:140-153 | the product from three half-size products, for operands split at any X |
| `Karatsuba.CarryRange` | gmp/mpn-mul_n.c:192-218 | whatever the sign of M and the borrow, the carry before the last two additions is 0, 1 or 2 |
| `MpnMul.MulBasecase` | gmp/mpn-mul_n.c:54-101 | schoolbook rows store U*V, whatever lay in the product before |
| `MpnMul.MulN` | gmp/mpn-mul_n.c:105-220 | Karatsuba stores U*V in 2*size limbs for odd and even sizes and writes only product and work space |
| `MpnMul.MulEven` | gmp/mpn-mul_n.c:138-219 | the even case: three recursive products folded in place with a carry that may be -1 on the way |
| `MpnMul.MulHM` | gmp/mpn-mul_n.c:163-200 | H and the signed M folded into the middle, the wrapping carry accounted for exactly |
| `MpnMul.TopCarry` | gmp/mpn-mul_n.c:212-213 | the first mpn_add_1 absorbs the carry without overflow |
| `MpnMul.LastCarry` | gmp/mpn-mul_n.c:215-218 | the second mpn_add_1 absorbs its carry without overflow |
| `MpnMul.MulNRecurse` | stdlib/gmp-impl.h:171-177 | the recursion macro: product by either method, for any threshold of at least 2 |
| `MpnMul.SqrN` | gmp/mpn-mul_n.c:274-358 | the squaring recursion stores U*U, with its always-subtracted middle square |
| `MpnMul.SqrEven` | gmp/mpn-mul_n.c:301-357 | the even case of squaring |
| `MpnMul.MulSameSize` | gmp/mpn-mul_n.c:363-401 | mpn_mul_n stores U*V for equal sizes, on the squaring path and on the other |
| `MpnMul.Mul` | gmp/mpn-mul.c:47-152 | for any usize >= vsize the product is stored and its top limb returned; schoolbook, blocks and the recursion on the rest give the same |
| `MpnMul.MulBlocks` | gmp/mpn-mul.c:111-137 | after every block the product holds the blocks done times V |
| `MpnMul.MulRest` | gmp/mpn-mul.c:139-150 | the rest of U is multiplied by a recursive call with swapped operands and added |
| `MpnDivOne.UdivQrnndPreinv` | stdlib/gmp-impl.h:217-241 | division by a pre-inverted limb: exact quotient and remainder after at most three corrections |
| `MpnDivOne.InvertLimb` | gmp/mpn-divmod_1.c:87-93 | the inverse of a normalized divisor, with the special case of a divisor B/2 |
| `MpnDivOne.CountLeadingZeros` | stdlib/longlong.h:1389-1395 | the shift that sets the top bit |
| `MpnDivOne.DivMod1` | gmp/mpn-divmod_1.c:45-209 | N = Q*d + r with r < d on the plain, the shifted and both pre-inverted paths, also when Q overwrites N |
| `MpnDivOne.Mod1` | gmp/mpn-mod_1.c:42-198 | the same remainder on every path |
| `DivTheory.TopQuotientBound` | gmp/mpn-divrem.c:205-224 | the quotient of the top three limbs by the top two is the true limb or one more (Knuth 4.3.1, Theorem B) |
| `DivTheory.AllOnesBound` | gmp/mpn-divrem.c:205-206 | with equal top limbs, B-1 is the true limb or one more |
| `DivTheory.AddBackTest` | gmp/mpn-divrem.c:224-236 | the limb test n2 != cy holds exactly when the estimate was one too large, and one add-back then repairs it |
| `MpnDivRem.Correct` | gmp/mpn-divrem.c:147-158 | the correction loop ends after at most two turns with the exact quotient of three limbs by two |
| `MpnDivRem.StepTwo` | gmp/mpn-divrem.c:119-160 | one limb of a two-limb division: exact quotient limb and remainder, in the overflow case n1 == d1 as well |
| `MpnDivRem.EstimateIsClose` | gmp/mpn-divrem.c:204-222 | the estimate for a long divisor is the true limb or one more, never less |
| `MpnDivRem.StepLarge` | gmp/mpn-divrem.c:203-238 | one limb of a long division, in place: exact limb, remainder below D, other limbs kept |
| `MpnDivRem.DivremOne` | gmp/mpn-divrem.c:67-92 | one-limb divisors, fraction limbs included |
| `MpnDivRem.DivremTwo` | gmp/mpn-divrem.c:94-164 | two-limb divisors, fraction limbs included |
| `MpnDivRem.DivremLarge` | gmp/mpn-divrem.c:166-241 | longer divisors, fraction limbs included |
| `MpnDivRem.Divrem` | gmp/mpn-divrem.c:45-245 | N * B^qextra = (top * B^k + Q) * D + R with R < D and top 0 or 1, for all sizes, in the allowed overlaps; nothing else is written |
| `MpnRoundTrip.DivisionUnique` | gmp/mpn-divrem.c:27-33 | the stored quotient and remainder are the only ones |
| `MpnRoundTrip.NoRoom` | gmp/mpn-divrem.c:37-40 | where quotient and remainder share a limb, every divisor has a numerator whose quotient and remainder no memory can hold |
| `MpnRoundTrip.MulThenDivrem` | gmp/mpn-mul.c:45-58 | dividing a product by one factor gives back the other and remainder zero, for all sizes |
| `DesSpec.Cipher.DecipherEncipher` | crypt/crypt_util.c:791-815 | enciphering with the key schedule reversed takes enciphering back, for any S-boxes, salt and keys |
| `DesSpec.Cipher.TimesIterated` | crypt/crypt-entry.c:92-103 | n uses of the cipher are one IP, n times the rounds, and one FP |
| `DesSpec.ScheduleMeans` | crypt/crypt_util.c:661-690 | registers of PC1, rotated by one in rounds 1, 2, 9 and 16 and by two in the others, and round keys by PC2 |
| `DesSpec.Cipher.EncipherMeans` | crypt/crypt_util.c:791-862 | IP, one round for every key, the halves exchanged, FP |
| `DesSpec.SaltedEMeans` | crypt/crypt_util.c:605-618 | a set bit k of the salt exchanges the bits k and k + 24 of the expansion, and the expansion is E of FIPS 46-3 |
| `StandardBoxes.StandardOnto` | crypt/crypt_util.c:124-172 | each of the standard S-boxes is well formed and takes every value |
| `UfcSalt.SameExactly` | crypt/crypt_util.c:561-571 | with such S-boxes shuffling leaves all table entries as they are if and only if there are no swap bits |
| `DesSpec.PermsInverse` | crypt/crypt_util.c:178-194 | the final and the initial permutation are inverse to each other |
| `DesSpec.SelectXor` | crypt/crypt_util.c:485-496 | E and P are linear, on which the sb tables rest |
| `UfcTables.ShuffleTwice` | crypt/crypt_util.c:561-571 | shuffling for one salt and then for another is shuffling by the difference of the salts |
| `UfcTables.ShufflePack` | crypt/crypt_util.c:561-571 | shuffling packed, expanded data is salting the expansion |
| `UfcTables.EntriesSum` | crypt/crypt_util.c:485-544 | the four table entries of a round add up to the salted expansion of f's output |
| `Ufc.KeyWordOffsets` | crypt/crypt.c:53-58 | the two halves of a key word xor data are byte offsets of the right entries of the first and the second table |
| `Ufc.UfcRound` | crypt/crypt.c:53-58 | one round on expanded halves is one textbook round |
| `Ufc.Doit` | crypt/crypt.c:38-70 | for every schedule, salt and iteration count the state is the salted expansion of the textbook state |
| `SelectTable.Build` | crypt/crypt_util.c:384-432 | the lookup tables hold, for every group value, the bits that group contributes |
| `SelectTable.AllGathered` | crypt/crypt_util.c:654-658 | or-ing one entry per group performs the whole bit selection |
| `UfcInit.FillSb` | crypt/crypt_util.c:503-544 | every one of the 4096 entries is E(P(S-box outputs)), packed |
| `UfcInit.EInverse` | crypt/crypt_util.c:438-441 | every bit of a half is found again in its expansion |
| `UfcInit.EfpSelects` | crypt/crypt_util.c:443-477 | a full lookup in efp is the final permutation after undoing E |
| `UfcKeys.RotateHolds` | crypt/crypt_util.c:663-663 | rotating a 28-bit register by two shifts of a 32-bit word is right although old bits stay above it |
| `UfcKeys.HalfKey` | crypt/crypt_util.c:664-674 | four lookups give half a round key by PC2, marked for the second table |
| `UfcKeys.MkKeytab` | crypt/crypt_util.c:640-692 | the 32 words are the key schedule KS of FIPS 46-3 for the key's 56 bits |
| `UfcData.SmallTables.Build` | crypt/crypt_util.c:372-483 | all shared tables are built, once |
| `UfcData.AlphabetValue` | crypt/crypt_util.c:196 | the character at place n of ./0-9A-Za-z has the value n |
| `UfcData.SaltBitIs` | crypt/crypt_util.c:611-618 | swap bit 6i + j of a salt over that alphabet is bit j of the place of its character i |
| `UfcData.SaltsDiffer` | crypt/crypt_util.c:611-618 | different salts over that alphabet have different swap bits |
| `UfcData.SaltMask` | crypt/crypt_util.c:611-618 | the word with the swap bits of any two characters, those below '.' included |
| `UfcData.NullsSwap` | crypt/crypt_util.c:196-196 | two null characters are a salt that swaps bits |
| `UfcData.Reshuffled` | crypt/crypt_util.c:561-571 | tables for one mask, shuffled by a difference, are tables for the sum |
| `UfcData.ShufflePair` | crypt/crypt_util.c:632-635 | both tables of a pair follow the new mask |
| `UfcData.DoFinalPerm` | crypt/crypt_util.c:698-733 | the two result words are FP of the textbook halves, the salt and the expansion undone |
| `UfcState.CryptData.InitDes` | crypt/crypt_util.c:351-547 | afterwards the sb tables are those of no salt; the invariant is kept if and only if the recorded swap bits change no entry, and with S-boxes that take every value if and only if there are none |
| `UfcState.CryptData.SetupSalt` | crypt/crypt_util.c:594-638 | tables, mask and recorded salt agree after any number of salts; the mask is that of the salt if and only if it is not the salt of two nulls on data that has seen no other |
| `UfcState.CryptData.MkKeytab` | crypt/crypt_util.c:640-692 | the schedule is forwards and the direction is 0 |
| `UfcState.CryptData.SetKey` | crypt/crypt_util.c:877-892 | the data then hold the schedule of the 64 given bits and no salt |
| `UfcState.CryptData.Turn` | crypt/crypt_util.c:791-815 | the schedule is forwards exactly if the direction is 0, else reversed |
| `UfcState.KeyBits` | crypt/crypt_util.c:654-658 | the key bits of a character are its low seven, the highest first |
| `UfcState.CryptData.Encrypt` | crypt/crypt_util.c:772-862 | the 64 bits become their FIPS 46-3 cipher text for edflag 0 and plain text otherwise; the invariant holds again |
| `UfcState.CryptData.Crypt` | crypt/crypt-entry.c:66-103 | the two words are the 64 zero bits enciphered 25 times by the cipher with the salt's swap bits, under the low seven bits of the first eight characters, filled up with nulls |
| `UfcState.NullSaltPassedOver` | crypt/crypt_util.c:602-603 | zeroed data after the salt of two nulls: recorded, but not in force |
| `UfcState.InitAfterSalt` | crypt/crypt_util.c:351-547 | initialising again after a salt: the invariant holds if and only if the salt swaps nothing |
| `UfcState.SameKey` | crypt/crypt-entry.c:87-88 | characters behind the eighth and top bits of the key make no difference |
| `UfcRun.InitLosesSalt` | crypt/crypt_util.c:351-547 | after the salt "/." it does not |
| `UfcRun.AnyRun` | crypt/crypt-entry.c:66-103 | every sequence of salts, keys, bit blocks in either direction and crypt calls on one object gives the blocks of the standard |
| `UfcRun.CryptForgets` | crypt/crypt-entry.c:82-103 | in every such sequence crypt's block depends on its own key and salt only, except for the salt of two nulls |
| `UfcRun.RestoredLater` | crypt/crypt_util.c:791-815 | a block enciphered and later deciphered, or the other way round, is back, whatever blocks and salts come in between |
| `Des.ExchangeTwice` | crypt/des_impl.c:354-356 | each exchange of IP and FP undoes itself |
| `Des.FpIp` | crypt/des_impl.c:483-488 | FP undoes IP and IP undoes FP, as words |
| `Des.FallingUndoes` | crypt/des_impl.c:516-532 | rounds with falling keys take back rounds with rising keys, any number of them |
| `Des.DecryptEncrypt` | crypt/des_impl.c:471-561 | decrypting undoes encrypting and encrypting undoes decrypting, for any tables and schedule |
| `Des.DesEncrypt` | crypt/des_impl.c:471-561 | the buffer holds what the word-level cipher specifies, in either direction |
| `DesFips.IpIs` | crypt/des_impl.c:483-505 | the five exchanges move all 64 bits as IP does, the halves changing places |
| `DesFips.SboxInput` | crypt/des_impl.c:382-394 | each S-box gets the six bits of expanded data and key that FIPS 46-3 gives it |
| `DesFips.FIs` | crypt/des_impl.c:382-394 | D_ENCRYPT computes the cipher function f, on halves kept rotated by one bit |
| `DesFips.RisingIs` | crypt/des_impl.c:516-524 | the unrolled rounds with rising keys are the rounds of the standard |
| `DesFips.FallingIs` | crypt/des_impl.c:525-532 | with falling keys they are the rounds under the reversed schedule |
| `DesFips.CryptIs` | crypt/des_impl.c:471-561 | the whole of des_encrypt is enciphering or deciphering of FIPS 46-3, bit for bit, for a schedule that holds the round keys |
| `DesKey.RegistersAre` | crypt/des_impl.c:424-432 | the exchanges and masks put the key bits into the two registers as PC1 does |
| `DesKey.TurnedIs` | crypt/des_impl.c:436-447 | the shifts rotate a 28-bit register to the left by one or two |
| `DesKey.GatheredBit` | crypt/des_impl.c:450-457 | four table lookups bring together every bit that PC2 takes from a register |
| `DesKey.WordsHold` | crypt/des_impl.c:459-464 | the two words stored hold the 48 bits that PC2 selects, where D_ENCRYPT looks for them |
| `DesKey.SetKey` | crypt/des_impl.c:407-466 | the schedule holds the sixteen round keys of FIPS 46-3, for every key |
| `DesCbc.Mode.RoundTrip` | crypt/des_impl.c:584-636 | decrypting after encrypting from the same vector restores the blocks, with and without chaining |
| `DesCbc.Mode.RoundTripBack` | crypt/des_impl.c:584-636 | encrypting after decrypting restores the blocks |
| `DesCbc.Mode.EncryptedChained` | crypt/des_impl.c:584-607 | encryption of two pieces, the second from the last cipher block of the first |
| `DesCbc.Mode.DecryptedChained` | crypt/des_impl.c:608-636 | decryption of two pieces |
| `DesCbc.EncryptBuffer` | crypt/des_impl.c:584-607 | the buffer becomes the chained cipher text, the vector its last block; bytes behind len are kept |
| `DesCbc.DecryptBuffer` | crypt/des_impl.c:608-636 | the buffer becomes the plain text, the vector the last cipher block, or zero if there was none |
| `DesCbc.DesCrypt` | crypt/des_impl.c:565-642 | both directions and both modes |
| `DesCbc.BufferRoundTrip` | crypt/des_impl.c:565-642 | encrypting and decrypting restores every byte of a buffer |
| `DesCbc.PiecesOutput` | crypt/des_impl.c:583-636 | the output of two calls is that of one, always when encrypting, and when decrypting if and only if the first piece is not empty, or its vector zero, or no chaining, or nothing follows |
| `DesCbc.PiecesVector` | crypt/des_impl.c:583-636 | and so is the vector they leave, when decrypting if and only if the second piece is not empty, or there is no first one, or the last cipher block is zero |
| `DesCbc.Pieces` | crypt/des_impl.c:583-636 | two calls equal one call, in output and vector, always when encrypting, and when decrypting if and only if both conditions hold |
| `DesCbc.EmptyCallLosesVector` | crypt/des_impl.c:608-636 | decrypting nothing after a piece: the vector is lost, and what follows is decrypted wrongly |
| `DesCbc.EmptyCallFirst` | crypt/des_impl.c:608-636 | decrypting nothing before the first piece does the same |
| `DesCbc.AnyPieces` | crypt/des_impl.c:583-636 | any number of calls on pieces, none empty when decrypting, is one call on the whole |
| `DesCbc.BufferPieces` | crypt/des_impl.c:583-636 | the condition for the output, on bytes |
| `DesStandard.BlockBit` | crypt/des_impl.c:305-313 | bit n of a block, as FIPS 46-3 counts, is bit 7 - n % 8 of byte n / 8 |
| `DesTablesHold.SpTablesHold` | crypt/des_impl.c:19-163 | each of the 512 entries of des_SPtrans is P of the standard S-box's output for its index, rotated by one bit |
| `DesTablesHold.SkbTablesHold` | crypt/des_impl.c:165-302 | the entries of des_skb bring every bit that PC2 takes to its place and no other |
| `DesStandard.EncryptedIs` | crypt/des_impl.c:584-607 | block by block: the cipher of FIPS 46-3 on the plain block, masked in CBC mode by the cipher block before it or the vector |
| `DesStandard.DecryptedIs` | crypt/des_impl.c:608-636 | block by block: the deciphered block, masked in CBC mode by the cipher block before it or the vector |
| `DesStandard.DesCryptKey` | crypt/des_impl.c:565-642 | the whole of _des_crypt with the real tables: for every key, vector and buffer the bits of the buffer's bytes become those of FIPS 46-3 in ECB or CBC mode, in both directions; the vector afterwards; bytes behind len are kept |
| `Md5Block.AuxIs` | crypt/md5.c:240-246 | the program's forms of F, G, H and I are those of RFC 1321 |
| `Md5Block.OneBlock` | crypt/md5.c:273-398 | the 64 unrolled operations are the rotating steps of RFC 1321, on machines of either byte order |
| `ByteOrder.LeWordNumber` | crypt/des_impl.c:305-308 | the word of four bytes is a + 2^8 b + 2^16 c + 2^24 d |
| `ByteOrder.LeBytesNumber` | crypt/des_impl.c:310-313 | the bytes of a word are its digits to the base 256, the lowest first |
| `ByteOrder.SwapFixesOrder` | crypt/md5.c:48-54 | swapping after loads and before stores makes words little-endian everywhere |
| `Md5.FoldAppend` | crypt/md5.c:273-398 | folding block by block can be cut at any block |
| `Md5.AddToCount` | crypt/md5.c:267-269 | the two words count bytes modulo 2^64 |
| `Md5.CountBits` | crypt/md5.c:113-115 | the shifted words are the length in bits modulo 2^64 |
| `Md5.PadSize` | crypt/md5.c:109-110 | the two cases of padding are the padding of RFC 1321, section 3.1 |
| `Md5.Md5Ctx.constructor` | crypt/md5.c:62-74 | the registers, low-order byte first, are 01 23 45 67, 89 ab cd ef, fe dc ba 98, 76 54 32 10, as in RFC 1321, section 3.3 |
| `Md5.LengthNumber` | crypt/md5.c:112-115 | the eight bytes at the end are the length in bits modulo 2^64, lowest byte first |
| `Md5.OutputNumber` | crypt/md5.c:81-91 | the four registers one behind the other, each with its lowest byte first |
| `Md5.Md5Ctx.ProcessBlock` | crypt/md5.c:252-405 | the registers are folded over the given blocks, the counter grows by their length |
| `Md5.Md5Ctx.TopUp` | crypt/md5.c:202-221 | filling the buffer and draining its whole blocks loses and repeats nothing |
| `Md5.Md5Ctx.ProcessBytes` | crypt/md5.c:197-237 | the stream's message grows by the data; the buffer keeps at most 64 bytes, the counter the rest |
| `Md5.Md5Ctx.Finish` | crypt/md5.c:97-121 | the result is the RFC 1321 digest of everything fed |
| `Md5.Md5Buffer` | crypt/md5.c:181-194 | the digest of one buffer |
| `Md5.AnyRun` | crypt/md5.c:197-237 | every cutting of every message gives the digest of the whole |
| `Md5Vector.AbcDigest` | crypt/md5.c:309-391 | with the sines of the program the digest of "abc" is 900150983cd24fb0d6963f7d28e17f72, as RFC 1321 lists it |
| `ArgpParse.Parser.ConvertTable` | argp/argp-parse.c:322-345 | the getopt letters and colons of one table, aliases taking their option's argument |
| `ArgpParse.Parser.Convert` | argp/argp-parse.c:310-408 | letters and groups of a whole tree in preorder, each group ending where its letters end |
| `ArgpParse.Parser.ParserConvert` | argp/argp-parse.c:412-433 | the same behind the ordering prefix; getopt then reads from the string the ordering the flags ask for and, without a key ':', for every letter the argument its option asks for |
| `ArgpParse.ReadsColons` | argp/argp-parse.c:322-345 | read as getopt does: behind a letter's first place stand no colons, one or two, as the first option declaring it asks, if and only if the next letter declared is not a colon |
| `ArgpParse.ReadsOrdering` | argp/argp-parse.c:422-426 | getopt takes the ordering of the flags, and without flags permutes if and only if the first letter is neither '-' nor '+' |
| `ArgpParse.ColonMisread` | argp/argp-parse.c:333-342 | an option without argument before one with the key ':' reads as one with an argument |
| `ArgpParse.PlusMisread` | argp/argp-parse.c:422-426 | a first option with the key '+' reads as the demand to stop at other arguments |
| `ArgpParse.UsableMeans` | argp/argp-parse.c:327-333 | an option gets a letter if its key is a printable character and neither it nor the option it stands for is documentation only |
| `ArgpTree.IsShortMeans` | include/argp.h:570-580 | a short option is one that is not documentation only and has a printable key |
| `ArgpTree.PreorderIs` | argp/argp-help.c:868-899 | a tree's table comes before its children, children in their order |
| `ArgpParse.Parser.Dispatch` | argp/argp-parse.c:735-751 | the number of the first group that ends behind the letter's first place |
| `ArgpParse.FirstDeclarerParses` | argp/argp-parse.c:323-344 | that group is the one of the first table in preorder that declares the letter, by its place in the tree, and there is one if and only if some table declares it |
| `ArgpParse.GroupTablesExact` | argp/argp-parse.c:320-397 | each table with options or a parser has one group, in the order of the tables |
| `ArgpHelp.MakeHol` | argp/argp-help.c:462-487 | one table's entries, every letter once, each entry pointing to its own letters |
| `ArgpHelp.SplitOptions` | argp/argp-help.c:462-487 | the entries hold the table's options, in order |
| `ArgpHelp.SplitParts` | argp/argp-help.c:462-487 | each entry is one option that is not an alias, and the aliases behind it |
| `ArgpHelp.Hol.Append` | argp/argp-help.c:819-900 | appending keeps that form: entries in order, shadowed letters dropped, pointers right |
| `ArgpHelp.MergeEntry` | argp/argp-help.c:880-896 | the walk along the appended letters meets exactly the unshadowed ones |
| `ArgpHelp.ArgpHol` | argp/argp-help.c:868-899 | the list of a tree has every table's entries in preorder |
| `ArgpHelp.ShortIterate` | argp/argp-help.c:539-562 | an entry shows exactly its visible options that are the first with their letter |
| `ArgpHelp.NextLetter` | argp/argp-help.c:885-895 | at the end of the letters seen, the next letter of the string is an option's own exactly if it was not seen |
| `ArgpAgree.OwnerExists` | argp/argp-help.c:539-562 | every letter is shown somewhere (or hidden there) |
| `ArgpAgree.OwnerUnique` | argp/argp-help.c:539-562 | and under one entry only |
| `ArgpAgree.OwnerTable` | argp/argp-help.c:868-899 | that entry is from the first table in preorder with the letter, by its place in the tree |
| `ArgpAgree.EntryFrom` | argp/argp-help.c:868-899 | entries come in the order of the tables, each from the table counted for it |
| `ArgpAgree.ShownOwns` | argp/argp-help.c:539-562 | an option is shown if and only if it owns its letter and is not hidden |
| `ArgpAgree.AgreeExactly` | argp/argp-parse.c:323-344 | help and parser find the table at the same place if and only if the first table with the letter offers it to the parser |
| `ArgpAgree.AgreeAlways` | argp/argp-help.c:462-487 | without short aliases of documentation entries they agree on every letter |
| `ArgpAgree.Disagree` | argp/argp-parse.c:330-333 | with one, they can disagree: a tree |
| `ArgpAgree.HelpAndParser` | argp/argp-parse.c:735-751 | the two programs compared, for every tree and every code getopt can return: the entry that shows the letter and the group that parses it are from the table at the same place, under that condition |
| `ArgpUsage.ArgsLevels` | argp/argp-help.c:1382-1396 | counts the tables with alternatives |
| `ArgpUsage.ArgsUsage` | argp/argp-help.c:1403-1456 | prints the pattern of the present levels, advances them in place and says whether more follow |
| `ArgpUsage.StepRank` | argp/argp-help.c:1438-1455 | a pass is the successor of the mixed-radix number that the levels make |
| `ArgpUsage.EachOnce` | argp/argp-help.c:1595-1644 | every combination of levels occurs in exactly one pass |
| `ArgpUsage.PassRank` | argp/argp-help.c:1595-1644 | pass n has the levels of combination n, and only the last pass says that nothing follows |
| `ArgpUsage.EndsExactly` | argp/argp-help.c:1595-1644 | the loop ends if and only if no args_doc has more than 128 lines |
| `ArgpPatterns.AllPatterns` | argp/argp-help.c:1595-1644 | with T the tables that have lines, in preorder: every line printed takes one line of each table of T, in that order; every such combination is printed; there are as many as the product of the tables' sizes, so none twice unless a table repeats a line; pass n prints combination n |
| `ArgpPatterns.PassShows` | argp/argp-help.c:1415-1432 | the line printed for a table is the one its level selects, and the only one if it has no level |
| `ArgpPatterns.PatternShows` | argp/argp-help.c:1403-1456 | any fitting levels print one line of every table, each the selected one |
| `ArgpPatterns.TablesInOrder` | argp/argp-help.c:1403-1439 | a table comes before its children, children in their order, tables without lines not at all |
| `ArgpPatterns.ShowsOnce` | argp/argp-help.c:1415-1432 | where no table repeats a line, different levels print different combinations |
| `ArgpPatterns.OwnLineLast` | argp/argp-help.c:1441-1455 | line n of a table with m combinations below it shows its own line n / m and below it combination n % m |
| `ArgpPatterns.FirstChildFirst` | argp/argp-help.c:1437-1439 | with k combinations in the first child, that child shows its combination n % k and the other children theirs of number n / k |
| `SqrtCore.DigitsUnique` | gmp/support.c:308-315 | the digits found are the only ones whose square leaves such a residual |
| `SqrtCore.DigitsStep` | gmp/support.c:309-315 | one digit more keeps the residual exact and the root maximal |
| `SqrtCore.LastRounding` | gmp/support.c:318-331 | cut off, raised or raised by the next digit, the root is correctly rounded in the four modes |
| `Sqrt.ResidualRepresentable` | gmp/support.c:308-315 | the residual of every turn has at most 53 significant bits |
| `Sqrt.OneDigit` | gmp/support.c:310-314 | a turn of the loop, every operation exact |
| `Sqrt.FinalDigits` | gmp/support.c:318-331 | from 51 digits to the correctly rounded root, every operation but the deciding comparison exact |
| `Sqrt.Scale` | gmp/support.c:299-305 | any positive double becomes X * 4^n with X in [1, 4), subnormal ones included |
| `Sqrt.RootReal` | gmp/support.c:333-333 | in real numbers: (w - u/2)^2 <= x <= (w + u/2)^2 when rounding to nearest, and the brackets of the other modes |
| `Sqrt.RootMeans` | gmp/support.c:318-331 | the real root is within half a unit of the result, or within one on the side the mode asks for |
| `Sqrt.Sqrt` | gmp/support.c:271-334 | the special cases, and the correctly rounded root of every positive double |
| `DoubleBits.ExtractDouble` | gmp/dbl2mpn.c:30-109 | limbs times 2^(expt - 52) are exactly the magnitude of any finite double, the leading one at bit 52 unless it is zero |
| `DoubleBits.MagnitudeMeans` | gmp/dbl2mpn.c:30-60 | magnitudes in the words of IEEE 754: one plus the fraction for the field 1023, doubled for each exponent more, no hidden one for the field 0 |
| `DoubleBits.DenormalHigh` | gmp/dbl2mpn.c:72-85 | a denormal number shifted across both limbs without loss |
| `DoubleBits.DenormalLow` | gmp/dbl2mpn.c:86-102 | a denormal number with an empty high limb |
| `DoubleBits.ConstructExtracted` | gmp/mpn2dbl.c:30-56 | packing after unpacking is the identity if and only if the exponent field is not zero |
| `DoubleBits.ExtractConstructed` | gmp/mpn2dbl.c:30-56 | unpacking after packing gives limbs and exponent back in the normal range, and the packed value is theirs |

## Left out

- Long options and the codes getopt receives for them, `getopt` itself, `hol_sort` and all formatting of help
  text: the tables for short options carry the agreement; sorting only permutes entries.
- The help filter and translation of `args_doc`: the lines are given.
- Sizes computed by `calc_sizes`, `malloc` and the parser's child inputs: memory bookkeeping.
- The conversion of crypt's result to characters, the MD5 branch of `crypt_r`, `md5_stream`, `md5-crypt.c`.
- The 64-bit variants of UFC-crypt and of the limb code, `ALT_ECB`, VAX branches and disabled code.
- The lock around the shared UFC tables: a single thread is modelled.
- The overflow of UFC's counter of initialisations, and encryption before any key is set, which the manual
  forbids.
- `mpn_lshift`, `mpn_rshift`, `mpn2flt.c`, `ldbl2mpn.c`, `mpn2ldbl.c`: short relatives of what is here.
- `drem`, `scalb` and `logb` beyond their use in `sqrt`, and the inexact flag.
- MpnDivRem.Divrem: a divisor of zero limbs, for which the program divides by zero on purpose, is outside its
  precondition.
- Md5.Md5Ctx.ProcessBytes: a chunk has fewer than 2^32 bytes, the range of `size_t` here.
