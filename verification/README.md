# A verified model of the miner's portable core

This project models, in Dafny, the portable algorithms of the miner: the CryptoNight
hashing loop in its single, hand-unrolled and looped multi-hash forms, the hash functions
below it, the bundled command-line scanner, and three pieces of the bundled JSON library.
`dafny verify dfyconfig.toml` checks everything.

| file | what it models |
|---|---|
| `CryptoNight.dfy`, `Interleaving.dfy`, `Multiply.dfy` | the multi-hash over one shared scratchpad; schedules of its lanes; the 64x64 to 128 bit product |
| `CryptoNightStandard.dfy` | CryptoNight as CNS008 describes it, and that each hash is it |
| `Aes.dfy` | the table-driven AES round and the AES-256 key schedule |
| `Keccak.dfy`, `Sponge.dfy` | Keccak-f[1600] in place and the sponge on it |
| `KeccakStandard.dfy`, `SpongeStandard.dfy` | both on bit strings as FIPS 202 defines them, and that the code computes them |
| `Blake256.dfy` | BLAKE-256/224: buffered update, padding, counters |
| `Threefish.dfy`, `Skein.dfy` | Threefish-512 in both compiled forms; Skein-512 chaining and update |
| `SkeinStandard.dfy` | both as the Skein paper defines them, and that the code computes them |
| `JH.dfy` | the bitsliced permutation E8 and the compression F8 |
| `JHStandard.dfy` | both on 256 elements of four bits, and that the bitsliced forms compute them |
| `Groestl.dfy` | streaming update and final padding |
| `OptionSyntax.dfy`, `Permute.dfy`, `Getopt.dfy` | the permuting option scanner |
| `CommandLine.dfy` | how command lines are spelt, and that the scanner reads them back |
| `Document.dfy`, `Equality.dfy` | values, events and documents; which values can compare equal |
| `MemoryPool.dfy`, `Utf.dfy` | the pool allocator; the codecs |
| `Words.dfy`, `Bytes.dfy`, `Blocks.dfy`, `WordBits.dfy`, `Collections.dfy` | machine words, byte strings, bit vectors, small generic notions |

Code that works in place is modelled as classes and methods over arrays; each such method is
proved against a specification function, and the properties of that function are lemmas.
Words that the code only shifts and masks are bit-vectors; words it adds, multiplies or
counts with are numbers with the wrap-around written out. Byte order is little-endian, through
explicit conversions.

Inputs the models take as parameters: the AES S-box (any function on bytes); Keccak, the AES
round, the key expansion and the four final hashes in the interleaving theorems (any
functions); the BLAKE compression, the Groestl compression and output transformation (any
functions); the JH round constants and initial values (any words); the Skein initial value; the
base allocator's answers (any oracle); integer-to-double conversion and double comparison (any
functions on bit patterns).

## What the main results say

* **Interleaving.** Whatever the primitives, the number of hashes, the input and the previous
  contents of the scratchpad, slot k of the output is exactly the hash of input k alone, and
  the rest of the output is untouched. Every masked access is aligned and inside its lane.
* **Standards.** What the code computes is also defined a second time, from the documents and without its
  tables and tricks, and proved the same for all inputs: the whole of CryptoNight (CNS008) around any
  AES, Keccak and final hashes; Keccak-f and its sponge on bit strings, with the round constants made by
  the shift register (sections 3 to 5 of FIPS 202); Threefish, UBI and the Skein output (sections 3.3 to 3.5 of The
  Skein Hash Function Family); JH's E8 and F8 as S-box, L and permutation of 256 elements for any round
  constants; the BLAKE and Groestl paddings on bits and the BLAKE initial values.
* **Refinement.** The limb multiplication is exact for all operands. The AES tables are
  MixColumns of ShiftRows of SubBytes for any S-box; the prefix-xor key schedule is the AES-256
  key expansion. In-place Keccak-f is the composition of the five step mappings. The looping
  and unrolled Threefish forms both equal the cipher. The JH S-box circuit looks up S0 or S1 at
  every bit position.
* **Invertibility.** Threefish with its nineteen injections is a bijection for every key and
  tweak; JH's E8 is one for any round constants and F8 for any message block, with explicit
  inverses.
* **Streaming and padding.** Skein and Groestl updates depend on the concatenated bytes only.
  One-shot BLAKE is the fold over the padded blocks with each block's counter equal to the
  message bits so far or suppressed. The Keccak padding is pad10*1 with no domain suffix.
* **Whole runs.** Any list of options, arguments and operands, spelt in any of the ways that getopt_long
  allows, is read back by successive calls, codes and arguments in order. A run of option scanning leaves the vector sorted into options, "--",
  non-options and the unscanned rest exactly when no element stops the scan inside a cluster,
  which is a test on the vector and the option letters. Any sequence of pool requests keeps all
  live blocks disjoint until one wraps around a 64-bit size, and each holds what the client last
  wrote to it, through every move.
  Replaying any value's events leaves the stack as it was plus the value's clone.
* **Equality.** Any values have a common right-hand side of operator== exactly when they agree,
  a recursive test on the values alone; so an object compares equal to something exactly when,
  name by name, the values that share the name agree.

## What turned out not to hold

* `blake256_update` does not stream in general: with bytes buffered, an empty update and some
  long ones lose or misorder them, because the guard masks the byte count to six bits and an
  empty tail resets the buffer. `Blake256.StreamsExactly` gives the exact condition on the two
  lengths. The one-shot hash and the finalisation only make updates that meet it.
* The scanner's final -1 inside an element leaves the permutation undone. It happens exactly when
  there are no long options, the letters do not list '-', and some element that is scanned ends
  in '-' with no letter before it that takes an argument: `OptionSyntax.CleanExactly` and
  `Getopt.Scanner.RunAll` (`OptionSyntax.BareDashStops` is such an input). The miner passes long
  options, so `OptionSyntax.AlwaysClean` applies to it.
* The note at src/3rdparty/rapidjson/document.h:835 says that comparing an object with a
  repeated name is always false. `Equality.EqualToSome` says when it is: an object compares
  unequal to every right-hand side exactly when the values of some one name do not agree.
  Repeating a name does not decide: an object may repeat a value and equal itself
  (`Document.RepeatedNameMayBeEqual`), or hold two integers that round to one double, not equal
  itself, and still equal an object that holds the double (`Equality.RoundedRepeats`). On the
  right of the comparison repeated names matter even less (`Equality.SomeEqualTo`).
* The memory pool adds sizes without a check. A request whose aligned size, or whose sum with what
  the head chunk holds, or whose chunk with its header reaches 2^64 is refused by the base allocator
  or breaks the pool: `MemoryPool.Pool.Malloc` and `MemoryPool.Pool.Realloc` state that condition as
  an if-and-only-if, and `MemoryPool.OverlappingBlocks` is a run of three requests after which two
  live blocks overlap.
* `groestl` casts the number of bytes to an int. It reads the whole input exactly when that is
  shorter than 2^31 bytes (`Groestl.Context.Update`); 2^31 bytes hash as no bytes (`Groestl.Hash`).
* `UTF8::Encode` accepts surrogates, which no decoder takes back (`Utf.ScalarsDecoded`), and
  `Decode` at the end of a stream succeeds with U+0000.
* With a caller's buffer that is not eight-byte aligned, the pool's blocks in it are not aligned
  either (`MemoryPool.BlocksAligned`; `MemoryPool.FirstBlock` makes such a pool and its block).
* `blake224_hash` writes 32 digest bytes, like `blake256_hash`.

## Model

| member | source | states |
|---|---|---|
| CryptoNight.AccessInLane | src/crypto/CryptoNight_x86.h:331-353 | every `idx & MASK` access is 16-byte aligned and its 16 bytes lie inside one hash's scratchpad, for every index |
| CryptoNight.LanesDisjoint | src/crypto/CryptoNight_x86.h:315-317 | lane pointers k times MEM into a memory of n times MEM give lanes that do not overlap |
| CryptoNight.ExplodeScratchpad | src/crypto/CryptoNight_x86.h:203-241 | the whole lane is overwritten with the explosion of the state, whatever it held; the rest of memory is unchanged |
| CryptoNight.ImplodeScratchpad | src/crypto/CryptoNight_x86.h:244-291 | the state comes back with its text part the implosion of the lane under the second key, and the rest as it was |
| CryptoNight.MultiplyBlock | src/crypto/CryptoNight_x86.h:341-355 | for the high and low words of the exact product, the high word is added to al and the low word to ah modulo 2^64; the block becomes the two sums, and each register its sum xored with a word of the block |
| CryptoNight.Iterate | src/crypto/CryptoNight_x86.h:329-359 | one encrypt-and-multiply iteration in place equals the same step on a private scratchpad and leaves all other lanes alone |
| CryptoNight.HashSingle | src/crypto/CryptoNight_x86.h:374-430 | the one-lane form writes the hash of its input at the start of the output and nothing else |
| CryptoNight.HashLoop | src/crypto/CryptoNight_x86.h:298-366 | n lanes stepped one after the other: output slot k is the hash of input k alone, for every n, and bytes past the slots are unchanged |
| CryptoNight.HashUnrolled | src/crypto/CryptoNight_x86.h:433-1001 | the phased 2-, 3-, 4- and 5-way forms (all lanes load, encrypt, store, then multiply in turn) give the same digests as independent hashes |
| CryptoNightStandard.MaskedAddress | src/crypto/CryptoNight_x86.h:331 | the masks take an address modulo the blocks of the scratchpad, in the standard and the light variant; the scratchpad is four bytes for every iteration |
| CryptoNightStandard.IterationIsStandard | src/crypto/CryptoNight_x86.h:329-359 | both half-steps make one iteration of the memory-hard loop of CNS008: AES, xor with b, 8byte_mul, 8byte_add and exchange |
| CryptoNightStandard.HashIsStandard | src/crypto/CryptoNight_x86.h:374-430 | the hash of every input is CryptoNight as CNS008 defines it, from scratchpad initialization to the choice of the final hash |
| Interleaving.AnySchedule | src/crypto/CryptoNight_x86.h:329-359 | for any schedule of half-iterations over disjoint lanes of one memory, every lane ends where its own turns alone would have taken it |
| Interleaving.FullSchedule | src/crypto/CryptoNight_x86.h:464-510 | a schedule that gives a lane all its iterations, however interleaved with others, runs it as the single hash does |
| Multiply.UMul128 | src/crypto/CryptoNight_x86.h:59-63 | the two halves returned make up the exact product |
| Multiply.UMul128Limbs | src/crypto/CryptoNight_x86.h:78-101 | high * 2^64 + low is the product for all 64-bit operands: both carries are recovered from wrapped sums and the high word does not overflow |
| Aes.TableBytes | src/crypto/soft_aes.h:50-63 | the four table macros spell out doubling and tripling modulo the AES polynomial, one rotation apart |
| Aes.TwiceIsXtime | src/crypto/soft_aes.h:50-63 | doubling is linear and takes 0x57 through its multiples as in section 4.2.1 of FIPS 197 |
| Aes.SoftAesencIsRound | src/crypto/soft_aes.h:66-79 | for any S-box, state and key, the table round is MixColumns of ShiftRows of SubBytes, xor the round key (sections 5.1.1 to 5.1.4 of FIPS 197) |
| Aes.SlXor | src/crypto/CryptoNight_x86.h:107-117 | every lane ends xored with all lanes below it |
| Aes.SubWordBytes | src/crypto/soft_aes.h:82-88 | sub_word substitutes each byte in its place |
| Aes.SoftAesGenkeySub | src/crypto/CryptoNight_x86.h:134-145 | from words i-8 to i-1 of the AES-256 key expansion it produces words i to i+7 |
| Aes.AesGenkey | src/crypto/CryptoNight_x86.h:148-173 | the ten round keys are the first forty words of the AES-256 key expansion (section 5.2 of FIPS 197) |
| Keccak.RhoOffsetTable | src/crypto/c_keccak.c:48-73 | the rotation table agrees with the walk that defines rho in section 3.2.2 of FIPS 202 |
| Keccak.ThetaInPlace | src/crypto/c_keccak.c:32-46 | column parities first, then all lanes in place: the result is theta of the old state |
| Keccak.CycleClosed | src/crypto/c_keccak.c:48-73 | after 23 overwrites along the single cycle and the saved lane, every lane holds pi of rho of the old state |
| Keccak.RhoPiInPlace | src/crypto/c_keccak.c:48-73 | the 24-lane cycle with one temporary equals pi of rho; no lane is lost |
| Keccak.ChiInPlace | src/crypto/c_keccak.c:75-128 | rows rewritten with two or five saved lanes equal chi of the old state |
| Keccak.Keccakf | src/crypto/c_keccak.c:25-133 | for any state and any round count up to 24 the array ends as that many compositions of theta, rho, pi, chi and iota |
| KeccakStandard.RoundConstants | src/crypto/c_keccak.c:11-21 | every bit of every round constant is the one that the shift register of section 3.2.5 of FIPS 202 puts there |
| KeccakStandard.RoundsAreStandard | src/crypto/c_keccak.c:25-133 | for any state, the rounds on words are those of section 3.2 of FIPS 202 on the 1600 bits |
| Bytes.WordBit | src/crypto/c_keccak.c:149-166 | bit 8k + j of a word read is bit j of byte k |
| Bytes.WordRoundTrip | src/crypto/c_keccak.c:149-166 | eight bytes read as a word and laid out again are the same bytes |
| Bytes.BytesRoundTrip | src/crypto/c_keccak.c:149-166 | a word laid out as bytes and read again is the same word |
| Sponge.LanesFromBytes | src/crypto/c_keccak.c:166 | the bytes of the state, read as words, are its lanes |
| Sponge.PaddingIsTenStarOne | src/crypto/c_keccak.c:155-159 | as bits, the padding is a one, fewer than a block of zeros, and a one, up to a whole number of blocks, also when both ones share a byte (section 5.1 of FIPS 202, without the SHA-3 suffix) |
| Sponge.PadTail | src/crypto/c_keccak.c:155-159 | the last block in the buffer is the tail followed by that padding |
| Sponge.Run | src/crypto/c_keccak.c:149-164 | the state ends as the fold of xor-then-permute over the blocks of the padded input |
| Sponge.Hash | src/crypto/c_keccak.c:138-167 | for any input and any mdlen with a whole-word rate of at most 144, the first mdlen output bytes are the start of that state and the rest of the output is unchanged |
| SpongeStandard.XorBlockOnBits | src/crypto/c_keccak.c:151-153 | absorbing a block xors its bits into the first bits of the state and keeps the rest |
| SpongeStandard.SpongeIsStandard | src/crypto/c_keccak.c:138-167 | for any input and length, the bytes of the final state are, as bits, the sponge of section 4 of FIPS 202 on the input with pad10*1 |
| Blake256.PaddingIsOneZerosOne | src/crypto/c_blake256.c:152-188 | as bits, the padding is a one, the fewest zeros, a one (for BLAKE-224 none) and the 64-bit length, up to a multiple of 512 (section 2.1.3 of the BLAKE proposal) |
| Blake256.InitialValues | src/crypto/c_blake256.c:90-114 | the initial values are the first 32 fractional bits of the square roots of the first eight primes for BLAKE-256, and the second 32 of the next eight for BLAKE-224 |
| Blake256.DigestWords | src/crypto/c_blake256.c:180-187 | every word of the chaining value is spelt by four digest bytes, most significant first |
| Blake256.State.Update | src/crypto/c_blake256.c:117-145 | the buffered update equals the update function on whole states, guard and buffer reset included |
| Blake256.UpdateStreams | src/crypto/c_blake256.c:117-145 | when the lengths allow it, the state after m and then data is the state of their concatenation: chaining value, two-word counter and buffered bytes |
| Blake256.StreamsExactly | src/crypto/c_blake256.c:117-145 | an update by n bytes after a bytes takes in every input correctly if and only if nothing is buffered, or 0 < n < 64, or n mod 64 completes the buffer |
| Blake256.TickCounts | src/crypto/c_blake256.c:123-124 | adding 512 with a carry on zero keeps the two words equal to the bits compressed so far |
| Blake256.PrimedOne | src/crypto/c_blake256.c:159-161 | 55 bytes buffered: one merged padding byte, and the lowered counter will tick to the message bits |
| Blake256.PrimedShort | src/crypto/c_blake256.c:162-167 | fewer than 55 bytes: padding in the same block; the counter will be the message bits, or suppressed when the block holds none |
| Blake256.PrimedLong | src/crypto/c_blake256.c:168-174 | more than 55 bytes: one block counted by the message bits, then one of padding with a suppressed counter |
| Blake256.State.FinalH | src/crypto/c_blake256.c:152-188 | the digest is that of the fold over the padded message with each block's 64-bit counter equal to the message bits so far or suppressed (section 2.1.3 of the BLAKE proposal) |
| Blake256.Hash | src/crypto/c_blake256.c:199-213 | the same for the one-shot hash of any byte string whose bits a 64-bit length can count |
| Blake256.Hash256 | src/crypto/c_blake256.c:199-204 | that hash with the BLAKE-256 initial value and padding bytes |
| Blake256.Hash224 | src/crypto/c_blake256.c:207-212 | that hash with the BLAKE-224 initial value and padding bytes |
| Threefish.WordsInverse | src/crypto/c_skein.c:325-329 | a MIX of two words (add, rotate, xor) is undone by its inverse for every rotation |
| Threefish.InjectUnrolled | src/crypto/c_skein.c:336-345 | the injection with indices modulo 9 and 3 adds subkey R+1 |
| Threefish.SlideWindow | src/crypto/c_skein.c:360-362 | sliding both overlapping windows by one word keeps all twelve live words, leaves kw[0] and kw[1], where the tweak words are kept, and stays inside kw |
| Threefish.EncryptUnrolled | src/crypto/c_skein.c:331-379 | the unrolled form computes the 72-round cipher with its nineteen injections |
| Threefish.EncryptLooping | src/crypto/c_skein.c:346-380 | the looping form, for every unroll factor that divides nine, computes the same cipher (section 3.3.2 of The Skein Hash Function Family), with kw[0] and kw[1] as they were |
| Threefish.CipherInverse | src/crypto/c_skein.c:312-377 | for every key and tweak, rounds and injections are a bijection on the eight words, undone both ways by the inverse run |
| SkeinStandard.FourAreStandard | src/crypto/c_skein.c:366-377 | four rounds in place, mixing other positions each time, are four rounds that mix neighbours and permute by PI (section 3.3 of The Skein Hash Function Family) |
| SkeinStandard.CipherIsStandard | src/crypto/c_skein.c:312-377 | for every key, 128-bit tweak and block the cipher is Threefish-512, subkeys included |
| SkeinStandard.MessageIsStandard | src/crypto/c_skein.c:255-446 | the chaining value of a message shorter than 2^64 bytes is UBI of it with the message type (section 3.4) |
| SkeinStandard.HashIsStandard | src/crypto/c_skein.c:544-575 | every 64 bytes of the hash are UBI of their number with the output type, keyed with that value, and the last are cut (section 3.5) |
| Skein.Context.ProcessBlock | src/crypto/c_skein.c:255-446 | consecutive blocks change chaining value, byte count and FIRST flag exactly as block-by-block chaining does, with one kw for all of them whose tweak words survive every block in either compiled form |
| Skein.ProcessIsChain | src/crypto/c_skein.c:289-445 | processing whole blocks that follow the first k of a message continues its chain, count and flags |
| Skein.Context.Update | src/crypto/c_skein.c:496-540 | after any updates the context depends on the concatenated bytes only: chaining value, T[0] equal to the bytes compressed, FIRST flag, and 1 to 64 bytes buffered once input is nonempty |
| Skein.Context.Final | src/crypto/c_skein.c:544-575 | the last block is zero-padded, flagged FINAL and counted by message bytes; the output is that chaining value in counter mode, cut to the requested length |
| Skein.Hash | src/crypto/c_skein.c:647-691 | both of these for a whole message fed in one call, in either compiled form |
| JH.SboxIsLookup | src/crypto/c_jh.c:113-135 | at every bit position the S-box circuit maps the nibble by S0 or S1 as the constant bit selects |
| JH.SboxInverse | src/crypto/c_jh.c:113-135 | the S-box layer is a bijection for every round constant, with a bitsliced inverse |
| JH.SS | src/crypto/c_jh.c:113-135 | the interleaved assignments compute both S-box halves |
| JH.L | src/crypto/c_jh.c:101-109 | the in-place assignments compute the MDS code of the eight words |
| JH.DoubleNibbles | src/crypto/c_jh.c:101-109 | the doubling in the MDS code multiplies every nibble by two in GF(2^4) modulo x^4 + x + 1 |
| JH.MdsInverse | src/crypto/c_jh.c:101-109 | the MDS code is undone both ways by its inverse |
| JH.SwapMoves | src/crypto/c_jh.c:87-98 | each SWAP macro moves the bit at position k to the neighbouring group of 1, 2, 4, 8, 16 or 32 bits |
| JH.SwapTwice | src/crypto/c_jh.c:87-98 | each SWAP macro is its own inverse |
| JH.E8Inverse | src/crypto/c_jh.c:138-196 | E8 is a bijection on the 1024-bit state for any round constants, with an explicit inverse |
| JH.F8Inverse | src/crypto/c_jh.c:199-211 | for every message block F8 is a bijection on the chaining state |
| JH.E8InPlace | src/crypto/c_jh.c:138-196 | six groups of seven rounds on the array, word swap in every seventh, equal E8 |
| JH.F8InPlace | src/crypto/c_jh.c:199-211 | the array ends as F8 of the old state and the buffered message block |
| JHStandard.RoundIsStandard | src/crypto/c_jh.c:138-196 | in any round, on any state and constants, S-box, MDS code and swaps are S-box layer, L layer and permutation P8 on the 256 elements, wherever the swaps so far have put them |
| JHStandard.E8IsStandard | src/crypto/c_jh.c:138-196 | the bitsliced permutation is E8 on bit strings: grouping, 42 rounds R8 and degrouping |
| JHStandard.F8IsStandard | src/crypto/c_jh.c:199-211 | the compression adds the message to the first half of the bits, applies E8 and adds it to the second |
| Groestl.PaddingIsOneZerosCount | src/crypto/c_groestl.c:265-307 | as bits, the padding is a one, the fewest zeros and the number of blocks in 64 bits, up to a multiple of 512 (section 3.6 of the Groestl specification) |
| Groestl.HashIsLastHalf | src/crypto/c_groestl.c:309-315 | the digest is the last 256 bits of the output state |
| Groestl.Context.Transform | src/crypto/c_groestl.c:153-166 | whole blocks extend the chain and the two-word block counter stays equal to the blocks digested |
| Groestl.Context.Update | src/crypto/c_groestl.c:216-258 | after m and then whole bytes the context is that of m and of what the int length says of the input; that is all of the input if and only if it is shorter than 2^31 bytes |
| Groestl.Context.Final | src/crypto/c_groestl.c:265-322 | the counter written into the last block is the number of blocks of the padded message, in the one-block and the two-block case, and the output is its hash |
| Groestl.Hash | src/crypto/c_groestl.c:325-340 | the one-call hash is that of the padded message when it is shorter than 2^31 bytes, and in general that of the part that is read, none of it for 2^31 bytes |
| Permute.GcdProperties | src/3rdparty/getopt/getopt.h:103-116 | gcd divides both arguments and is an integer combination of them |
| Permute.ComputeGcd | src/3rdparty/getopt/getopt.h:103-116 | the loop computes the gcd |
| Permute.CyclesPartition | src/3rdparty/getopt/getopt.h:123-153 | the gcd cycles of length total/gcd are simple and partition all positions |
| Permute.CyclesExchange | src/3rdparty/getopt/getopt.h:123-153 | walking all the cycles exchanges the two blocks |
| Permute.PermuteArgs | src/3rdparty/getopt/getopt.h:123-153 | in place, the two adjacent blocks change places, each keeping its order, and nothing else moves |
| OptionSyntax.FindMatch | src/3rdparty/getopt/getopt.h:257-281 | the search for a long option: the first exact match wins; without one the first partial match is taken, ambiguous if another one is not interchangeable with it, and there is none if nothing matches |
| OptionSyntax.MatchRulesDetermine | src/3rdparty/getopt/getopt.h:257-281 | those rules leave one answer |
| OptionSyntax.SplitIsPermutation | src/3rdparty/getopt/getopt.h:359-550 | the sorted result is a rearrangement of the elements: none lost, none added |
| OptionSyntax.SplitNonOptions | src/3rdparty/getopt/getopt.h:417-447 | everything sorted behind the options is a non-option |
| OptionSyntax.StopsOnlyAtFinalDash | src/3rdparty/getopt/getopt.h:494-504 | a scan stops inside an element only without long options and at an unlisted final '-' |
| OptionSyntax.AlwaysClean | src/3rdparty/getopt/getopt.h:359-550 | with long options, or '-' among the letters, nothing stops a scan |
| OptionSyntax.ClusterExtent | src/3rdparty/getopt/getopt.h:494-545 | reading a cluster stops if and only if it ends in '-' and no letter before that takes an argument, and it takes the next element if and only if its last letter asks for one |
| OptionSyntax.CleanExactly | src/3rdparty/getopt/getopt.h:359-550 | a scan gets through if and only if there are long options, or '-' is listed, or no element scanned ends in a bare '-' |
| OptionSyntax.BareDashStops | src/3rdparty/getopt/getopt.h:494-504 | an input on which a bare '-' does stop it |
| Getopt.Scanner.ParseLongOptions | src/3rdparty/getopt/getopt.h:232-352 | code, consumed elements and optarg are those of the pure reading of the long option |
| Getopt.Scanner.PermuteNow | src/3rdparty/getopt/getopt.h:401-407 | whenever the blocks are exchanged both are nonempty, and the options then precede the non-options |
| Getopt.Scanner.ReadOne | src/3rdparty/getopt/getopt.h:473-549 | code, position, rest of the cluster and optarg are those of the pure reading of one option, long before short |
| Getopt.Scanner.SkipNonOption | src/3rdparty/getopt/getopt.h:417-447 | a non-option joins the ones skipped, these closed up behind the options first, and the scan moves past it |
| Getopt.Scanner.EndAtDashes | src/3rdparty/getopt/getopt.h:452-469 | at "--" the vector is sorted, "--" is the last option, the rest is untouched and optind is at the first non-option |
| Getopt.Scanner.FinishScan | src/3rdparty/getopt/getopt.h:398-416 | at the end of the vector everything is sorted and optind is at the first non-option |
| Getopt.Scanner.Next | src/3rdparty/getopt/getopt.h:359-550 | every call that returns an option keeps the place where the scan will end and makes progress; what the calls give is what was left to read, one after the other; the call that returns -1 reaches that place if and only if nothing stopped the scan |
| Getopt.Scanner.CleanIsUnhindered | src/3rdparty/getopt/getopt.h:359-550 | the same from any state between calls: what remains gets through if and only if no bare '-' lies ahead |
| Getopt.Scanner.RunAll | src/Options.cpp:279-288 | over the whole run, the caller is given the options of the vector in order, and the vector ends as options with their arguments, any "--", non-options and the rest, each in original order, with optind at the first non-option, if and only if no bare '-' lies ahead at the start |
| CommandLine.NameRead | src/3rdparty/getopt/getopt.h:232-352 | what reading a long option gives, from what its name stands for by the matching rules: its value, or 0 if a flag is set, with the argument joined or taken from the next element; the error code for a refused argument; '?' for an ambiguous or unknown name |
| CommandLine.FlagRead | src/3rdparty/getopt/getopt.h:494-535 | a letter before others gives its code, or '?' if it is not listed, and the cluster goes on behind it |
| CommandLine.LastLetterRead | src/3rdparty/getopt/getopt.h:494-549 | the last letter of a cluster gives its code with the rest of the element, the next element or nothing as its argument, as the colons behind it in the letters say |
| CommandLine.LineRead | src/3rdparty/getopt/getopt.h:359-550 | a command line spelt from any options and operands, in front of any tail, is sorted into the elements of options and the operands, and is read as those options in order with their codes and arguments |
| CommandLine.UnsuppliedRead | src/3rdparty/getopt/getopt.h:317-334 | a line that ends where an argument must follow reports the missing argument last |
| CommandLine.ReadAll | src/Options.cpp:279-288 | the caller's loop over such a vector is given exactly the options it was spelt from, and leaves them in front of the operands with optind at the first operand |
| Document.IntegerFlags | src/3rdparty/rapidjson/document.h:620-656 | each integer constructor sets the flags of exactly the types its argument fits |
| Document.ReplayEvents | src/3rdparty/rapidjson/document.h:1754-1791 | replaying the events of any value through the handlers leaves the stack as it was plus the value's clone |
| Document.ReplayMembers | src/3rdparty/rapidjson/document.h:1762-1771 | the key and value events of members leave the name-value pairs on the stack in order |
| Document.Accept | src/3rdparty/rapidjson/document.h:1754-1791 | the recursive traversal drives the document to the same stack |
| Document.Document.EndObject | src/3rdparty/rapidjson/document.h:2347-2351 | the pairs on the stack become the members of the object below them |
| Document.Document.EndArray | src/3rdparty/rapidjson/document.h:2355-2359 | the values on the stack become the elements of the array below them |
| Document.CloneAlike | src/3rdparty/rapidjson/document.h:2394-2417 | a clone is the same value up to storage: numbers by bits, strings by content and ownership, elements and members in order |
| Document.CloneLeft | src/3rdparty/rapidjson/document.h:838-877 | on the left of operator== a clone behaves as its original, against every value |
| Document.CloneRight | src/3rdparty/rapidjson/document.h:838-877 | and on the right |
| Document.EqualItself | src/3rdparty/rapidjson/document.h:838-877 | a value equals itself if and only if every double does and every repeated name repeats the first value of that name |
| Document.CloneEqualsOriginal | src/3rdparty/rapidjson/document.h:838-877 | a clone equals its original under the same exact condition |
| Document.RepeatedNameMayBeEqual | src/3rdparty/rapidjson/document.h:834-858 | an object with a repeated name that equals itself |
| Equality.AgreeExactly | src/3rdparty/rapidjson/document.h:838-877 | values have a common right-hand side if and only if they agree: all null, one boolean or one string; numbers the same as one double or equal to one integer's bits; arrays of one length, element by element; objects of one size with no more names than that, name by name |
| Equality.EqualToSome | src/3rdparty/rapidjson/document.h:834-858 | an object compares equal to some value if and only if the values of each name have a common right-hand side, and if and only if they agree |
| Equality.RoundedRepeats | src/3rdparty/rapidjson/document.h:834-872 | an object with a repeated name and two different integers that round to one double: not equal to itself, equal to an object with the double |
| Equality.SameAsFirst | src/3rdparty/rapidjson/document.h:868-872 | where the comparison of doubles is symmetric and transitive, numbers are the same as one double if and only if each is the same as the first |
| Equality.SomeEqualTo | src/3rdparty/rapidjson/document.h:838-877 | some value compares equal to a given right-hand side if and only if its doubles do and each of its objects that is not empty has such a member that is the first of its name |
| Document.DeepCopy | src/3rdparty/rapidjson/document.h:2394-2417 | containers and owned strings are cloned, numbers and borrowed strings copied as they are |
| Document.DeepCopyEqual | src/3rdparty/rapidjson/document.h:2394-2417 | operator== cannot tell a deep copy from its original |
| MemoryPool.AlignExactly | src/3rdparty/rapidjson/rapidjson.h:259 | the macro aligns every 64-bit size but the last seven, which become zero |
| MemoryPool.WrapExactly | src/3rdparty/rapidjson/allocators.h:166-173 | the sum and the test for room that the code computes are the true ones if and only if the sum of the chunk's size and the aligned request is below 2^64 |
| MemoryPool.TakenSound | src/3rdparty/rapidjson/allocators.h:166-173 | what is handed out leaves a sound pool if and only if no sum overflowed |
| MemoryPool.Pool.Malloc | src/3rdparty/rapidjson/allocators.h:162-174 | for every pool and size, the chunk and place that the wrapping sums select; null if and only if the request is empty or a chunk is refused, and then nothing changes; from a valid pool, a block of the aligned size and a valid pool if and only if the request does not wrap, or null |
| MemoryPool.RoomLeft | src/3rdparty/rapidjson/allocators.h:162-174 | a chunk added for a request has room for all later ones that stay within the chunk capacity with it |
| MemoryPool.Pool.Realloc | src/3rdparty/rapidjson/allocators.h:177-206 | what is returned is a live block of a valid pool if and only if the request does not wrap or is served in place; then the old bytes are kept, every other live block keeps place, size and bytes, and growing is in place when the block is last in a chunk with room; null only for an empty request or a refused chunk, and then nothing changes |
| MemoryPool.Pool.AddChunk | src/3rdparty/rapidjson/allocators.h:223-236 | an empty chunk in front of the others, or no change when the base allocator refuses; the pool stays valid if and only if header and capacity add up below 2^64, or the chunk is refused |
| MemoryPool.Pool.Size | src/3rdparty/rapidjson/allocators.h:154-159 | the bytes used over all chunks modulo 2^64, in a valid pool exactly the bytes of the live blocks |
| MemoryPool.Pool.Capacity | src/3rdparty/rapidjson/allocators.h:144-149 | the capacity over all chunks modulo 2^64, and exactly that in a valid pool |
| MemoryPool.SizeWithinCapacity | src/3rdparty/rapidjson/allocators.h:144-159 | chunks that are not overfull hold no more than their capacity in all |
| MemoryPool.Pool.SizeBounded | src/3rdparty/rapidjson/allocators.h:144-159 | in every valid pool, the size is the bytes of its live blocks and at most the capacity, which is below 2^64 because the chunks share no byte of memory |
| MemoryPool.Pool.Clear | src/3rdparty/rapidjson/allocators.h:131-139 | every chunk of the base allocator is freed once, the caller's buffer is kept and emptied |
| MemoryPool.BlocksAligned | src/3rdparty/rapidjson/allocators.h:166-172 | a block is aligned if and only if its chunk is, so all are unless the caller's buffer is misaligned |
| MemoryPool.FirstBlock | src/3rdparty/rapidjson/allocators.h:112-174 | the first block in a caller's buffer lies right behind the header there, misaligned if and only if the buffer is |
| MemoryPool.Serve | src/3rdparty/rapidjson/allocators.h:162-206 | over any sequence of allocations, resizes and client writes, up to the first request that wraps, and any answers of the base allocator, all blocks held are live, no two share a byte, and each holds what the client last wrote to it; a run whose sizes leave room in the address space is served to its end |
| MemoryPool.OverlappingBlocks | src/3rdparty/rapidjson/allocators.h:162-174 | 16 bytes, then 2^64 - 8, then 8: all three are granted and the third block lies inside the first |
| Utf.Encode | src/3rdparty/rapidjson/encodings.h:88-108 | the bytes put are the shortest form of the code point (section 3 of RFC 3629) |
| Utf.Decode | src/3rdparty/rapidjson/encodings.h:132-162 | accepts exactly the well-formed sequences, yields the scalar value encoded and consumes its bytes; at the end of the stream it yields U+0000 |
| Utf.Masks | src/3rdparty/rapidjson/encodings.h:190-206 | each range mask admits exactly the bytes its place in a sequence allows |
| Utf.WellFormedExactly | src/3rdparty/rapidjson/encodings.h:132-162 | the grammar of section 4 of RFC 3629 admits a start of a string if and only if it is the encoding of a scalar value: no overlong form, no surrogate, at most U+10FFFF |
| Utf.UniquelyDecodable | src/3rdparty/rapidjson/encodings.h:88-162 | a byte string encodes at most one sequence of scalar values |
| Utf.DecodeAll | src/3rdparty/rapidjson/encodings.h:132-162 | decoding to the end succeeds if and only if the string is UTF-8, and gives the sequence it encodes |
| Utf.RoundTrip | src/3rdparty/rapidjson/encodings.h:88-162 | decoding the encoding of any sequence of scalar values returns it |
| Utf.ScalarsDecoded | src/3rdparty/rapidjson/encodings.h:88-162 | what the encoder makes of a code point is accepted, whatever follows, if and only if the code point is a scalar value |
| Utf.Decode16 | src/3rdparty/rapidjson/encodings.h:293-309 | accepts exactly a unit of its own or a surrogate pair and yields its value (section 2.2 of RFC 2781) |
| Utf.WellFormed16Exactly | src/3rdparty/rapidjson/encodings.h:293-309 | those are exactly the encodings of scalar values |
| Utf.DecodeAll16 | src/3rdparty/rapidjson/encodings.h:293-309 | decoding to the end succeeds if and only if the units are UTF-16, and gives the sequence they encode |
| Utf.RoundTrip16 | src/3rdparty/rapidjson/encodings.h:262-309 | decoding the UTF-16 encoding of any sequence of scalar values returns it |

## Left out

- CryptoNight.HashUnrolled: the repeated statements of the 2- to 5-way forms are written as loops over the lanes, so their textual repetition is not modelled.
- CryptoNight: the hardware AES path, the ARM file and the choice of the final hash's algorithm; the primitives are function parameters and the AES and multiplication results are separate theorems.
- Aes.SoftAesencIsRound: the values of the S-box are not modelled; the theorem holds for every S-box.
- Keccak.Keccakf: more than 24 rounds read past the constant table in the source and are excluded.
- Sponge.Hash: rates that are not whole words, or that exceed the 144-byte buffer, are excluded.
- Blake256.State.Update: takes whole bytes, as every caller in the repository passes; the compression function, its salt (always zero) and the HMAC functions are not part of this model.
- Blake256.Hash: requires that the length in bits fits the source's 64-bit counter.
- Skein.Context.Update: the configuration block that derives the initial value and messages with a partial last byte are not part of this model.
- JH: its Init, Update and Final, and the values of its round constants; the standard's constants are those of the code, wherever the swaps have put their elements.
- CommandLine.LineRead: letter clusters under getopt_long_only, which may turn into long options at every letter, and '-' as an option letter.
- SkeinStandard.MessageIsStandard: messages of 2^64 bytes and more, whose byte count the source's T[0] wraps and the standard's 96-bit position does not.
- Groestl.Context.Update: whole bytes only; F512 and the output transformation are parameters.
- JH.F8InPlace: the macros' word-by-word assignment is modelled on local words that are then stored in the array.
- Getopt: the non-permuting modes ('+', '-', POSIXLY_CORRECT), a null option string, optopt, the long-option index and flag stores, warnings, and characters outside a string.
- OptionSyntax.FindMatch: a long option whose value is -1 and that has no flag is excluded, because a caller could not tell it from the end of the scan; so is the letter 0xFF, whose code as a signed char is -1.
- MemoryPool: builds with a 32-bit size_t, which align to four bytes.
- MemoryPool.Pool.Realloc: bytes that memcpy would write past the end of memory after a sum wrapped are lost.
- MemoryPool: chunk headers are not stored in the modelled memory; the linked list of chunks is a sequence with the head first.
- Document: memory addresses and ownership, parsing and writing of text, and value construction other than by events and copies.
- Utf.Decode: the range table is given as ranges of bytes; streams other than the memory stream, byte-order marks and Validate are not part of this model.
- Network, API, workers, options other than their scanning, hardware detection and the control server: input and output with no algorithm of interest.
