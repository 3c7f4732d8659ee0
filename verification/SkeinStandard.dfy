// Threefish-512 and Skein-512 as sections 3.3 to 3.5 of The Skein Hash Function Family define them,
// and proofs that the functions the code is proved against are the same.
module SkeinStandard {
  import opened Words
  import opened Blocks
  import opened Threefish
  import Skein

  // ---------------------------------------------------------------- rounds, section 3.3.1

  // Table 3: the word that each word of the next round is taken from.
  const PI: seq<nat> := [2, 1, 4, 7, 6, 5, 0, 3]

  // Table 4: the rotations of the four mixes of round d.
  const R: seq<seq<nat>> := [
    [46, 36, 19, 37], [33, 27, 14, 42], [17, 49, 36, 39], [44, 9, 54, 56],
    [39, 30, 34, 24], [13, 50, 10, 17], [25, 29, 39, 43], [8, 35, 56, 22]]

  function Rotation(d: nat, j: nat): (r: nat)
    requires d < 8 && j < 4
    ensures 0 < r < 64
  {
    R[d][j]
  }

  // x <<< r: the word shifted left, and what falls out at the top put in at the bottom.
  function Rotated(x: Word64, r: nat): int
    requires 0 < r < 64
  {
    var high: int := x * Pow2(r);
    high % TWO64 + x / Pow2(64 - r)
  }

  // The function MIX.
  function MixOf(x: Word64, y: Word64, r: nat): (Word64, Word64)
    requires 0 < r < 64
  {
    RotationIsStandard(y, r);
    Pow64();
    XorBound(Rotated(y, r), (x + y) % TWO64, 64);
    ((x + y) % TWO64, Xor(Rotated(y, r), (x + y) % TWO64))
  }

  lemma RotationIsStandard(x: Word64, r: nat)
    requires 0 < r < 64
    ensures Rotated(x, r) == RotL(x, r)
  {
    var p, q := Pow2(64 - r), Pow2(r);
    RotationWeights(r);
    var h, l := x / p, x % p;
    Shifted(x, p, q, h, l);
    DivModUnique(x * q, TWO64, h, q * l);
  }

  lemma Shifted(x: nat, p: nat, q: nat, h: nat, l: nat)
    requires p * q == TWO64 && x == p * h + l && l < p
    ensures x * q == TWO64 * h + q * l && 0 <= q * l < TWO64
  {
    assert x * q == (p * h) * q + l * q;
    assert (p * h) * q == (p * q) * h;
    MulMonotone(q, l + 1, p);
    assert q * (l + 1) == q * l + q;
  }

  lemma MixIsStandard(x: Word64, y: Word64, r: nat)
    requires 0 < r < 64
    ensures MixOf(x, y, r) == MixWords(x, y, r)
  {
    hide RotL, Rotated, Xor;
    RotationIsStandard(y, r);
  }

  // Words 2j and 2j + 1 mixed, for all four j.
  function Mixed(v: Block8, d: nat): Block8
    requires d < 8
  {
    var m0, m1 := MixOf(v[0], v[1], Rotation(d, 0)), MixOf(v[2], v[3], Rotation(d, 1));
    var m2, m3 := MixOf(v[4], v[5], Rotation(d, 2)), MixOf(v[6], v[7], Rotation(d, 3));
    [m0.0, m0.1, m1.0, m1.1, m2.0, m2.1, m3.0, m3.1]
  }

  // Word i of a round is word PI(i) of the mixed words.
  function RoundOf(v: Block8, d: nat): Block8
    requires d < 8
  {
    var f := Mixed(v, d);
    [f[PI[0]], f[PI[1]], f[PI[2]], f[PI[3]], f[PI[4]], f[PI[5]], f[PI[6]], f[PI[7]]]
  }

  // ---------------------------------------------------------------- four rounds of the code

  // The code leaves the words where they are and mixes other positions: after k rounds of four,
  // word i of the standard is at position Place(k, i).
  function Place(k: nat, i: nat): (p: nat)
    requires i < 8
    ensures p < 8
  {
    if k % 4 == 0 then i else Place(k - 1, PI[i])
  }

  function Arranged(x: Block8, k: nat): (v: Block8)
  {
    var v: seq<Word64> := [x[Place(k, 0)], x[Place(k, 1)], x[Place(k, 2)], x[Place(k, 3)],
                           x[Place(k, 4)], x[Place(k, 5)], x[Place(k, 6)], x[Place(k, 7)]];
    v
  }

  // The mixes of a round touch each word once.
  lemma MixesOnce(x: Block8, d: nat, y: Block8)
    requires d < 8 && y == Mixes(x, d, 4)
    ensures forall q | 0 <= q < 4 ::
              (y[Pair(d, q).0], y[Pair(d, q).1])
              == MixWords(x[Pair(d, q).0], x[Pair(d, q).1], ROTATIONS[d][q])
  {
    hide MixWords;
  }

  // Each row of the code's table is the one before it taken through PI, and the last comes round.
  lemma RowStep(k: nat, i: nat)
    requires k < 4 && i < 8
    ensures POSITIONS[k][PI[i]] == if k < 3 then POSITIONS[k + 1][i] else i
    ensures POSITIONS[0][i] == i
  {
    if k == 0 {
    } else if k == 1 {
    } else if k == 2 {
    } else {
    }
  }

  // The code's table of positions.
  lemma {:induction false} PlaceTable(k: nat, i: nat)
    requires k < 4 && i < 8
    ensures Place(k, i) == POSITIONS[k][i]
    ensures Place(k, PI[i]) == Place(k + 1, i)
  {
    PlaceRow(k, i);
    PlaceRow(k, PI[i]);
    RowStep(k, i);
  }

  lemma {:induction false} PlaceRow(k: nat, i: nat)
    requires k < 4 && i < 8
    ensures Place(k, i) == POSITIONS[k][i]
  {
    if k == 0 {
      RowStep(0, i);
    } else {
      assert Place(k, i) == Place(k - 1, PI[i]);
      PlaceRow(k - 1, PI[i]);
      RowStep(k - 1, i);
    }
  }

  lemma PairPlaces(d: nat, q: nat)
    requires d < 8 && q < 4
    ensures Pair(d, q) == (Place(d % 4, 2 * q), Place(d % 4, 2 * q + 1)) && ROTATIONS[d][q] == Rotation(d, q)
  {
    hide Place;
    PlaceTable(d % 4, 2 * q);
    PlaceTable(d % 4, 2 * q + 1);
  }

  predicate MixedPair(x: Block8, y: Block8, k: nat, d: nat, q: nat)
    requires d < 8 && q < 4
  {
    (y[Place(k, 2 * q)], y[Place(k, 2 * q + 1)])
    == MixOf(x[Place(k, 2 * q)], x[Place(k, 2 * q + 1)], Rotation(d, q))
  }

  lemma MixedArranged(x: Block8, d: nat)
    requires d < 8
    ensures Mixed(Arranged(x, d % 4), d) == Arranged(Mixes(x, d, 4), d % 4)
  {
    hide Place, Mixes, MixWords, MixOf, Pair, Rotation, ROTATIONS;
    var k, y := d % 4, Mixes(x, d, 4);
    MixesOnce(x, d, y);
    forall q: nat | q < 4
      ensures MixedPair(x, y, k, d, q)
    {
      PairPlaces(d, q);
      MixIsStandard(x[Place(k, 2 * q)], x[Place(k, 2 * q + 1)], Rotation(d, q));
    }
    assert MixedPair(x, y, k, d, 0) && MixedPair(x, y, k, d, 1) && MixedPair(x, y, k, d, 2) && MixedPair(x, y, k, d, 3);
  }

  lemma RoundArranged(x: Block8, d: nat, k: nat)
    requires d < 8 && k == d % 4
    ensures RoundOf(Arranged(x, k), d) == Arranged(Mixes(x, d, 4), k + 1)
  {
    hide Place, Mixes, Mixed;
    MixedArranged(x, d);
    forall i: nat | i < 8
      ensures Place(k, PI[i]) == Place(k + 1, i)
    {
      PlaceTable(k, i);
    }
  }

  // ---------------------------------------------------------------- the cipher, sections 3.3 and 3.3.2

  const C240: Word64 := 0x1BD1_1BDA_A9FC_1A22

  // The key extended by its parity word.
  function KeyWord(key: Block8, i: nat): nat
    requires i < 9
  {
    if i < 8 then key[i]
    else Xor(Xor(Xor(Xor(Xor(Xor(Xor(Xor(key[0], key[1]), key[2]), key[3]), key[4]), key[5]), key[6]), key[7]), C240)
  }

  // A tweak of 128 bits as two words, and their exclusive or.
  function TweakWord(tweak: nat, i: nat): nat
    requires i < 3
  {
    var low, high := tweak % TWO64, tweak / TWO64;
    if i == 0 then low else if i == 1 then high else Xor(low, high)
  }

  // Word i of subkey s.
  function Subkey(key: Block8, tweak: nat, s: nat, i: nat): Word64
    requires i < 8
  {
    var k := KeyWord(key, (s + i) % 9);
    var t := if i == 5 then TweakWord(tweak, s % 3) else if i == 6 then TweakWord(tweak, (s + 1) % 3)
             else if i == 7 then s else 0;
    (k + t) % TWO64
  }

  function WithSubkey(v: Block8, key: Block8, tweak: nat, s: nat): Block8 {
    var e: seq<Word64> := seq(8, i requires 0 <= i < 8 => (v[i] + Subkey(key, tweak, s, i)) % TWO64);
    e
  }

  // The words after d rounds; a subkey is added before every fourth.
  function AfterRounds(plain: Block8, key: Block8, tweak: nat, d: nat): Block8 {
    if d == 0 then plain
    else
      var v := AfterRounds(plain, key, tweak, d - 1);
      RoundOf(if (d - 1) % 4 == 0 then WithSubkey(v, key, tweak, (d - 1) / 4) else v, (d - 1) % 8)
  }

  // Threefish-512: 72 rounds and a last subkey.
  function Cipher(key: Block8, tweak: nat, plain: Block8): Block8 {
    WithSubkey(AfterRounds(plain, key, tweak, 72), key, tweak, 18)
  }

  lemma KeyIsStandard(key: Block8, i: nat)
    requires i < 9
    ensures Skein.KeyWords(key)[i] == KeyWord(key, i)
  {
    hide Xor;
  }

  lemma SubkeyIsStandard(key: Block8, tweak: nat, s: nat, i: nat)
    requires i < 8 && s < TWO64 && tweak < TWO64 * TWO64
    ensures SubkeyWord(Skein.KeyWords(key), Skein.TweakWords(tweak % TWO64, tweak / TWO64), s, i)
         == Subkey(key, tweak, s, i)
  {
    hide Xor, Skein.KeyWords, KeyWord;
    KeyIsStandard(key, (s + i) % 9);
  }

  lemma InjectIsStandard(v: Block8, key: Block8, tweak: nat, s: nat)
    requires s < TWO64 && tweak < TWO64 * TWO64
    ensures Inject(v, Skein.KeyWords(key), Skein.TweakWords(tweak % TWO64, tweak / TWO64), s)
         == WithSubkey(v, key, tweak, s)
  {
    hide SubkeyWord, Subkey, Skein.KeyWords, Skein.TweakWords;
    forall i | 0 <= i < 8
      ensures SubkeyWord(Skein.KeyWords(key), Skein.TweakWords(tweak % TWO64, tweak / TWO64), s, i)
           == Subkey(key, tweak, s, i)
    {
      SubkeyIsStandard(key, tweak, s, i);
    }
  }

  // Four rounds of the code are four of the standard: the words are back in their places.
  lemma FourAreStandard(x: Block8, odd: bool)
    ensures var d := if odd then 4 else 0;
            FourRounds(x, odd) == RoundOf(RoundOf(RoundOf(RoundOf(x, d), d + 1), d + 2), d + 3)
  {
    hide Mixes, RoundOf, Arranged, Place;
    var d := if odd then 4 else 0;
    var x1 := Mixes(x, d, 4);
    var x2 := Mixes(x1, d + 1, 4);
    var x3 := Mixes(x2, d + 2, 4);
    InPlace(x, 0);
    RoundArranged(x, d, 0);
    RoundArranged(x1, d + 1, 1);
    RoundArranged(x2, d + 2, 2);
    RoundArranged(x3, d + 3, 3);
    InPlace(Mixes(x3, d + 3, 4), 4);
  }

  lemma InPlace(x: Block8, k: nat)
    requires k % 4 == 0
    ensures Arranged(x, k) == x
  {
  }

  lemma {:induction false} RoundsAreStandard(plain: Block8, key: Block8, tweak: nat, n: nat)
    requires n <= 18 && tweak < TWO64 * TWO64
    ensures Encrypt(plain, Skein.KeyWords(key), Skein.TweakWords(tweak % TWO64, tweak / TWO64), n)
         == WithSubkey(AfterRounds(plain, key, tweak, 4 * n), key, tweak, n)
  {
    hide FourRounds, RoundOf, Skein.KeyWords, Skein.TweakWords, WithSubkey, Inject, AfterRounds;
    var k, t := Skein.KeyWords(key), Skein.TweakWords(tweak % TWO64, tweak / TWO64);
    if n == 0 {
      InjectIsStandard(plain, key, tweak, 0);
      NoRounds(plain, key, tweak);
    } else {
      RoundsAreStandard(plain, key, tweak, n - 1);
      var x := Encrypt(plain, k, t, n - 1);
      FourAreStandard(x, n % 2 == 0);
      FourAfter(plain, key, tweak, n - 1);
      InjectIsStandard(FourRounds(x, n % 2 == 0), key, tweak, n);
    }
  }

  lemma NoRounds(plain: Block8, key: Block8, tweak: nat)
    ensures AfterRounds(plain, key, tweak, 0) == plain
  {
  }

  lemma FourAfter(plain: Block8, key: Block8, tweak: nat, n: nat)
    ensures var x, d := WithSubkey(AfterRounds(plain, key, tweak, 4 * n), key, tweak, n), 4 * n % 8;
            && (d == if n % 2 == 0 then 0 else 4)
            && AfterRounds(plain, key, tweak, 4 * n + 4)
               == RoundOf(RoundOf(RoundOf(RoundOf(x, d), d + 1), d + 2), d + 3)
  {
    hide RoundOf, WithSubkey;
    var d := if n % 2 == 0 then 0 else 4;
    DivModUnique(4 * n, 8, n / 2, d);
    DivModUnique(4 * n + 1, 8, n / 2, d + 1);
    DivModUnique(4 * n + 2, 8, n / 2, d + 2);
    DivModUnique(4 * n + 3, 8, n / 2, d + 3);
    DivModUnique(4 * n, 4, n, 0);
    DivModUnique(4 * n + 1, 4, n, 1);
    DivModUnique(4 * n + 2, 4, n, 2);
    DivModUnique(4 * n + 3, 4, n, 3);
    var v0 := AfterRounds(plain, key, tweak, 4 * n);
    var v1 := AfterRounds(plain, key, tweak, 4 * n + 1);
    var v2 := AfterRounds(plain, key, tweak, 4 * n + 2);
    var v3 := AfterRounds(plain, key, tweak, 4 * n + 3);
    assert v1 == RoundOf(WithSubkey(v0, key, tweak, n), d);
    assert v2 == RoundOf(v1, d + 1);
    assert v3 == RoundOf(v2, d + 2);
  }

  // The cipher the code computes is Threefish-512.
  lemma CipherIsStandard(plain: Block8, key: Block8, tweak: nat)
    requires tweak < TWO64 * TWO64
    ensures Encrypt(plain, Skein.KeyWords(key), Skein.TweakWords(tweak % TWO64, tweak / TWO64), 18)
         == Cipher(key, tweak, plain)
  {
    RoundsAreStandard(plain, key, tweak, 18);
  }

  // ---------------------------------------------------------------- UBI, section 3.4

  // Bytes as an integer, the least significant first.
  function ToInt(b: seq<Byte>): nat {
    if b == [] then 0 else b[0] + 0x100 * ToInt(b[1..])
  }

  // Type codes of table 5, at their place in the tweak.
  const T_MSG: nat := 48 * Pow2(120)
  const T_OUT: nat := 63 * Pow2(120)

  function Blocks64(n: nat): nat {
    if n <= 64 then 1 else (n + 63) / 64
  }

  // Block i of the zero-padded message.
  function PaddedBlock(m: seq<Byte>, i: nat): (b: seq<Byte>)
    requires i < Blocks64(|m|)
    ensures |b| == 64
  {
    var end := if 64 * (i + 1) <= |m| then 64 * (i + 1) else |m|;
    var piece := m[64 * i..end];
    piece + Zeros(64 - |piece|)
  }

  // Word i of a block.
  function WordAt(b: seq<Byte>, i: nat): Word64
    requires |b| == 64 && i < 8
  {
    EightBytes(b[8 * i..8 * i + 8]);
    ToInt(b[8 * i..8 * i + 8])
  }

  function WordsOfBlock(b: seq<Byte>): Block8
    requires |b| == 64
  {
    var w: seq<Word64> := seq(8, i requires 0 <= i < 8 => WordAt(b, i));
    w
  }

  lemma EightBytes(b: seq<Byte>)
    requires |b| == 8
    ensures ToInt(b) == Skein.Get64(b)
  {
    var b1 := b[1..];
    var b2 := b1[1..];
    var b3 := b2[1..];
    var b4 := b3[1..];
    var b5 := b4[1..];
    var b6 := b5[1..];
    var b7 := b6[1..];
    assert b7[1..] == [] && ToInt([]) == 0;
    var v: seq<int> := b;
    assert ToInt(b7) == v[7];
    assert ToInt(b6) == v[6] + 0x100 * v[7];
    assert ToInt(b4) == v[4] + 0x100 * (v[5] + 0x100 * ToInt(b6));
    assert ToInt(b2) == v[2] + 0x100 * (v[3] + 0x100 * ToInt(b4));
    assert ToInt(b) == v[0] + 0x100 * (v[1] + 0x100 * ToInt(b2));
  }

  // The tweak of block i: the bytes up to its end, the first and the final flag, and the type.
  function BlockTweak(n: nat, i: nat, kind: nat): nat {
    var position := if n <= 64 * (i + 1) then n else 64 * (i + 1);
    kind + position + (if i == 0 then Pow2(126) else 0) + (if i == Blocks64(n) - 1 then Pow2(127) else 0)
  }

  function FeedForward(c: Block8, w: Block8): Block8 {
    var h: seq<Word64> := seq(8, j requires 0 <= j < 8 => XorWord(c[j], w[j]));
    h
  }

  function XorWord(x: Word64, y: Word64): Word64 {
    Pow64();
    XorBound(x, y, 64);
    Xor(x, y)
  }

  // The chaining value after i blocks.
  function UbiChain(g: Block8, m: seq<Byte>, kind: nat, i: nat): Block8
    requires i <= Blocks64(|m|)
  {
    if i == 0 then g
    else
      var h, w := UbiChain(g, m, kind, i - 1), WordsOfBlock(PaddedBlock(m, i - 1));
      FeedForward(Cipher(h, BlockTweak(|m|, i - 1, kind), w), w)
  }

  function Ubi(g: Block8, m: seq<Byte>, kind: nat): Block8 {
    UbiChain(g, m, kind, Blocks64(|m|))
  }

  // ---------------------------------------------------------------- the code's chaining

  lemma TweakPowers()
    ensures Pow2(120) == 0x100_0000_0000_0000 * TWO64
    ensures Pow2(126) == 0x4000_0000_0000_0000 * TWO64 && Pow2(127) == 0x8000_0000_0000_0000 * TWO64
  {
    Pow64();
    PowAdds(64, 56);
    PowAdds(64, 62);
    PowAdds(64, 63);
    HighPowers();
  }

  lemma HighPowers()
    ensures Pow2(56) == 0x100_0000_0000_0000
    ensures Pow2(62) == 0x4000_0000_0000_0000 && Pow2(63) == 0x8000_0000_0000_0000
  {
    assert Pow2(8) == 0x100;
    assert Pow2(16) == 0x1_0000;
    assert Pow2(24) == 0x100_0000;
    assert Pow2(32) == TWO32;
    assert Pow2(40) == 0x100_0000_0000;
    assert Pow2(48) == 0x1_0000_0000_0000;
  }

  // The two tweak words: the position, and flags and type.
  lemma TweakParts(n: nat, i: nat, code: nat)
    requires n < TWO64 && code < 64
    ensures var t, hi := BlockTweak(n, i, code * Pow2(120)),
              code * 0x100_0000_0000_0000 + (if i == 0 then Skein.FLAG_FIRST else 0)
              + (if i == Blocks64(n) - 1 then Skein.FLAG_FINAL else 0);
            t % TWO64 == (if n <= 64 * (i + 1) then n else 64 * (i + 1)) && t / TWO64 == hi && t < TWO64 * TWO64
  {
    hide Pow2, Blocks64;
    TweakPowers();
    var hi := code * 0x100_0000_0000_0000 + (if i == 0 then Skein.FLAG_FIRST else 0)
              + (if i == Blocks64(n) - 1 then Skein.FLAG_FINAL else 0);
    var position := if n <= 64 * (i + 1) then n else 64 * (i + 1);
    assert BlockTweak(n, i, code * Pow2(120)) == TWO64 * hi + position;
    DivModUnique(BlockTweak(n, i, code * Pow2(120)), TWO64, hi, position);
  }

  // One block of the code is one block of the standard.
  lemma BlockIsStandard(h: Block8, b: seq<Byte>, tweak: nat, t0: Word64, t1: Word64)
    requires |b| == 64 && tweak < TWO64 * TWO64 && t0 == tweak % TWO64 && t1 == tweak / TWO64
    ensures Skein.Ubi(h, t0, t1, b) == FeedForward(Cipher(h, tweak, WordsOfBlock(b)), WordsOfBlock(b))
  {
    hide Cipher, Encrypt, Skein.KeyWords, Skein.TweakWords, WordAt, Skein.Get64, Xor;
    var w := WordsOfBlock(b);
    forall i | 0 <= i < 8
      ensures Skein.Get64(b[8 * i..8 * i + 8]) == w[i]
    {
      WordIs(b, i);
    }
    assert Skein.BlockWords(b) == w;
    CipherIsStandard(w, h, tweak);
  }

  lemma WordIs(b: seq<Byte>, i: nat)
    requires |b| == 64 && i < 8
    ensures WordAt(b, i) == Skein.Get64(b[8 * i..8 * i + 8])
  {
    hide ToInt, Skein.Get64;
    EightBytes(b[8 * i..8 * i + 8]);
  }

  const MSG_FLAGS := Skein.FLAG_FIRST + Skein.TYPE_MSG

  lemma FlagWords(k: nat)
    ensures Skein.FlagsAt(MSG_FLAGS, k) == 48 * 0x100_0000_0000_0000 + if k == 0 then Skein.FLAG_FIRST else 0
    ensures Skein.SetFinal(Skein.FlagsAt(MSG_FLAGS, k)) == Skein.FlagsAt(MSG_FLAGS, k) + Skein.FLAG_FINAL
  {
  }

  // The whole blocks before the last are chained as UBI does.
  lemma {:induction false} ChainIsStandard(g: Block8, m: seq<Byte>, k: nat)
    requires |m| < TWO64 && k <= Skein.FullBlocks(|m|)
    ensures k < Blocks64(|m|) && 64 * k <= |m|
    ensures Skein.Chain(g, MSG_FLAGS, m, k) == UbiChain(g, m, T_MSG, k)
  {
    hide Skein.Ubi, Cipher, WordsOfBlock, FeedForward, BlockTweak, Skein.FlagsAt, Pow2;
    if k > 0 {
      ChainIsStandard(g, m, k - 1);
      var b := Skein.Chain(g, MSG_FLAGS, m, k - 1);
      TweakParts(|m|, k - 1, 48);
      FlagWords(k - 1);
      assert PaddedBlock(m, k - 1) == Block(m, k - 1);
      BlockIsStandard(b, Block(m, k - 1), BlockTweak(|m|, k - 1, T_MSG), 64 * k, Skein.FlagsAt(MSG_FLAGS, k - 1));
    }
  }

  // The chaining value of a message is UBI of it with the message type.
  lemma MessageIsStandard(g: Block8, m: seq<Byte>)
    requires |m| < TWO64
    ensures Skein.MessageChain(g, MSG_FLAGS, m) == Ubi(g, m, T_MSG)
  {
    hide Skein.Ubi, Cipher, WordsOfBlock, FeedForward, BlockTweak, Skein.FlagsAt, Skein.SetFinal, Skein.Chain, Pow2;
    var n := Skein.FullBlocks(|m|);
    ChainIsStandard(g, m, n);
    TweakParts(|m|, n, 48);
    FlagWords(n);
    assert n == Blocks64(|m|) - 1 && |m| <= 64 * (n + 1);
    assert PaddedBlock(m, n) == Skein.LastBlock(m);
    BlockIsStandard(Skein.Chain(g, MSG_FLAGS, m, n), Skein.LastBlock(m), BlockTweak(|m|, n, T_MSG), |m|,
                    Skein.SetFinal(Skein.FlagsAt(MSG_FLAGS, n)));
  }

  // A number is what its digits in base 256 spell: q1 to q7 are what is left after each.
  lemma SpeltByDigits(b: seq<Byte>, w: nat, q1: nat, q2: nat, q3: nat, q4: nat, q5: nat, q6: nat, q7: nat)
    requires |b| == 8
    requires w == 0x100 * q1 + b[0] && q1 == 0x100 * q2 + b[1] && q2 == 0x100 * q3 + b[2] && q3 == 0x100 * q4 + b[3]
    requires q4 == 0x100 * q5 + b[4] && q5 == 0x100 * q6 + b[5] && q6 == 0x100 * q7 + b[6] && q7 == b[7]
    ensures ToInt(b) == w
  {
    hide ToInt;
    EightBytes(b);
  }

  lemma LowDigits(w: Word64, b: seq<Byte>)
    requires b == Skein.Put64(w)
    ensures w == 0x100 * (w / 0x100) + b[0] && w / 0x100 == 0x100 * (w / 0x1_0000) + b[1]
    ensures w / 0x1_0000 == 0x100 * (w / 0x100_0000) + b[2] && w / 0x100_0000 == 0x100 * (w / 0x1_0000_0000) + b[3]
  {
    QuotientStep(w, 0x100, w / 0x1_0000);
    QuotientStep(w, 0x1_0000, w / 0x100_0000);
    QuotientStep(w, 0x100_0000, w / 0x1_0000_0000);
  }

  lemma HighDigits(w: Word64, b: seq<Byte>)
    requires b == Skein.Put64(w)
    ensures w / 0x1_0000_0000 == 0x100 * (w / 0x100_0000_0000) + b[4]
    ensures w / 0x100_0000_0000 == 0x100 * (w / 0x1_0000_0000_0000) + b[5]
    ensures w / 0x1_0000_0000_0000 == 0x100 * (w / 0x100_0000_0000_0000) + b[6]
    ensures w / 0x100_0000_0000_0000 == b[7]
  {
    QuotientStep(w, 0x1_0000_0000, w / 0x100_0000_0000);
    QuotientStep(w, 0x100_0000_0000, w / 0x1_0000_0000_0000);
    QuotientStep(w, 0x1_0000_0000_0000, w / 0x100_0000_0000_0000);
  }

  lemma CounterBytes(w: Word64)
    ensures ToInt(Skein.Put64(w)) == w
  {
    hide *;
    LowDigits(w, Skein.Put64(w));
    HighDigits(w, Skein.Put64(w));
    SpeltByDigits(Skein.Put64(w), w, w / 0x100, w / 0x1_0000, w / 0x100_0000, w / 0x1_0000_0000, w / 0x100_0000_0000,
                  w / 0x1_0000_0000_0000, w / 0x100_0000_0000_0000);
  }

  // The next digit in base 256.
  lemma QuotientStep(w: nat, d: nat, q: nat)
    requires d > 0 && q == w / (d * 0x100)
    ensures w / d == 0x100 * q + w / d % 0x100
  {
    var a, r := w / d, w % d;
    var h, l := a / 0x100, a % 0x100;
    assert w == d * a + r && a == 0x100 * h + l;
    assert d * a == d * (0x100 * h) + d * l;
    assert d * (0x100 * h) == (d * 0x100) * h;
    MulMonotone(d, l + 1, 0x100);
    assert d * (l + 1) == d * l + d;
    DivModUnique(w, d * 0x100, h, d * l + r);
  }

  // Section 3.5.2: output block i is UBI of the counter in eight bytes with the output type.
  lemma OutputIsStandard(x: Block8, i: Word64)
    ensures Skein.OutputBlock(x, i) == Ubi(x, Skein.Put64(i), T_OUT) && ToInt(Skein.Put64(i)) == i
  {
    CounterBytes(i);
    hide Skein.Ubi, Cipher, WordsOfBlock, FeedForward, BlockTweak, Skein.Put64, Pow2, ToInt;
    var m := Skein.Put64(i);
    TweakParts(8, 0, 63);
    assert PaddedBlock(m, 0) == m + Zeros(56);
    BlockIsStandard(x, m + Zeros(56), BlockTweak(8, 0, T_OUT), 8,
                    Skein.FLAG_FIRST + Skein.TYPE_OUT + Skein.FLAG_FINAL);
    assert UbiChain(x, m, T_OUT, 0) == x;
  }

  // Word k of an output block is spelt by eight of its bytes.
  lemma OutputBytes(x: Block8, k: nat)
    requires k < 8
    ensures ToInt(Skein.BlockBytes(x)[8 * k..8 * k + 8]) == x[k]
  {
    hide Skein.Put64, ToInt;
    CounterBytes(x[k]);
    assert Skein.BlockBytes(x)[8 * k..8 * k + 8] == Skein.Put64(x[k]);
  }

  lemma {:induction false} OutputBlockAt(x: Block8, n: nat, i: nat)
    requires i < n
    ensures Skein.OutputBlocks(x, n)[64 * i..64 * i + 64] == Skein.BlockBytes(Skein.OutputBlock(x, i))
    decreases n
  {
    hide Skein.OutputBlock, Skein.BlockBytes;
    var front, last := Skein.OutputBlocks(x, n - 1), Skein.BlockBytes(Skein.OutputBlock(x, n - 1));
    if i < n - 1 {
      OutputBlockAt(x, n - 1, i);
      assert (front + last)[64 * i..64 * i + 64] == front[64 * i..64 * i + 64];
    }
  }

  // The hash of a message, block by block of the output: the last block is cut to the length asked for.
  lemma HashIsStandard(g: Block8, m: seq<Byte>, n: nat, i: Word64)
    requires |m| < TWO64 && 64 * i < n
    ensures var h := Skein.Output(Skein.MessageChain(g, MSG_FLAGS, m), n);
            var end := if 64 * i + 64 <= n then 64 * i + 64 else n;
            |h| == n && h[64 * i..end] == Skein.BlockBytes(Ubi(Ubi(g, m, T_MSG), Skein.Put64(i), T_OUT))[..end - 64 * i]
  {
    hide Skein.OutputBlock, Skein.BlockBytes, Skein.Put64, Skein.MessageChain, Ubi, Skein.OutputBlocks;
    var x, blocks := Skein.MessageChain(g, MSG_FLAGS, m), Skein.BlockCount(n);
    MessageIsStandard(g, m);
    OutputIsStandard(x, i);
    assert i < blocks && n <= 64 * blocks;
    OutputBlockAt(x, blocks, i);
    CutSlice(Skein.OutputBlocks(x, blocks), n, 64 * i, if 64 * i + 64 <= n then 64 * i + 64 else n);
  }

  lemma CutSlice(all: seq<Byte>, n: nat, from: nat, end: nat)
    requires from <= end <= n <= |all| && end <= from + 64 <= |all|
    ensures all[..n][from..end] == all[from..from + 64][..end - from]
  {
  }
}
