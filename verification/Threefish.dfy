// Threefish-512, the block cipher inside Skein: its rounds and key injections as functions with
// an inverse, and the two forms the source can be compiled to.
module Threefish {
  import opened Words

  type Block8 = s: seq<Word64> | |s| == 8 witness seq(8, _ => 0)
  type Key9 = s: seq<Word64> | |s| == 9 witness seq(9, _ => 0)
  type Tweak3 = s: seq<Word64> | |s| == 3 witness seq(3, _ => 0)

  // ---------------------------------------------------------------- one mix

  // a += b; b = rotl(b, r); b ^= a.
  function MixWords(a: Word64, b: Word64, r: nat): (Word64, Word64)
    requires r < 64
  {
    (Add64(a, b), Xor64(RotL(b, r), Add64(a, b)))
  }

  function UnmixWords(a: Word64, b: Word64, r: nat): (Word64, Word64)
    requires r < 64
  {
    (Sub64(a, RotR(Xor64(b, a), r)), RotR(Xor64(b, a), r))
  }

  lemma Xor64Cancels(x: Word64, y: Word64)
    ensures Xor64(Xor64(x, y), y) == x
  {
    XorCancels(x, y);
  }

  lemma WordsInverse(a: Word64, b: Word64, r: nat)
    requires r < 64
    ensures UnmixWords(MixWords(a, b, r).0, MixWords(a, b, r).1, r) == (a, b)
    ensures MixWords(UnmixWords(a, b, r).0, UnmixWords(a, b, r).1, r) == (a, b)
  {
    hide Add64, Sub64, Xor64, RotL, RotR;
    Xor64Cancels(RotL(b, r), Add64(a, b));
    RotCancels(b, r);
    AddCancels(a, b);
    RotCancels(Xor64(b, a), r);
    Xor64Cancels(b, a);
    AddCancels(a, RotR(Xor64(b, a), r));
  }

  // A mix of words i and j.
  function Mix(x: Block8, i: nat, j: nat, r: nat): Block8
    requires i < 8 && j < 8 && i != j && r < 64
  {
    var m := MixWords(x[i], x[j], r);
    x[i := m.0][j := m.1]
  }

  function Unmix(x: Block8, i: nat, j: nat, r: nat): Block8
    requires i < 8 && j < 8 && i != j && r < 64
  {
    var m := UnmixWords(x[i], x[j], r);
    x[i := m.0][j := m.1]
  }

  lemma MixInverse(x: Block8, i: nat, j: nat, r: nat)
    requires i < 8 && j < 8 && i != j && r < 64
    ensures Unmix(Mix(x, i, j, r), i, j, r) == x && Mix(Unmix(x, i, j, r), i, j, r) == x
  {
    hide MixWords, UnmixWords;
    WordsInverse(x[i], x[j], r);
  }

  // ---------------------------------------------------------------- rounds

  // The rotation constants of the eight rounds, four mixes each.
  const ROTATIONS: seq<seq<nat>> := [
    [46, 36, 19, 37], [33, 27, 14, 42], [17, 49, 36, 39], [44, 9, 54, 56],
    [39, 30, 34, 24], [13, 50, 10, 17], [25, 29, 39, 43], [8, 35, 56, 22]]

  // The word positions of the four mixes, repeating every four rounds.
  const POSITIONS: seq<seq<nat>> := [
    [0, 1, 2, 3, 4, 5, 6, 7], [2, 1, 4, 7, 6, 5, 0, 3],
    [4, 1, 6, 3, 0, 5, 2, 7], [6, 1, 0, 7, 2, 5, 4, 3]]

  function Rotation(d: nat, q: nat): (r: nat)
    requires d < 8 && q < 4
    ensures r < 64
  {
    ROTATIONS[d][q]
  }

  // The two words of mix q of round d.
  function Pair(d: nat, q: nat): (p: (nat, nat))
    requires d < 8 && q < 4
    ensures p.0 < 8 && p.1 < 8 && p.0 != p.1
  {
    (POSITIONS[d % 4][2 * q], POSITIONS[d % 4][2 * q + 1])
  }

  function MixAt(x: Block8, d: nat, q: nat): Block8
    requires d < 8 && q < 4
  {
    Mix(x, Pair(d, q).0, Pair(d, q).1, Rotation(d, q))
  }

  function UnmixAt(x: Block8, d: nat, q: nat): Block8
    requires d < 8 && q < 4
  {
    Unmix(x, Pair(d, q).0, Pair(d, q).1, Rotation(d, q))
  }

  lemma MixAtInverse(x: Block8, d: nat, q: nat)
    requires d < 8 && q < 4
    ensures UnmixAt(MixAt(x, d, q), d, q) == x && MixAt(UnmixAt(x, d, q), d, q) == x
  {
    hide Mix, Unmix, Pair, Rotation;
    MixInverse(x, Pair(d, q).0, Pair(d, q).1, Rotation(d, q));
  }

  // The first n mixes of round d, and the same undone.
  function Mixes(x: Block8, d: nat, n: nat): Block8
    requires d < 8 && n <= 4
    decreases n
  {
    if n == 0 then x else MixAt(Mixes(x, d, n - 1), d, n - 1)
  }

  function Unmixes(x: Block8, d: nat, n: nat): Block8
    requires d < 8 && n <= 4
    decreases n
  {
    if n == 0 then x else Unmixes(UnmixAt(x, d, n - 1), d, n - 1)
  }

  lemma {:induction false} MixesInverse(x: Block8, d: nat, n: nat)
    requires d < 8 && n <= 4
    ensures Unmixes(Mixes(x, d, n), d, n) == x && Mixes(Unmixes(x, d, n), d, n) == x
    decreases n
  {
    hide MixAt, UnmixAt;
    if n > 0 {
      MixAtInverse(Mixes(x, d, n - 1), d, n - 1);
      MixesInverse(x, d, n - 1);
      MixAtInverse(x, d, n - 1);
      MixesInverse(UnmixAt(x, d, n - 1), d, n - 1);
    }
  }

  // Four rounds; the rotation constants alternate between the first and the second four.
  function FourRounds(x: Block8, odd: bool): Block8 {
    var d := if odd then 4 else 0;
    Mixes(Mixes(Mixes(Mixes(x, d, 4), d + 1, 4), d + 2, 4), d + 3, 4)
  }

  function UnFourRounds(x: Block8, odd: bool): Block8 {
    var d := if odd then 4 else 0;
    Unmixes(Unmixes(Unmixes(Unmixes(x, d + 3, 4), d + 2, 4), d + 1, 4), d, 4)
  }

  lemma FourRoundsInverse(x: Block8, odd: bool)
    ensures UnFourRounds(FourRounds(x, odd), odd) == x && FourRounds(UnFourRounds(x, odd), odd) == x
  {
    hide Mixes, Unmixes;
    var d := if odd then 4 else 0;
    var x1 := Mixes(x, d, 4);
    var x2 := Mixes(x1, d + 1, 4);
    var x3 := Mixes(x2, d + 2, 4);
    MixesInverse(x, d, 4);
    MixesInverse(x1, d + 1, 4);
    MixesInverse(x2, d + 2, 4);
    MixesInverse(x3, d + 3, 4);
    var y3 := Unmixes(x, d + 3, 4);
    var y2 := Unmixes(y3, d + 2, 4);
    var y1 := Unmixes(y2, d + 1, 4);
    MixesInverse(x, d + 3, 4);
    MixesInverse(y3, d + 2, 4);
    MixesInverse(y2, d + 1, 4);
    MixesInverse(y1, d, 4);
  }

  // ---------------------------------------------------------------- key injections

  // Word i of subkey s.
  function SubkeyWord(key: Key9, tweak: Tweak3, s: nat, i: nat): Word64
    requires i < 8 && s < TWO64
  {
    var k := key[(s + i) % 9];
    if i == 5 then Add64(k, tweak[s % 3])
    else if i == 6 then Add64(k, tweak[(s + 1) % 3])
    else if i == 7 then Add64(k, s)
    else k
  }

  function Inject(x: Block8, key: Key9, tweak: Tweak3, s: nat): Block8
    requires s < TWO64
  {
    var r: seq<Word64> := seq(8, i requires 0 <= i < 8 => Add64(x[i], SubkeyWord(key, tweak, s, i)));
    r
  }

  function Uninject(x: Block8, key: Key9, tweak: Tweak3, s: nat): Block8
    requires s < TWO64
  {
    var r: seq<Word64> := seq(8, i requires 0 <= i < 8 => Sub64(x[i], SubkeyWord(key, tweak, s, i)));
    r
  }

  lemma InjectInverse(x: Block8, key: Key9, tweak: Tweak3, s: nat)
    requires s < TWO64
    ensures Uninject(Inject(x, key, tweak, s), key, tweak, s) == x
    ensures Inject(Uninject(x, key, tweak, s), key, tweak, s) == x
  {
    hide Add64, Sub64, SubkeyWord;
    forall i | 0 <= i < 8
      ensures Uninject(Inject(x, key, tweak, s), key, tweak, s)[i] == x[i]
      ensures Inject(Uninject(x, key, tweak, s), key, tweak, s)[i] == x[i]
    {
      AddCancels(x[i], SubkeyWord(key, tweak, s, i));
    }
  }

  // The cipher up to and including key injection n, of 18 after the first.
  function Encrypt(w: Block8, key: Key9, tweak: Tweak3, n: nat): Block8
    requires n <= 18
  {
    if n == 0 then Inject(w, key, tweak, 0)
    else Inject(FourRounds(Encrypt(w, key, tweak, n - 1), n % 2 == 0), key, tweak, n)
  }

  function Decrypt(x: Block8, key: Key9, tweak: Tweak3, n: nat): Block8
    requires n <= 18
    decreases n
  {
    if n == 0 then Uninject(x, key, tweak, 0)
    else Decrypt(UnFourRounds(Uninject(x, key, tweak, n), n % 2 == 0), key, tweak, n - 1)
  }

  // For every key and tweak the rounds and injections permute the blocks.
  lemma {:induction false} CipherInverse(w: Block8, key: Key9, tweak: Tweak3, n: nat)
    requires n <= 18
    ensures Decrypt(Encrypt(w, key, tweak, n), key, tweak, n) == w
    ensures Encrypt(Decrypt(w, key, tweak, n), key, tweak, n) == w
    decreases n
  {
    hide Inject, Uninject, FourRounds, UnFourRounds;
    if n == 0 {
      InjectInverse(w, key, tweak, 0);
    } else {
      var odd := n % 2 == 0;
      var x := Encrypt(w, key, tweak, n - 1);
      InjectInverse(FourRounds(x, odd), key, tweak, n);
      FourRoundsInverse(x, odd);
      CipherInverse(w, key, tweak, n - 1);
      var y := Uninject(w, key, tweak, n);
      InjectInverse(w, key, tweak, n);
      FourRoundsInverse(y, odd);
      CipherInverse(UnFourRounds(y, odd), key, tweak, n - 1);
    }
  }

  // ---------------------------------------------------------------- the two compiled forms

  // kw holds the tweak words in front of the key words.
  const KW_TWK_BASE := 0
  const KW_KEY_BASE := 3

  // The key schedule window at step s: the nine key words and the three tweak words, each
  // rotated by s, overlap the same array at distance KW_KEY_BASE.
  predicate Window(kw: seq<Word64>, key: Key9, tweak: Tweak3, s: nat) {
    && s + 12 <= |kw|
    && (forall i | s + 3 <= i < s + 12 :: kw[i] == key[(i - 3) % 9])
    && (forall i | s <= i < s + 3 :: kw[i] == tweak[i % 3])
  }

  // The words I512(R) of the unrolled form reads are those of subkey R + 1.
  lemma SubkeyUnrolled(kw: seq<Word64>, key: Key9, tweak: Tweak3, r: nat, i: nat)
    requires r < 18 && i < 8 && Window(kw, key, tweak, 0)
    ensures SubkeyWord(key, tweak, r + 1, i) ==
      var k := kw[KW_KEY_BASE + (r + 1 + i) % 9];
      if i == 5 then Add64(k, kw[KW_TWK_BASE + (r + 1) % 3])
      else if i == 6 then Add64(k, kw[KW_TWK_BASE + (r + 2) % 3])
      else if i == 7 then Add64(k, r + 1)
      else k
  {
    hide Add64;
    var j := (r + 1 + i) % 9;
    assert kw[j + 3] == key[j % 9];
  }

  // The words I512 of the looping form reads at s are those of subkey s.
  lemma SubkeyLooping(kw: seq<Word64>, key: Key9, tweak: Tweak3, s: nat, i: nat)
    requires 1 <= s <= 18 && i < 8 && Window(kw, key, tweak, s - 1)
    ensures SubkeyWord(key, tweak, s, i) ==
      var k := kw[KW_KEY_BASE + s + i];
      if i == 5 then Add64(k, kw[KW_TWK_BASE + s])
      else if i == 6 then Add64(k, kw[KW_TWK_BASE + s + 1])
      else if i == 7 then Add64(k, s)
      else k
  {
    hide Add64;
  }

  // I512(R) of the unrolled form: indices taken modulo 9 and 3.
  method InjectUnrolled(kw: array<Word64>, x: Block8, r: nat, ghost key: Key9, ghost tweak: Tweak3) returns (y: Block8)
    requires r < 18 && Window(kw[..], key, tweak, 0)
    ensures y == Inject(x, key, tweak, r + 1)
  {
    hide Add64, SubkeyWord;
    y := [
      Add64(x[0], kw[KW_KEY_BASE + (r + 1) % 9]),
      Add64(x[1], kw[KW_KEY_BASE + (r + 2) % 9]),
      Add64(x[2], kw[KW_KEY_BASE + (r + 3) % 9]),
      Add64(x[3], kw[KW_KEY_BASE + (r + 4) % 9]),
      Add64(x[4], kw[KW_KEY_BASE + (r + 5) % 9]),
      Add64(x[5], Add64(kw[KW_KEY_BASE + (r + 6) % 9], kw[KW_TWK_BASE + (r + 1) % 3])),
      Add64(x[6], Add64(kw[KW_KEY_BASE + (r + 7) % 9], kw[KW_TWK_BASE + (r + 2) % 3])),
      Add64(x[7], Add64(kw[KW_KEY_BASE + (r + 8) % 9], r + 1))];
    forall i | 0 <= i < 8 ensures y[i] == Inject(x, key, tweak, r + 1)[i] {
      SubkeyUnrolled(kw[..], key, tweak, r, i);
    }
  }

  // I512(R) of the looping form, with s for r+(R): read at s, then slide both windows one on.
  method InjectLooping(kw: array<Word64>, x: Block8, s: nat, ghost key: Key9, ghost tweak: Tweak3) returns (y: Block8)
    requires 1 <= s <= 18 && kw.Length == 30 && Window(kw[..], key, tweak, s - 1)
    modifies kw
    ensures y == Inject(x, key, tweak, s)
    ensures Window(kw[..], key, tweak, s) && kw[0] == old(kw[0]) && kw[1] == old(kw[1])
  {
    hide Add64, SubkeyWord;
    y := [
      Add64(x[0], kw[KW_KEY_BASE + s]),
      Add64(x[1], kw[KW_KEY_BASE + s + 1]),
      Add64(x[2], kw[KW_KEY_BASE + s + 2]),
      Add64(x[3], kw[KW_KEY_BASE + s + 3]),
      Add64(x[4], kw[KW_KEY_BASE + s + 4]),
      Add64(x[5], Add64(kw[KW_KEY_BASE + s + 5], kw[KW_TWK_BASE + s])),
      Add64(x[6], Add64(kw[KW_KEY_BASE + s + 6], kw[KW_TWK_BASE + s + 1])),
      Add64(x[7], Add64(kw[KW_KEY_BASE + s + 7], s))];
    forall i | 0 <= i < 8 ensures y[i] == Inject(x, key, tweak, s)[i] {
      SubkeyLooping(kw[..], key, tweak, s, i);
    }
    SlideWindow(kw, s, key, tweak);
  }

  // Each window gains the word it has just lost; the tweak window takes over a place of the key
  // window only after that word has been copied on. The first two words, which carry the tweak
  // from block to block, are never written.
  method SlideWindow(kw: array<Word64>, s: nat, ghost key: Key9, ghost tweak: Tweak3)
    requires 1 <= s <= 18 && kw.Length == 30 && Window(kw[..], key, tweak, s - 1)
    modifies kw
    ensures Window(kw[..], key, tweak, s) && kw[0] == old(kw[0]) && kw[1] == old(kw[1])
  {
    kw[KW_KEY_BASE + s + 8] := kw[KW_KEY_BASE + s - 1];
    kw[KW_TWK_BASE + s + 2] := kw[KW_TWK_BASE + s - 1];
  }

  // Two groups of four rounds with their injections.
  lemma EncryptTwice(w: Block8, key: Key9, tweak: Tweak3, n: nat)
    requires n <= 8
    ensures Encrypt(w, key, tweak, 2 * n + 2) ==
      var half := Inject(FourRounds(Encrypt(w, key, tweak, 2 * n), false), key, tweak, 2 * n + 1);
      Inject(FourRounds(half, true), key, tweak, 2 * n + 2)
  {
    hide Inject, FourRounds;
  }

  // Nine times eight rounds, every injection reading the schedule in place.
  method EncryptUnrolled(kw: array<Word64>, w: Block8, ghost key: Key9, ghost tweak: Tweak3) returns (x: Block8)
    requires kw.Length == 12 && Window(kw[..], key, tweak, 0)
    ensures x == Encrypt(w, key, tweak, 18)
  {
    hide Inject, FourRounds, Window;
    x := FirstInjection(kw, w, key, tweak);
    for n := 0 to 9
      invariant x == Encrypt(w, key, tweak, 2 * n)
    {
      EncryptTwice(w, key, tweak, n);
      x := FourRounds(x, false);
      x := InjectUnrolled(kw, x, 2 * n, key, tweak);
      x := FourRounds(x, true);
      x := InjectUnrolled(kw, x, 2 * n + 1, key, tweak);
    }
  }

  // The loop over r, its body repeated unroll times.
  method EncryptLooping(kw: array<Word64>, w: Block8, unroll: nat, ghost key: Key9, ghost tweak: Tweak3)
    returns (x: Block8)
    requires unroll > 0 && 9 % unroll == 0 && kw.Length == 30 && Window(kw[..], key, tweak, 0)
    modifies kw
    ensures x == Encrypt(w, key, tweak, 18) && kw[0] == old(kw[0]) && kw[1] == old(kw[1])
  {
    hide Inject, FourRounds, Window;
    UnrollCounts(unroll);
    x := FirstInjection(kw, w, key, tweak);
    var r := 1;
    ghost var m := 0;
    while r < 18
      invariant r == 1 + 2 * m && m <= 9 && (unroll == 1 || m == 0 || m == 9 || (unroll == 3 && (m == 3 || m == 6)))
      invariant Window(kw[..], key, tweak, 2 * m) && x == Encrypt(w, key, tweak, 2 * m)
      invariant kw[0] == old(kw[0]) && kw[1] == old(kw[1])
    {
      for n := 0 to unroll
        invariant Window(kw[..], key, tweak, 2 * (m + n)) && x == Encrypt(w, key, tweak, 2 * (m + n))
        invariant kw[0] == old(kw[0]) && kw[1] == old(kw[1])
      {
        EncryptTwice(w, key, tweak, m + n);
        x := FourRounds(x, false);
        x := InjectLooping(kw, x, r + 2 * n, key, tweak);
        x := FourRounds(x, true);
        x := InjectLooping(kw, x, r + 2 * n + 1, key, tweak);
      }
      r, m := r + 2 * unroll, m + unroll;
    }
  }

  lemma UnrollCounts(unroll: nat)
    requires unroll > 0 && 9 % unroll == 0
    ensures unroll == 1 || unroll == 3 || unroll == 9
  {
    var q := 9 / unroll;
    assert 9 == unroll * q;
    if unroll > 9 {
      DivModUnique(9, unroll, 0, 9);
    }
  }

  method FirstInjection(kw: array<Word64>, w: Block8, ghost key: Key9, ghost tweak: Tweak3) returns (x: Block8)
    requires Window(kw[..], key, tweak, 0)
    ensures x == Inject(w, key, tweak, 0)
  {
    hide Add64;
    x := [
      Add64(w[0], kw[KW_KEY_BASE]),
      Add64(w[1], kw[KW_KEY_BASE + 1]),
      Add64(w[2], kw[KW_KEY_BASE + 2]),
      Add64(w[3], kw[KW_KEY_BASE + 3]),
      Add64(w[4], kw[KW_KEY_BASE + 4]),
      Add64(w[5], Add64(kw[KW_KEY_BASE + 5], kw[KW_TWK_BASE])),
      Add64(w[6], Add64(kw[KW_KEY_BASE + 6], kw[KW_TWK_BASE + 1])),
      Add64(w[7], kw[KW_KEY_BASE + 7])];
    AddZero(kw[KW_KEY_BASE + 7]);
    assert x == Inject(w, key, tweak, 0);
  }

  lemma AddZero(x: Word64)
    ensures Add64(x, 0) == x
  {
  }
}
