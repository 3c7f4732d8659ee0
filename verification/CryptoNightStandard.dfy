// CryptoNight as its standard CNS008 describes it, block by block of the scratchpad and on two
// 16-byte variables, and proofs that the function the code is proved against is the same.
module CryptoNightStandard {
  import opened Words
  import opened CryptoNight
  import opened Multiply

  // ---------------------------------------------------------------- scratchpad initialization

  // Block j of bytes 64 to 191 of the Keccak state.
  function Text(h: State, j: nat): Block
    requires j < 8
  {
    Block(h[8 + 2 * j], h[9 + 2 * j])
  }

  // The first r rounds of passes of ten.
  function Encrypted(p: Primitives, keys: RoundKeys, b: Block, r: nat): Block {
    if r == 0 then b else p.aesEnc(Encrypted(p, keys, b, r - 1), keys[(r - 1) % 10])
  }

  // Bytes 32k to 32k + 31 expanded into ten round keys.
  function Keys(p: Primitives, h: State, k: nat): RoundKeys
    requires k < 2
  {
    p.expandKey(Block(h[4 * k], h[4 * k + 1]), Block(h[4 * k + 2], h[4 * k + 3]))
  }

  // Block i of the scratchpad: its text block encrypted once more than the one eight before it.
  function Initial(p: Primitives, h: State, i: nat): Block {
    Encrypted(p, Keys(p, h, 0), Text(h, i % 8), 10 * (i / 8 + 1))
  }

  // ---------------------------------------------------------------- memory-hard loop

  datatype Variables = Variables(pad: seq<Block>, a: Block, b: Block)

  function XorOf(x: Block, y: Block): Block {
    Block(Xor64(x.lo, y.lo), Xor64(x.hi, y.hi))
  }

  // 8byte_add: both halves added modulo 2^64.
  function EightByteAdd(x: Block, y: Block): Block {
    Block((x.lo + y.lo) % TWO64, (x.hi + y.hi) % TWO64)
  }

  // 8byte_mul: the product of the first halves, with its own halves swapped.
  function EightByteMul(x: Block, y: Block): Block {
    MulBounds(x.lo, y.lo, TWO64 - 1, TWO64 - 1);
    var product := x.lo * y.lo;
    Block(product / TWO64, product % TWO64)
  }

  // to_scratchpad_address, as a block number.
  function Address(c: Config, a: Block): (s: nat)
    ensures s < c.Blocks()
  {
    AccessInLane(c, a.lo);
    And(a.lo, c.mask) / 16
  }

  lemma OnesHalved(x: nat, p: nat)
    requires p > 0
    ensures (2 * p - 1) / 2 == p - 1 && (2 * p - 1) % 2 == 1
    ensures x % (2 * p) == 2 * (x / 2 % p) + x % 2
  {
    var q, r := x / 2 / p, x / 2 % p;
    assert x / 2 == p * q + r;
    assert 2 * (p * q) == (2 * p) * q;
    DivModUnique(x, 2 * p, q, 2 * r + x % 2);
  }

  lemma {:induction false} AndOnes(x: nat, n: nat)
    ensures And(x, Pow2(n) - 1) == x % Pow2(n)
    decreases n
  {
    hide And;
    if n == 0 {
      AndZero(x);
    } else {
      AndOnes(x / 2, n - 1);
      OnesHalved(x, Pow2(n - 1));
      AndStep(x, Pow2(n) - 1);
    }
  }

  lemma AndDouble(x: nat, m: nat)
    ensures And(x, 2 * m) == 2 * And(x / 2, m)
  {
    hide And;
    var d := 2 * m;
    assert d / 2 == m && d % 2 == 0;
    if m == 0 {
      AndZero(x);
      AndZero(x / 2);
    } else {
      AndStep(x, d);
    }
  }

  lemma AndZero(x: nat)
    ensures And(x, 0) == 0
  {
  }

  lemma AndStep(x: nat, m: nat)
    requires m > 0
    ensures And(x, m) == 2 * And(x / 2, m / 2) + (if x % 2 == 1 && m % 2 == 1 then 1 else 0)
  {
  }

  lemma Powers()
    ensures Pow2(16) == 0x1_0000 && Pow2(17) == 0x2_0000 && Pow2(20) == 0x10_0000 && Pow2(21) == 0x20_0000
  {
    assert Pow2(8) == 0x100;
    assert Pow2(16) == 0x1_0000;
    assert Pow2(17) == 0x2_0000;
    assert Pow2(18) == 0x4_0000;
    assert Pow2(19) == 0x8_0000;
    assert Pow2(20) == 0x10_0000;
  }

  // The masks reduce a block number to the blocks of the scratchpad, which are 2 MiB in the standard and half
  // of that in the light variant, and every fourth byte of it makes an iteration.
  lemma MaskedAddress(x: nat)
    ensures And(x, STANDARD.mask) == x / 16 % STANDARD.Blocks() * 16
    ensures And(x, LITE.mask) == x / 16 % LITE.Blocks() * 16
    ensures STANDARD.mem == Pow2(21) == 4 * STANDARD.iterations && LITE.mem == Pow2(20) == 4 * LITE.iterations
  {
    hide And, Pow2;
    Powers();
    AndOnes(x / 16, 16);
    AndOnes(x / 16, 17);
    FourDoubles(x, 0x1_FFFF);
    FourDoubles(x, 0xFFFF);
  }

  lemma HalvedFourTimes(x: nat)
    ensures x / 2 / 2 / 2 / 2 == x / 16
  {
    var q := x / 2 / 2 / 2 / 2;
    DivModUnique(x, 16, q, x - 16 * q);
  }

  lemma FourDoubles(x: nat, m: nat)
    ensures And(x, 16 * m) == 16 * And(x / 16, m)
  {
    hide *;
    HalvedFourTimes(x);
    FourHalvings(x, x / 2, x / 2 / 2, x / 2 / 2 / 2, x / 16, m);
  }

  lemma FourHalvings(x: nat, x1: nat, x2: nat, x3: nat, x4: nat, m: nat)
    requires x1 == x / 2 && x2 == x1 / 2 && x3 == x2 / 2 && x4 == x3 / 2
    ensures And(x, 16 * m) == 16 * And(x4, m)
  {
    hide *;
    AndDouble(x, 8 * m);
    AndDouble(x1, 4 * m);
    AndDouble(x2, 2 * m);
    AndDouble(x3, m);
  }

  // Bytes 0 to 31 and 32 to 63 of the state xored together make a and b.
  function Start(p: Primitives, c: Config, h: State): (v: Variables)
    ensures |v.pad| == c.Blocks()
  {
    Variables(seq(c.Blocks(), i requires 0 <= i < c.Blocks() => Initial(p, h, i)),
              XorOf(Block(h[0], h[1]), Block(h[4], h[5])), XorOf(Block(h[2], h[3]), Block(h[6], h[7])))
  }

  // One iteration: the block that a addresses is encrypted under a and written back xored with b;
  // b becomes the encrypted block; its product with the block it addresses is added to a, and a
  // is exchanged with that block and xored with it.
  function Iteration(p: Primitives, c: Config, v: Variables): (w: Variables)
    requires |v.pad| == c.Blocks()
    ensures |w.pad| == c.Blocks()
  {
    var s := Address(c, v.a);
    var cx := p.aesEnc(v.pad[s], v.a);
    var pad := v.pad[s := XorOf(v.b, cx)];
    var t := Address(c, cx);
    var sum := EightByteAdd(v.a, EightByteMul(cx, pad[t]));
    Variables(pad[t := sum], XorOf(sum, pad[t]), cx)
  }

  function Loop(p: Primitives, c: Config, v: Variables, n: nat): (w: Variables)
    requires |v.pad| == c.Blocks()
    ensures |w.pad| == c.Blocks()
  {
    if n == 0 then v else Iteration(p, c, Loop(p, c, v, n - 1))
  }

  // ---------------------------------------------------------------- result calculation

  // Text block j after taking in n blocks of the scratchpad, eight apart.
  function Folded(p: Primitives, h: State, pad: seq<Block>, j: nat, n: nat): Block
    requires j < 8 && 8 * n <= |pad|
  {
    if n == 0 then Text(h, j)
    else Encrypted(p, Keys(p, h, 1), XorOf(pad[8 * (n - 1) + j], Folded(p, h, pad, j, n - 1)), 10)
  }

  // The state with the folded text in bytes 64 to 191.
  function WithText(p: Primitives, h: State, pad: seq<Block>): State {
    var n := |pad| / 8;
    var s: seq<Word64> := seq(25, i requires 0 <= i < 25 =>
      if 8 <= i < 24 then
        if i % 2 == 0 then Folded(p, h, pad, (i - 8) / 2, n).lo else Folded(p, h, pad, (i - 8) / 2, n).hi
      else h[i]);
    s
  }

  // The hash: the last two bits of the first byte choose the final function.
  function Hash(p: Primitives, c: Config, input: seq<u8>): Digest {
    var h := p.keccak(input);
    var last := p.permute(WithText(p, h, Loop(p, c, Start(p, c, h), c.iterations).pad));
    p.finish(last[0] % 4, last)
  }

  // ---------------------------------------------------------------- the code's function is this one

  lemma {:induction false} RoundsAreStandard(p: Primitives, keys: RoundKeys, x: Batch, b: Batch, r: nat, n: nat, j: nat)
    requires j < 8 && n <= 10 && r % 10 == 0 && b[j] == Encrypted(p, keys, x[j], r)
    ensures AesRounds(p, keys, b, n)[j] == Encrypted(p, keys, x[j], r + n)
    decreases n
  {
    if n > 0 {
      RoundsAreStandard(p, keys, x, b, r, n - 1, j);
      DivModUnique(r + n - 1, 10, r / 10, n - 1);
    }
  }

  lemma {:induction false} ExplodedIsStandard(p: Primitives, keys: RoundKeys, x: Batch, n: nat, j: nat)
    requires j < 8
    ensures Exploded(p, keys, x, n)[j] == Encrypted(p, keys, x[j], 10 * n)
  {
    hide AesRounds, Encrypted;
    if n == 0 {
      NoRounds(p, keys, x[j]);
    } else {
      ExplodedIsStandard(p, keys, x, n - 1, j);
      DivModUnique(10 * (n - 1), 10, n - 1, 0);
      RoundsAreStandard(p, keys, x, Exploded(p, keys, x, n - 1), 10 * (n - 1), 10, j);
    }
  }

  lemma NoRounds(p: Primitives, keys: RoundKeys, b: Block)
    ensures Encrypted(p, keys, b, 0) == b
  {
  }

  lemma {:induction false} PadIsStandard(p: Primitives, keys: RoundKeys, x: Batch, n: nat, i: nat)
    requires i < 8 * n
    ensures ExplodedPad(p, keys, x, n)[i] == Encrypted(p, keys, x[i % 8], 10 * (i / 8 + 1))
  {
    hide Exploded, Encrypted;
    if i < 8 * (n - 1) {
      PadIsStandard(p, keys, x, n - 1, i);
    } else {
      var j := i - 8 * (n - 1);
      DivModUnique(i, 8, n - 1, j);
      ExplodedIsStandard(p, keys, x, n, j);
    }
  }

  // A lane between iterations, as the variables of the standard.
  function AsVariables(l: Lane): Variables {
    Variables(l.pad, Block(l.al, l.ah), l.bx)
  }

  lemma StartIsStandard(p: Primitives, c: Config, h: State)
    ensures var l := StartLane(p, c, h); AsVariables(l) == Start(p, c, h) && l.idx == l.al
  {
    hide ExplodedPad, Initial;
    var pad := StartLane(p, c, h).pad;
    assert c.Blocks() == 8 * (c.Blocks() / 8);
    forall i | 0 <= i < c.Blocks()
      ensures pad[i] == Initial(p, h, i)
    {
      InitialBlock(p, c, h, i);
    }
    assert pad == Start(p, c, h).pad;
  }

  lemma InitialBlock(p: Primitives, c: Config, h: State, i: nat)
    requires i < c.Blocks() == 8 * (c.Blocks() / 8)
    ensures StartLane(p, c, h).pad[i] == Initial(p, h, i)
  {
    hide ExplodedPad, Encrypted;
    var keys := p.expandKey(StateBlock(h, 0), StateBlock(h, 1));
    PadIsStandard(p, keys, TextBlocks(h), c.Blocks() / 8, i);
    assert TextBlocks(h)[i % 8] == Text(h, i % 8);
  }

  lemma SecondHalf(c: Config, l: Lane)
    requires |l.pad| == c.Blocks() && l.idx == l.bx.lo
    ensures var r, t := MultiplyStep(c, l), Address(c, l.bx);
            var sum := EightByteAdd(Block(l.al, l.ah), EightByteMul(l.bx, l.pad[t]));
            AsVariables(r) == Variables(l.pad[t := sum], XorOf(sum, l.pad[t]), l.bx) && r.idx == r.al
  {
    hide Xor64, And;
  }

  // Both halves of an iteration of the code make one iteration of the standard.
  lemma IterationIsStandard(p: Primitives, c: Config, l: Lane)
    requires |l.pad| == c.Blocks() && l.idx == l.al
    ensures var r := MultiplyStep(c, EncryptStep(p, c, l));
            AsVariables(r) == Iteration(p, c, AsVariables(l)) && r.idx == r.al
  {
    hide Xor64, And, MultiplyStep, EightByteAdd, EightByteMul;
    SecondHalf(c, EncryptStep(p, c, l));
  }

  lemma {:induction false} LoopIsStandard(p: Primitives, c: Config, l: Lane, n: nat)
    requires |l.pad| == c.Blocks() && l.idx == l.al
    ensures var r := RunLane(p, c, l, n); AsVariables(r) == Loop(p, c, AsVariables(l), n) && r.idx == r.al
  {
    hide MultiplyStep, EncryptStep, Iteration;
    if n > 0 {
      LoopIsStandard(p, c, l, n - 1);
      IterationIsStandard(p, c, RunLane(p, c, l, n - 1));
    }
  }

  lemma {:induction false} ImplodedIsStandard(p: Primitives, h: State, pad: seq<Block>, n: nat, j: nat)
    requires j < 8 && 8 * n <= |pad|
    ensures Imploded(p, p.expandKey(StateBlock(h, 2), StateBlock(h, 3)), pad, TextBlocks(h), n)[j]
         == Folded(p, h, pad, j, n)
  {
    hide AesRounds, Encrypted;
    var keys := p.expandKey(StateBlock(h, 2), StateBlock(h, 3));
    if n > 0 {
      ImplodedIsStandard(p, h, pad, n - 1, j);
      var x := XorBatch(pad[8 * (n - 1)..8 * n], Imploded(p, keys, pad, TextBlocks(h), n - 1));
      NoRounds(p, keys, x[j]);
      RoundsAreStandard(p, keys, x, x, 0, 10, j);
      assert x[j] == XorOf(pad[8 * (n - 1) + j], Folded(p, h, pad, j, n - 1));
    }
  }

  lemma TextIsStandard(p: Primitives, h: State, pad: seq<Block>)
    ensures ImplodedState(p, h, pad) == WithText(p, h, pad)
  {
    hide Imploded, Folded;
    var r, s := ImplodedState(p, h, pad), WithText(p, h, pad);
    forall i | 0 <= i < 25
      ensures r[i] == s[i]
    {
      if 8 <= i < 24 {
        ImplodedIsStandard(p, h, pad, |pad| / 8, (i - 8) / 2);
      }
    }
  }

  lemma LastTwoBits(x: nat)
    ensures And(x, 3) == x % 4
  {
    assert And(x / 2, 1) == x / 2 % 2;
  }

  // The hash that every form of the code computes is CryptoNight.
  lemma HashIsStandard(p: Primitives, c: Config, input: seq<u8>)
    ensures OneHash(p, c, input) == Hash(p, c, input)
  {
    hide RunLane, Loop, StartLane, Start, ImplodedState, WithText, And;
    var h := p.keccak(input);
    StartIsStandard(p, c, h);
    LoopIsStandard(p, c, StartLane(p, c, h), c.iterations);
    var pad := RunLane(p, c, StartLane(p, c, h), c.iterations).pad;
    TextIsStandard(p, h, pad);
    LastTwoBits(FinalState(p, h, pad)[0]);
  }
}
