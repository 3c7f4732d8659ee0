// The CryptoNight hash over one shared scratchpad: the specification of a single hash, and
// the three ways the miner runs several of them interleaved in one block of memory.
module CryptoNight {
  import opened Words
  import opened Collections
  import opened Multiply

  // Sixteen bytes of memory: the low and the high 64-bit word.
  datatype Block = Block(lo: Word64, hi: Word64)

  const ZERO_BLOCK := Block(0, 0)

  type State = s: seq<Word64> | |s| == 25 witness seq(25, _ => 0)  // the 200-byte Keccak state
  type Batch = s: seq<Block> | |s| == 8 witness seq(8, _ => ZERO_BLOCK)
  type RoundKeys = s: seq<Block> | |s| == 10 witness seq(10, _ => ZERO_BLOCK)
  type Digest = s: seq<u8> | |s| == 32 witness seq(32, _ => 0)

  // What the hash is built from. Every theorem here holds for any choice of these functions.
  datatype Primitives = Primitives(
    keccak: seq<u8> -> State,
    expandKey: (Block, Block) -> RoundKeys,
    aesEnc: (Block, Block) -> Block,
    permute: State -> State,
    finish: (nat, State) -> Digest)

  // The template parameters: iterations, bytes of scratchpad per hash, address mask.
  datatype RawConfig = Config(iterations: nat, mem: nat, mask: nat) {
    predicate Valid() {
      mem % 128 == 0 && mask % 16 == 0 && mask + 16 <= mem
    }

    // Scratchpad size in 16-byte blocks.
    function Blocks(): nat {
      mem / 16
    }
  }

  type Config = c: RawConfig | c.Valid() witness Config(0, 128, 0)

  // The two instantiations the miner uses are valid.
  const STANDARD: Config := Config(0x80000, 2097152, 0x1FFFF0)
  const LITE: Config := Config(0x40000, 1048576, 0xFFFF0)

  // ---------------------------------------------------------------- addressing

  // The block that byte address idx & MASK denotes.
  function Slot(c: Config, idx: Word64): (s: nat)
    ensures s < c.Blocks()
  {
    AndBound(idx, c.mask);
    And(idx, c.mask) / 16
  }

  // A masked access is aligned and its sixteen bytes lie inside the scratchpad.
  lemma AccessInLane(c: Config, idx: Word64)
    ensures And(idx, c.mask) % 16 == 0
    ensures And(idx, c.mask) + 16 <= c.mem
    ensures And(idx, c.mask) == 16 * Slot(c, idx)
  {
    AndBound(idx, c.mask);
    AndSixteen(idx, c.mask);
  }

  // ---------------------------------------------------------------- one hash

  function XorBlock(x: Block, y: Block): Block {
    Block(Xor64(x.lo, y.lo), Xor64(x.hi, y.hi))
  }

  function AesRound(p: Primitives, key: Block, x: Batch): Batch {
    var r: seq<Block> := seq(8, i requires 0 <= i < 8 => p.aesEnc(x[i], key));
    r
  }

  function AesRounds(p: Primitives, keys: RoundKeys, x: Batch, n: nat): Batch
    requires n <= 10
  {
    if n == 0 then x else AesRound(p, keys[n - 1], AesRounds(p, keys, x, n - 1))
  }

  function StateBlock(h: State, i: nat): Block
    requires i < 12
  {
    Block(h[2 * i], h[2 * i + 1])
  }

  function TextBlocks(h: State): Batch {
    seq(8, i requires 0 <= i < 8 => StateBlock(h, 4 + i))
  }

  function PutTextBlocks(h: State, x: Batch): State {
    h[..8] + seq(16, i requires 0 <= i < 16 => if i % 2 == 0 then x[i / 2].lo else x[i / 2].hi) + h[24..]
  }

  // The text blocks after n passes of ten AES rounds.
  function Exploded(p: Primitives, keys: RoundKeys, x: Batch, n: nat): Batch {
    if n == 0 then x else AesRounds(p, keys, Exploded(p, keys, x, n - 1), 10)
  }

  // The first n groups of eight blocks written to the scratchpad.
  function ExplodedPad(p: Primitives, keys: RoundKeys, x: Batch, n: nat): (pad: seq<Block>)
    ensures |pad| == 8 * n
  {
    if n == 0 then [] else ExplodedPad(p, keys, x, n - 1) + Exploded(p, keys, x, n)
  }

  function XorBatch(x: Batch, y: Batch): Batch {
    seq(8, i requires 0 <= i < 8 => XorBlock(x[i], y[i]))
  }

  // The text blocks after absorbing the first n groups of eight scratchpad blocks.
  function Imploded(p: Primitives, keys: RoundKeys, pad: seq<Block>, x: Batch, n: nat): Batch
    requires 8 * n <= |pad|
  {
    if n == 0 then x
    else AesRounds(p, keys, XorBatch(pad[8 * (n - 1)..8 * n], Imploded(p, keys, pad, x, n - 1)), 10)
  }

  // The registers and the private scratchpad of one hash.
  datatype Lane = Lane(pad: seq<Block>, al: Word64, ah: Word64, bx: Block, idx: Word64)

  function StartLane(p: Primitives, c: Config, h: State): (l: Lane)
    ensures |l.pad| == c.Blocks()
  {
    Lane(ExplodedPad(p, p.expandKey(StateBlock(h, 0), StateBlock(h, 1)), TextBlocks(h), c.Blocks() / 8),
         Xor64(h[0], h[4]), Xor64(h[1], h[5]),
         Block(Xor64(h[2], h[6]), Xor64(h[3], h[7])), Xor64(h[0], h[4]))
  }

  // First half of an iteration: one AES round on the addressed block, written back masked with bx.
  function EncryptStep(p: Primitives, c: Config, l: Lane): (r: Lane)
    requires |l.pad| == c.Blocks()
    ensures |r.pad| == c.Blocks()
  {
    var cx := p.aesEnc(l.pad[Slot(c, l.idx)], Block(l.al, l.ah));
    l.(pad := l.pad[Slot(c, l.idx) := XorBlock(l.bx, cx)], idx := cx.lo, bx := cx)
  }

  // Second half: multiply, accumulate, and exchange with the addressed block.
  function MultiplyStep(c: Config, l: Lane): (r: Lane)
    requires |l.pad| == c.Blocks()
    ensures |r.pad| == c.Blocks()
  {
    var s := Slot(c, l.idx);
    var product := UMul128(l.idx, l.pad[s].lo);
    var al, ah := Add64(l.al, product.1), Add64(l.ah, product.0);
    var al' := Xor64(al, l.pad[s].lo);
    Lane(l.pad[s := Block(al, ah)], al', Xor64(ah, l.pad[s].hi), l.bx, al')
  }

  function RunLane(p: Primitives, c: Config, l: Lane, n: nat): (r: Lane)
    requires |l.pad| == c.Blocks()
    ensures |r.pad| == c.Blocks()
  {
    if n == 0 then l else MultiplyStep(c, EncryptStep(p, c, RunLane(p, c, l, n - 1)))
  }

  // The state with a lane folded into its text blocks under the second key.
  function ImplodedState(p: Primitives, h: State, pad: seq<Block>): State {
    PutTextBlocks(h, Imploded(p, p.expandKey(StateBlock(h, 2), StateBlock(h, 3)), pad, TextBlocks(h), |pad| / 8))
  }

  function FinalState(p: Primitives, h: State, pad: seq<Block>): State {
    p.permute(ImplodedState(p, h, pad))
  }

  function DigestOf(p: Primitives, h: State): Digest {
    p.finish(And(h[0], 3), h)
  }

  // The hash of one input. It mentions no memory but its own.
  function OneHash(p: Primitives, c: Config, input: seq<u8>): Digest {
    var h := p.keccak(input);
    DigestOf(p, FinalState(p, h, RunLane(p, c, StartLane(p, c, h), c.iterations).pad))
  }

  // ---------------------------------------------------------------- lanes in shared memory

  // The w blocks of the lane that starts at block base.
  function Pad(memory: seq<Block>, base: nat, w: nat): (pad: seq<Block>)
    requires base + w <= |memory|
    ensures |pad| == w
  {
    memory[base..base + w]
  }

  // The lane pointers l stay inside memory and their lanes do not overlap.
  predicate Disjoint(l: seq<nat>, w: nat, size: nat) {
    && (forall k | 0 <= k < |l| :: l[k] + w <= size)
    && (forall j, k | 0 <= j < k < |l| :: l[j] + w <= l[k])
  }

  lemma LanesDisjoint(l: seq<nat>, w: nat, size: nat)
    requires forall k | 0 <= k < |l| :: l[k] == k * w
    requires |l| * w <= size
    ensures Disjoint(l, w, size)
  {
    forall j, k | 0 <= j < k <= |l| ensures j * w + w <= k * w {
      var d := k - j - 1;
      assert k * w == (d + j + 1) * w == d * w + j * w + w;
    }
    forall k | 0 <= k < |l| ensures l[k] + w <= size {
      assert k * w + w <= |l| * w;
    }
  }

  lemma OtherPads(was: seq<Block>, now: seq<Block>, l: seq<nat>, w: nat, k: nat)
    requires Disjoint(l, w, |was|) && k < |l|
    requires SameOutside(was, now, l[k], l[k] + w)
    ensures forall j | 0 <= j < |l| && j != k :: Pad(now, l[j], w) == Pad(was, l[j], w)
  {
    forall j | 0 <= j < |l| && j != k
      ensures Pad(now, l[j], w) == Pad(was, l[j], w)
    {
      assert j < k ==> l[j] + w <= l[k];
      assert k < j ==> l[k] + w <= l[j];
    }
  }

  // cryptonight_ctx: one scratchpad area and the Keccak state of each hash.
  class Context {
    const memory: array<Block>
    const state: array<State>

    constructor(memory: array<Block>, state: array<State>)
      ensures this.memory == memory && this.state == state
    {
      this.memory, this.state := memory, state;
    }

    // The areas a hash writes are distinct, as the restrict qualifiers demand.
    ghost predicate Separate(output: array<u8>) {
      && memory as object != state
      && output as object != memory
      && output as object != state
    }

    // Room for n hashes.
    ghost predicate Fits(c: Config, n: nat) {
      n * c.Blocks() <= memory.Length && n <= state.Length
    }
  }

  // ---------------------------------------------------------------- shared passes

  method TenRounds(p: Primitives, keys: RoundKeys, x: Batch) returns (y: Batch)
    ensures y == AesRounds(p, keys, x, 10)
  {
    y := x;
    for r := 0 to 10
      invariant y == AesRounds(p, keys, x, r)
    {
      y := AesRound(p, keys[r], y);
    }
  }

  method StoreBatch(memory: array<Block>, at: nat, x: Batch)
    requires at + 8 <= memory.Length
    modifies memory
    ensures memory[at..at + 8] == x
    ensures SameOutside(old(memory[..]), memory[..], at, at + 8)
  {
    for j := 0 to 8
      invariant memory[at..at + j] == x[..j]
      invariant SameOutside(old(memory[..]), memory[..], at, at + 8)
    {
      memory[at + j] := x[j];
    }
  }

  lemma Append(was: seq<Block>, now: seq<Block>, base: nat, at: nat, x: Batch)
    requires base <= at && at + 8 <= |was| && SameOutside(was, now, at, at + 8) && now[at..at + 8] == x
    ensures now[base..at + 8] == was[base..at] + x
  {
    forall i | base <= i < at + 8
      ensures now[i] == (was[base..at] + x)[i - base]
    {
      if i >= at { assert now[i] == now[at..at + 8][i - at]; }
    }
  }

  lemma BatchAppended(start: seq<Block>, was: seq<Block>, now: seq<Block>, base: nat, i: nat, w: nat, x: Batch)
    requires i + 8 <= w && base + w <= |was| && SameOutside(start, was, base, base + w)
    requires SameOutside(was, now, base + i, base + i + 8) && now[base + i..base + i + 8] == x
    ensures SameOutside(start, now, base, base + w) && Pad(now, base, i + 8) == Pad(was, base, i) + x
  {
    Append(was, now, base, base + i, x);
  }

  lemma SameSelf(memory: seq<Block>, lo: nat, hi: nat)
    ensures SameOutside(memory, memory, lo, hi)
  {
  }

  lemma NoPad(memory: seq<Block>, base: nat)
    requires base <= |memory|
    ensures Pad(memory, base, 0) == []
  {
  }

  lemma ExplodedNext(p: Primitives, keys: RoundKeys, x: Batch, n: nat)
    ensures Exploded(p, keys, x, n + 1) == AesRounds(p, keys, Exploded(p, keys, x, n), 10)
    ensures ExplodedPad(p, keys, x, n + 1) == ExplodedPad(p, keys, x, n) + Exploded(p, keys, x, n + 1)
  {
    hide AesRounds;
  }

  lemma NothingExploded(p: Primitives, keys: RoundKeys, x: Batch)
    ensures Exploded(p, keys, x, 0) == x && ExplodedPad(p, keys, x, 0) == []
  {
  }

  // Fills a whole lane from the state, whatever the lane held before.
  method ExplodeScratchpad(p: Primitives, c: Config, h: State, memory: array<Block>, base: nat)
    requires base + c.Blocks() <= memory.Length
    modifies memory
    ensures Pad(memory[..], base, c.Blocks())
         == ExplodedPad(p, p.expandKey(StateBlock(h, 0), StateBlock(h, 1)), TextBlocks(h), c.Blocks() / 8)
    ensures SameOutside(old(memory[..]), memory[..], base, base + c.Blocks())
  {
    hide SameOutside, AesRounds, TextBlocks, StateBlock, Pad, Exploded, ExplodedPad;
    SameSelf(memory[..], base, base + c.Blocks());
    NoPad(memory[..], base);
    assert c.Blocks() == 8 * (c.Blocks() / 8);
    var keys := p.expandKey(StateBlock(h, 0), StateBlock(h, 1));
    var xin := TextBlocks(h);
    NothingExploded(p, keys, xin);
    ghost var x0, n := xin, 0;
    var i := 0;
    while i < c.Blocks()
      invariant 0 <= i == 8 * n <= c.Blocks()
      invariant xin == Exploded(p, keys, x0, n)
      invariant Pad(memory[..], base, i) == ExplodedPad(p, keys, x0, n)
      invariant SameOutside(old(memory[..]), memory[..], base, base + c.Blocks())
    {
      ExplodedNext(p, keys, x0, n);
      xin := TenRounds(p, keys, xin);
      ghost var was := memory[..];
      StoreBatch(memory, base + i, xin);
      BatchAppended(old(memory[..]), was, memory[..], base, i, c.Blocks(), xin);
      i, n := i + 8, n + 1;
    }
  }

  lemma GroupOfPad(memory: seq<Block>, base: nat, w: nat, i: nat)
    requires base + w <= |memory| && i + 8 <= w
    ensures memory[base + i..base + i + 8] == Pad(memory, base, w)[i..i + 8]
  {
    var pad, a := Pad(memory, base, w), memory[base + i..base + i + 8];
    var b := pad[i..i + 8];
    forall j | 0 <= j < 8
      ensures a[j] == b[j]
    {
      assert b[j] == pad[i + j] == memory[base + (i + j)];
    }
  }

  lemma ImplodedNext(p: Primitives, keys: RoundKeys, pad: seq<Block>, x: Batch, n: nat)
    requires 8 * n + 8 <= |pad|
    ensures Imploded(p, keys, pad, x, n + 1)
         == AesRounds(p, keys, XorBatch(pad[8 * n..8 * n + 8], Imploded(p, keys, pad, x, n)), 10)
  {
    hide AesRounds, XorBatch;
  }

  // Folds a lane back into the text blocks of the state.
  method ImplodeScratchpad(p: Primitives, c: Config, memory: array<Block>, base: nat, h: State) returns (r: State)
    requires base + c.Blocks() <= memory.Length
    ensures r == ImplodedState(p, h, Pad(memory[..], base, c.Blocks()))
  {
    hide Pad, AesRounds, XorBatch, TextBlocks, StateBlock, PutTextBlocks;
    var keys := p.expandKey(StateBlock(h, 2), StateBlock(h, 3));
    var xout := TextBlocks(h);
    ghost var x0, n, pad := xout, 0, Pad(memory[..], base, c.Blocks());
    var i := 0;
    while i < c.Blocks()
      invariant 0 <= i == 8 * n <= c.Blocks()
      invariant xout == Imploded(p, keys, pad, x0, n)
    {
      var group := memory[base + i..base + i + 8];
      GroupOfPad(memory[..], base, c.Blocks(), i);
      assert group == memory[..][base + i..base + i + 8] == pad[i..i + 8];
      ImplodedNext(p, keys, pad, x0, n);
      xout := TenRounds(p, keys, XorBatch(group, xout));
      i, n := i + 8, n + 1;
    }
    r := PutTextBlocks(h, xout);
  }

  // ---------------------------------------------------------------- one iteration in place

  // Multiply, accumulate, and exchange with block s: for the halves of the product, high is added
  // to al and low to ah, the sums are stored, and what stood there is xored in.
  method MultiplyBlock(memory: array<Block>, s: nat, al0: Word64, ah0: Word64, idx0: Word64)
    returns (al: Word64, ah: Word64, idx: Word64)
    requires s < memory.Length
    modifies memory
    ensures memory[..] == old(memory[..])[s := memory[s]]
    ensures forall hi: Word64, lo: Word64 | IsProduct(hi, lo, idx0, old(memory[s].lo)) ::
              memory[s] == Block((al0 + hi) % TWO64, (ah0 + lo) % TWO64)
    ensures al == idx == Xor64(memory[s].lo, old(memory[s].lo))
    ensures ah == Xor64(memory[s].hi, old(memory[s].hi))
  {
    hide IsProduct, UMul128, Xor64;
    al, ah, idx := al0, ah0, idx0;
    var cl, ch := memory[s].lo, memory[s].hi;
    var product := UMul128(idx, cl);
    var lo, hi := product.0, product.1;
    OneProduct(idx, cl);
    al := Add64(al, hi);
    ah := Add64(ah, lo);
    memory[s] := memory[s].(lo := al);
    memory[s] := memory[s].(hi := ah);
    ah := Xor64(ah, ch);
    al := Xor64(al, cl);
    idx := al;
  }

  // The same on the addressed block of the lane at base.
  method MultiplyInPlace(c: Config, memory: array<Block>, base: nat, al0: Word64, ah0: Word64, ghost bx: Block,
                         idx0: Word64)
    returns (al: Word64, ah: Word64, idx: Word64)
    requires base + c.Blocks() <= memory.Length
    modifies memory
    ensures Lane(Pad(memory[..], base, c.Blocks()), al, ah, bx, idx)
         == MultiplyStep(c, Lane(Pad(old(memory[..]), base, c.Blocks()), al0, ah0, bx, idx0))
    ensures SameOutside(old(memory[..]), memory[..], base, base + c.Blocks())
  {
    hide Xor64, Pad;
    var s := base + Slot(c, idx0);
    ghost var product := UMul128(idx0, memory[s].lo);
    assert IsProduct(product.1, product.0, idx0, memory[s].lo);
    ghost var sums := Block(Add64(al0, product.1), Add64(ah0, product.0));
    PadUpdated(memory[..], base, c.Blocks(), s, sums);
    al, ah, idx := MultiplyBlock(memory, s, al0, ah0, idx0);
    assert memory[s] == sums;
  }

  lemma PadUpdated(memory: seq<Block>, base: nat, w: nat, s: nat, b: Block)
    requires base + w <= |memory| && base <= s < base + w
    ensures Pad(memory[s := b], base, w) == Pad(memory, base, w)[s - base := b]
    ensures Pad(memory, base, w)[s - base] == memory[s] && SameOutside(memory, memory[s := b], base, base + w)
  {
  }

  // The body of the single and the n-loop form.
  method Iterate(p: Primitives, c: Config, memory: array<Block>, base: nat, al0: Word64, ah0: Word64,
                 bx0: Block, idx0: Word64)
    returns (al: Word64, ah: Word64, bx: Block, idx: Word64)
    requires base + c.Blocks() <= memory.Length
    modifies memory
    ensures Lane(Pad(memory[..], base, c.Blocks()), al, ah, bx, idx)
         == MultiplyStep(c, EncryptStep(p, c, Lane(Pad(old(memory[..]), base, c.Blocks()), al0, ah0, bx0, idx0)))
    ensures SameOutside(old(memory[..]), memory[..], base, base + c.Blocks())
  {
    hide XorBlock, MultiplyStep, Pad, Slot;
    var s := base + Slot(c, idx0);
    PadUpdated(memory[..], base, c.Blocks(), s, XorBlock(bx0, p.aesEnc(memory[s], Block(al0, ah0))));
    var cx := p.aesEnc(memory[s], Block(al0, ah0));
    memory[s] := XorBlock(bx0, cx);
    assert memory[..] == old(memory[..])[s := XorBlock(bx0, cx)];
    idx := cx.lo;
    bx := cx;
    al, ah, idx := MultiplyInPlace(c, memory, base, al0, ah0, bx, idx);
  }

  // ---------------------------------------------------------------- the last pass

  function WithDigest(output: seq<u8>, at: nat, d: Digest): (r: seq<u8>)
    requires at + 32 <= |output|
    ensures |r| == |output|
  {
    output[..at] + d + output[at + 32..]
  }

  method WriteDigest(output: array<u8>, at: nat, d: Digest)
    requires at + 32 <= output.Length
    modifies output
    ensures output[..] == WithDigest(old(output[..]), at, d)
  {
    for i := 0 to 32
      invariant forall j | 0 <= j < at || at + i <= j < output.Length :: output[j] == old(output[j])
      invariant output[at..at + i] == d[..i]
    {
      output[at + i] := d[i];
    }
    assert output[..at] == old(output[..at]) && output[at + 32..] == old(output[at + 32..]);
    assert output[..] == output[..at] + output[at..at + 32] + output[at + 32..];
  }

  // Fold the lane at base into state k and permute it.
  method CloseLane(p: Primitives, c: Config, ctx: Context, k: nat, base: nat)
    requires base + c.Blocks() <= ctx.memory.Length && k < ctx.state.Length
    modifies ctx.state
    ensures var last := FinalState(p, old(ctx.state[k]), Pad(ctx.memory[..], base, c.Blocks()));
            ctx.state[..] == old(ctx.state[..])[k := last]
  {
    var r := ImplodeScratchpad(p, c, ctx.memory, base, ctx.state[k]);
    ctx.state[k] := p.permute(r);
  }

  // ---------------------------------------------------------------- the single form

  // All iterations of a lone hash whose scratchpad starts the memory.
  method RunSingle(p: Primitives, c: Config, memory: array<Block>, h: State)
    requires c.Blocks() <= memory.Length
    modifies memory
    ensures Pad(memory[..], 0, c.Blocks()) == RunLane(p, c, StartLane(p, c, h), c.iterations).pad
  {
    ExplodeScratchpad(p, c, h, memory, 0);
    var al, ah := Xor64(h[0], h[4]), Xor64(h[1], h[5]);
    var bx := Block(Xor64(h[2], h[6]), Xor64(h[3], h[7]));
    var idx := Xor64(h[0], h[4]);
    ghost var start := StartLane(p, c, h);

    for i := 0 to c.iterations
      invariant Lane(Pad(memory[..], 0, c.Blocks()), al, ah, bx, idx) == RunLane(p, c, start, i)
    {
      al, ah, bx, idx := Iterate(p, c, memory, 0, al, ah, bx, idx);
    }
  }

  method HashSingle(p: Primitives, c: Config, input: seq<u8>, output: array<u8>, ctx: Context)
    requires ctx.Fits(c, 1) && 32 <= output.Length && ctx.Separate(output)
    modifies ctx.memory, ctx.state, output
    ensures output[..] == WithDigest(old(output[..]), 0, OneHash(p, c, input))
  {
    ctx.state[0] := p.keccak(input);
    RunSingle(p, c, ctx.memory, ctx.state[0]);
    CloseLane(p, c, ctx, 0, 0);
    assert output[..] == old(output[..]);
    WriteDigest(output, 0, DigestOf(p, ctx.state[0]));
  }

  // ---------------------------------------------------------------- the n-loop form

  // The k-th of n inputs of the given size.
  function InputOf(input: seq<u8>, size: nat, n: nat, k: nat): seq<u8>
    requires k < n && n * size <= |input|
  {
    assert k * size + size <= n * size by {
      var d := n - k - 1;
      assert n * size == (d + k + 1) * size == d * size + k * size + size;
    }
    input[k * size..k * size + size]
  }

  // The Keccak states of the first m of n inputs.
  function Seeds(p: Primitives, input: seq<u8>, size: nat, n: nat, m: nat): (r: seq<State>)
    requires m <= n && n * size <= |input|
    ensures |r| == m
    ensures forall k | 0 <= k < m :: r[k] == p.keccak(InputOf(input, size, n, k))
  {
    if m == 0 then [] else Seeds(p, input, size, n, m - 1) + [p.keccak(InputOf(input, size, n, m - 1))]
  }

  // The registers of every lane of an interleaved run.
  datatype Registers = Registers(al: seq<Word64>, ah: seq<Word64>, bx: seq<Block>, idx: seq<Word64>) {
    predicate Sized(n: nat) {
      |al| == |ah| == |bx| == |idx| == n
    }

    function Get(k: nat, pad: seq<Block>): Lane
      requires k < |al| && k < |ah| && k < |bx| && k < |idx|
    {
      Lane(pad, al[k], ah[k], bx[k], idx[k])
    }
  }

  // Lane k of memory and registers is exactly the lane want[k], for every k.
  predicate LanesAre(c: Config, memory: seq<Block>, l: seq<nat>, r: Registers, want: seq<Lane>) {
    && Disjoint(l, c.Blocks(), |memory|) && r.Sized(|l|) && |want| == |l|
    && forall k | 0 <= k < |l| :: r.Get(k, Pad(memory, l[k], c.Blocks())) == want[k]
  }

  function LanesAfter(p: Primitives, c: Config, h: seq<State>, i: nat): (r: seq<Lane>)
    ensures |r| == |h|
    ensures forall k | 0 <= k < |r| :: |r[k].pad| == c.Blocks()
  {
    seq(|h|, k requires 0 <= k < |h| => RunLane(p, c, StartLane(p, c, h[k]), i))
  }

  // Writing one lane takes that lane of `want` to its new value and no other.
  lemma OneLaneStepped(c: Config, was: seq<Block>, now: seq<Block>, l: seq<nat>, r: Registers, r': Registers,
                       want: seq<Lane>, k: nat, lane: Lane)
    requires LanesAre(c, was, l, r, want) && k < |l| && r'.Sized(|l|)
    requires SameOutside(was, now, l[k], l[k] + c.Blocks())
    requires r'.Get(k, Pad(now, l[k], c.Blocks())) == lane
    requires forall j | 0 <= j < |l| && j != k ::
               r'.al[j] == r.al[j] && r'.ah[j] == r.ah[j] && r'.bx[j] == r.bx[j] && r'.idx[j] == r.idx[j]
    ensures LanesAre(c, now, l, r', want[k := lane])
  {
    OtherPads(was, now, l, c.Blocks(), k);
  }

  // Keccak of every input into its own state.
  method SeedStates(p: Primitives, input: seq<u8>, size: nat, n: nat, state: array<State>)
    requires n * size <= |input| && n <= state.Length
    modifies state
    ensures state[..n] == Seeds(p, input, size, n, n)
  {
    for k := 0 to n
      invariant state[..k] == Seeds(p, input, size, n, k)
    {
      state[k] := p.keccak(InputOf(input, size, n, k));
    }
  }

  // Explode every lane and load its registers.
  method OpenLanes(p: Primitives, c: Config, memory: array<Block>, l: seq<nat>, h: seq<State>) returns (r: Registers)
    requires |l| == |h| && Disjoint(l, c.Blocks(), memory.Length)
    modifies memory
    ensures LanesAre(c, memory[..], l, r, LanesAfter(p, c, h, 0))
  {
    var n := |l|;
    r := Registers(seq(n, _ => 0), seq(n, _ => 0), seq(n, _ => ZERO_BLOCK), seq(n, _ => 0));
    for k := 0 to n
      invariant r.Sized(n)
      invariant forall j | 0 <= j < k :: r.Get(j, Pad(memory[..], l[j], c.Blocks())) == StartLane(p, c, h[j])
    {
      ghost var was := memory[..];
      ExplodeScratchpad(p, c, h[k], memory, l[k]);
      OtherPads(was, memory[..], l, c.Blocks(), k);
      r := Registers(
        r.al[k := Xor64(h[k][0], h[k][4])],
        r.ah[k := Xor64(h[k][1], h[k][5])],
        r.bx[k := Block(Xor64(h[k][2], h[k][6]), Xor64(h[k][3], h[k][7]))],
        r.idx[k := Xor64(h[k][0], h[k][4])]);
    }
  }

  // Lanes below k are one iteration ahead of the others.
  function Mixed(p: Primitives, c: Config, h: seq<State>, i: nat, k: nat): (r: seq<Lane>)
    requires k <= |h|
    ensures |r| == |h|
  {
    LanesAfter(p, c, h, i + 1)[..k] + LanesAfter(p, c, h, i)[k..]
  }

  lemma MixedStep(p: Primitives, c: Config, h: seq<State>, i: nat, k: nat)
    requires k < |h|
    ensures Mixed(p, c, h, i, k)[k] == LanesAfter(p, c, h, i)[k]
    ensures Mixed(p, c, h, i, k)[k := LanesAfter(p, c, h, i + 1)[k]] == Mixed(p, c, h, i, k + 1)
  {
  }

  lemma LaneStepped(p: Primitives, c: Config, h: seq<State>, i: nat, k: nat)
    requires k < |h|
    ensures LanesAfter(p, c, h, i + 1)[k] == MultiplyStep(c, EncryptStep(p, c, LanesAfter(p, c, h, i)[k]))
  {
    hide EncryptStep, MultiplyStep, StartLane;
  }

  // Lane k lies in memory, and is what it should be.
  lemma LaneAt(c: Config, memory: seq<Block>, l: seq<nat>, r: Registers, want: seq<Lane>, k: nat)
    requires LanesAre(c, memory, l, r, want) && k < |l|
    ensures l[k] + c.Blocks() <= |memory| && r.Sized(|l|) && |want| == |l|
    ensures r.Get(k, Pad(memory, l[k], c.Blocks())) == want[k]
  {
  }

  // One whole step of lane k inside iteration i.
  method StepLane(p: Primitives, c: Config, memory: array<Block>, l: seq<nat>, r: Registers, k: nat,
                  ghost h: seq<State>, ghost i: nat)
    returns (s: Registers)
    requires k < |l| == |h|
    requires LanesAre(c, memory[..], l, r, Mixed(p, c, h, i, k))
    modifies memory
    ensures LanesAre(c, memory[..], l, s, Mixed(p, c, h, i, k + 1))
  {
    hide EncryptStep, MultiplyStep, Mixed, SameOutside, Disjoint;
    ghost var was, want, next := memory[..], Mixed(p, c, h, i, k), LanesAfter(p, c, h, i + 1)[k];
    LaneAt(c, was, l, r, want, k);
    MixedStep(p, c, h, i, k);
    LaneStepped(p, c, h, i, k);
    hide LanesAre, LanesAfter, Pad;
    var al, ah, bx, idx := Iterate(p, c, memory, l[k], r.al[k], r.ah[k], r.bx[k], r.idx[k]);
    s := Registers(r.al[k := al], r.ah[k := ah], r.bx[k := bx], r.idx[k := idx]);
    OneLaneStepped(c, was, memory[..], l, r, s, want, k, next);
  }

  // The n-loop: in every iteration each lane in turn takes a whole step.
  method RunLoop(p: Primitives, c: Config, memory: array<Block>, l: seq<nat>, r0: Registers, ghost h: seq<State>)
    returns (r: Registers)
    requires |l| == |h|
    requires LanesAre(c, memory[..], l, r0, LanesAfter(p, c, h, 0))
    modifies memory
    ensures LanesAre(c, memory[..], l, r, LanesAfter(p, c, h, c.iterations))
  {
    r := r0;
    for i := 0 to c.iterations
      invariant LanesAre(c, memory[..], l, r, LanesAfter(p, c, h, i))
    {
      assert Mixed(p, c, h, i, 0) == LanesAfter(p, c, h, i);
      for k := 0 to |l|
        invariant LanesAre(c, memory[..], l, r, Mixed(p, c, h, i, k))
      {
        r := StepLane(p, c, memory, l, r, k, h, i);
      }
      assert Mixed(p, c, h, i, |l|) == LanesAfter(p, c, h, i + 1);
    }
  }

  // Writing a digest leaves the digests before it as they were.
  lemma EarlierDigests(output: seq<u8>, m: nat, d: Digest)
    requires 32 * m + 32 <= |output|
    ensures var now := WithDigest(output, 32 * m, d);
            && now[32 * m..32 * m + 32] == d
            && forall k | 0 <= k < m :: now[32 * k..32 * k + 32] == output[32 * k..32 * k + 32]
  {
    var now := WithDigest(output, 32 * m, d);
    assert now[32 * m..32 * m + 32] == d;
    forall k | 0 <= k < m
      ensures now[32 * k..32 * k + 32] == output[32 * k..32 * k + 32]
    {
    }
  }

  // The last state of the hash whose Keccak state is h.
  function ClosedState(p: Primitives, c: Config, h: State): State {
    FinalState(p, h, RunLane(p, c, StartLane(p, c, h), c.iterations).pad)
  }

  // The digest of the hash whose Keccak state is h.
  function LaneDigest(p: Primitives, c: Config, h: State): Digest {
    DigestOf(p, ClosedState(p, c, h))
  }

  // The digests of the first m states stand one after the other at the start of the output.
  predicate Delivered(p: Primitives, c: Config, h: seq<State>, m: nat, output: seq<u8>) {
    m <= |h| && 32 * m <= |output| &&
    forall k | 0 <= k < m :: output[32 * k..32 * k + 32] == LaneDigest(p, c, h[k])
  }

  // Close lane k of a finished run and write its digest.
  method CloseAndWrite(p: Primitives, c: Config, ctx: Context, k: nat, base: nat, output: array<u8>)
    requires base + c.Blocks() <= ctx.memory.Length && k < ctx.state.Length
    requires 32 * k + 32 <= output.Length && ctx.Separate(output)
    modifies ctx.state, output
    ensures ctx.memory[..] == old(ctx.memory[..])
    ensures forall j | 0 <= j < ctx.state.Length && j != k :: ctx.state[j] == old(ctx.state[j])
    ensures output[..] == WithDigest(old(output[..]), 32 * k,
              DigestOf(p, FinalState(p, old(ctx.state[k]), Pad(ctx.memory[..], base, c.Blocks()))))
  {
    ghost var before := output[..];
    CloseLane(p, c, ctx, k, base);
    assert output[..] == before;
    WriteDigest(output, 32 * k, DigestOf(p, ctx.state[k]));
  }

  lemma BehindDigest(output: seq<u8>, m: nat, n: nat, d: Digest)
    requires m < n && 32 * n <= |output|
    ensures WithDigest(output, 32 * m, d)[32 * n..] == output[32 * n..]
  {
  }


  lemma NoneDelivered(p: Primitives, c: Config, h: seq<State>, output: seq<u8>)
    ensures Delivered(p, c, h, 0, output)
  {
  }

  lemma OneMoreDelivered(p: Primitives, c: Config, h: seq<State>, k: nat, output: seq<u8>)
    requires Delivered(p, c, h, k, output) && k < |h| && 32 * k + 32 <= |output|
    ensures Delivered(p, c, h, k + 1, WithDigest(output, 32 * k, LaneDigest(p, c, h[k])))
  {
    hide LaneDigest;
    EarlierDigests(output, k, LaneDigest(p, c, h[k]));
  }

  // The digest of a lane at the end of its run.
  lemma LaneClosed(p: Primitives, c: Config, h: seq<State>, k: nat)
    requires k < |h|
    ensures DigestOf(p, FinalState(p, h[k], LanesAfter(p, c, h, c.iterations)[k].pad)) == LaneDigest(p, c, h[k])
  {
    hide DigestOf, FinalState, StartLane;
  }

  // Close every lane of a finished run and write its digest.
  method CloseLanes(p: Primitives, c: Config, ctx: Context, l: seq<nat>, ghost r: Registers,
                    ghost h: seq<State>, output: array<u8>)
    requires |l| == |h| <= ctx.state.Length && 32 * |l| <= output.Length && ctx.Separate(output)
    requires ctx.state[..|l|] == h
    requires LanesAre(c, ctx.memory[..], l, r, LanesAfter(p, c, h, c.iterations))
    modifies ctx.state, output
    ensures Delivered(p, c, h, |h|, output[..])
    ensures output[32 * |l|..] == old(output[32 * |l|..])
  {
    hide LanesAre, LanesAfter, FinalState, DigestOf, Delivered, WithDigest, LaneDigest, Pad;
    NoneDelivered(p, c, h, output[..]);
    ghost var memory, rest := ctx.memory[..], output[32 * |l|..];
    for k := 0 to |l|
      invariant ctx.memory[..] == memory
      invariant forall j | k <= j < |l| :: ctx.state[j] == h[j]
      invariant Delivered(p, c, h, k, output[..])
      invariant output[32 * |l|..] == rest
    {
      ghost var before := output[..];
      LaneAt(c, memory, l, r, LanesAfter(p, c, h, c.iterations), k);
      LaneClosed(p, c, h, k);
      CloseAndWrite(p, c, ctx, k, l[k], output);
      OneMoreDelivered(p, c, h, k, before);
      BehindDigest(before, k, |l|, LaneDigest(p, c, h[k]));
    }
  }

  // The n-loop form: output k is the hash of input k alone.
  method HashLoop(p: Primitives, c: Config, input: seq<u8>, size: nat, n: nat, output: array<u8>, ctx: Context)
    requires n * size <= |input| && 32 * n <= output.Length && ctx.Fits(c, n) && ctx.Separate(output)
    modifies ctx.memory, ctx.state, output
    ensures forall k | 0 <= k < n :: output[32 * k..32 * k + 32] == OneHash(p, c, InputOf(input, size, n, k))
    ensures output[32 * n..] == old(output[32 * n..])
  {
    ghost var rest := output[32 * n..];
    SeedStates(p, input, size, n, ctx.state);
    var l := seq(n, k requires 0 <= k < n => k * c.Blocks());
    LanesDisjoint(l, c.Blocks(), ctx.memory.Length);
    var h := ctx.state[..n];
    var r := OpenLanes(p, c, ctx.memory, l, h);
    r := RunLoop(p, c, ctx.memory, l, r, h);
    assert ctx.state[..n] == h && output[32 * n..] == rest;
    CloseLanes(p, c, ctx, l, r, h, output);
  }

  // ---------------------------------------------------------------- the 2- to 5-way forms

  function EncryptAll(p: Primitives, c: Config, want: seq<Lane>): (r: seq<Lane>)
    requires forall k | 0 <= k < |want| :: |want[k].pad| == c.Blocks()
    ensures |r| == |want|
    ensures forall k | 0 <= k < |r| :: |r[k].pad| == c.Blocks()
  {
    seq(|want|, k requires 0 <= k < |want| => EncryptStep(p, c, want[k]))
  }

  // Every lane loads, then every lane encrypts, then every lane stores.
  method EncryptPhase(p: Primitives, c: Config, memory: array<Block>, l: seq<nat>, r: Registers, ghost want: seq<Lane>)
    returns (s: Registers)
    requires forall k | 0 <= k < |want| :: |want[k].pad| == c.Blocks()
    requires LanesAre(c, memory[..], l, r, want)
    modifies memory
    ensures LanesAre(c, memory[..], l, s, EncryptAll(p, c, want))
  {
    hide XorBlock, And;
    var n := |l|;
    var cx := seq(n, _ => ZERO_BLOCK);
    for k := 0 to n
      invariant |cx| == n
      invariant forall j | 0 <= j < k :: cx[j] == want[j].pad[Slot(c, want[j].idx)]
    {
      assert r.Get(k, Pad(memory[..], l[k], c.Blocks())) == want[k];
      cx := cx[k := memory[l[k] + Slot(c, r.idx[k])]];
    }
    for k := 0 to n
      invariant |cx| == n
      invariant forall j | 0 <= j < k :: cx[j] == EncryptStep(p, c, want[j]).bx
      invariant forall j | k <= j < n :: cx[j] == want[j].pad[Slot(c, want[j].idx)]
    {
      assert r.Get(k, Pad(memory[..], l[k], c.Blocks())) == want[k];
      cx := cx[k := p.aesEnc(cx[k], Block(r.al[k], r.ah[k]))];
    }
    StorePhase(p, c, memory, l, r, cx, want);
    s := r;
    for k := 0 to n
      invariant s.Sized(n) && s.(idx := r.idx) == r
      invariant forall j | 0 <= j < k :: s.idx[j] == cx[j].lo
    {
      s := s.(idx := s.idx[k := cx[k].lo]);
    }
    for k := 0 to n
      invariant s.Sized(n) && s.al == r.al && s.ah == r.ah
      invariant forall j | 0 <= j < n :: s.idx[j] == cx[j].lo
      invariant forall j | 0 <= j < k :: s.bx[j] == cx[j]
    {
      s := s.(bx := s.bx[k := cx[k]]);
    }
    forall k | 0 <= k < n
      ensures s.Get(k, Pad(memory[..], l[k], c.Blocks())) == EncryptAll(p, c, want)[k]
    {
      assert want[k].al == r.al[k] && want[k].ah == r.ah[k];
    }
  }

  lemma LanesSized(c: Config, memory: seq<Block>, l: seq<nat>, r: Registers, want: seq<Lane>)
    requires LanesAre(c, memory, l, r, want)
    ensures Disjoint(l, c.Blocks(), |memory|) && r.Sized(|l|) && |want| == |l|
  {
  }

  method StorePhase(p: Primitives, c: Config, memory: array<Block>, l: seq<nat>, r: Registers, cx: seq<Block>,
                    ghost want: seq<Lane>)
    requires forall k | 0 <= k < |want| :: |want[k].pad| == c.Blocks()
    requires LanesAre(c, memory[..], l, r, want) && |cx| == |l|
    requires forall k | 0 <= k < |l| :: cx[k] == EncryptStep(p, c, want[k]).bx
    modifies memory
    ensures forall k | 0 <= k < |l| :: Pad(memory[..], l[k], c.Blocks()) == EncryptStep(p, c, want[k]).pad
    ensures forall k | 0 <= k < |l| :: want[k].al == r.al[k] && want[k].ah == r.ah[k]
  {
    hide XorBlock, LanesAre;
    ghost var start := memory[..];
    LanesSized(c, start, l, r, want);
    forall k | 0 <= k < |l|
      ensures r.Get(k, Pad(start, l[k], c.Blocks())) == want[k]
    {
      LaneAt(c, start, l, r, want, k);
    }
    for k := 0 to |l|
      invariant forall j | 0 <= j < k :: Pad(memory[..], l[j], c.Blocks()) == EncryptStep(p, c, want[j]).pad
      invariant forall j | k <= j < |l| :: Pad(memory[..], l[j], c.Blocks()) == want[j].pad
    {
      ghost var was := memory[..];
      var s := l[k] + Slot(c, r.idx[k]);
      memory[s] := XorBlock(r.bx[k], cx[k]);
      assert r.Get(k, want[k].pad) == want[k];
      assert Pad(memory[..], l[k], c.Blocks()) == want[k].pad[s - l[k] := memory[s]];
      OtherPads(was, memory[..], l, c.Blocks(), k);
    }
  }

  function MultiplyFirst(c: Config, want: seq<Lane>, m: nat): (r: seq<Lane>)
    requires m <= |want| && forall k | 0 <= k < |want| :: |want[k].pad| == c.Blocks()
    ensures |r| == |want|
  {
    seq(|want|, k requires 0 <= k < |want| => if k < m then MultiplyStep(c, want[k]) else want[k])
  }

  // Then the lanes multiply one after the other.
  method MultiplyPhase(c: Config, memory: array<Block>, l: seq<nat>, r: Registers, ghost want: seq<Lane>)
    returns (s: Registers)
    requires forall k | 0 <= k < |want| :: |want[k].pad| == c.Blocks()
    requires LanesAre(c, memory[..], l, r, want)
    modifies memory
    ensures LanesAre(c, memory[..], l, s, MultiplyFirst(c, want, |want|))
  {
    s := r;
    assert MultiplyFirst(c, want, 0) == want;
    for k := 0 to |l|
      invariant LanesAre(c, memory[..], l, s, MultiplyFirst(c, want, k))
    {
      ghost var was, before := memory[..], s;
      assert s.Get(k, Pad(was, l[k], c.Blocks())) == want[k];
      var al, ah, idx := MultiplyInPlace(c, memory, l[k], s.al[k], s.ah[k], s.bx[k], s.idx[k]);
      s := Registers(s.al[k := al], s.ah[k := ah], s.bx, s.idx[k := idx]);
      OneLaneStepped(c, was, memory[..], l, before, s, MultiplyFirst(c, want, k), k, MultiplyStep(c, want[k]));
      assert MultiplyFirst(c, want, k)[k := MultiplyStep(c, want[k])] == MultiplyFirst(c, want, k + 1);
    }
  }

  method RunUnrolled(p: Primitives, c: Config, memory: array<Block>, l: seq<nat>, r0: Registers, ghost h: seq<State>)
    returns (r: Registers)
    requires |l| == |h|
    requires LanesAre(c, memory[..], l, r0, LanesAfter(p, c, h, 0))
    modifies memory
    ensures LanesAre(c, memory[..], l, r, LanesAfter(p, c, h, c.iterations))
  {
    r := r0;
    for i := 0 to c.iterations
      invariant LanesAre(c, memory[..], l, r, LanesAfter(p, c, h, i))
    {
      ghost var encrypted := EncryptAll(p, c, LanesAfter(p, c, h, i));
      r := EncryptPhase(p, c, memory, l, r, LanesAfter(p, c, h, i));
      r := MultiplyPhase(c, memory, l, r, encrypted);
      assert MultiplyFirst(c, encrypted, |encrypted|) == LanesAfter(p, c, h, i + 1);
    }
  }

  // Every lane implodes, then every state is permuted, then every digest is written.
  method CloseUnrolled(p: Primitives, c: Config, ctx: Context, l: seq<nat>, ghost r: Registers,
                       ghost h: seq<State>, output: array<u8>)
    requires |l| == |h| <= ctx.state.Length && 32 * |l| <= output.Length && ctx.Separate(output)
    requires ctx.state[..|l|] == h
    requires LanesAre(c, ctx.memory[..], l, r, LanesAfter(p, c, h, c.iterations))
    modifies ctx.state, output
    ensures Delivered(p, c, h, |h|, output[..])
    ensures output[32 * |l|..] == old(output[32 * |l|..])
  {
    ghost var before := output[..];
    CloseStates(p, c, ctx, l, r, h);
    assert output[..] == before;
    WriteAll(p, ctx.state, |l|, output);
  }

  method WriteAll(p: Primitives, state: array<State>, n: nat, output: array<u8>)
    requires n <= state.Length && 32 * n <= output.Length && output as object != state
    modifies output
    ensures forall k | 0 <= k < n :: output[32 * k..32 * k + 32] == DigestOf(p, state[k])
    ensures output[32 * n..] == old(output[32 * n..])
  {
    hide DigestOf;
    ghost var rest := output[32 * n..];
    for k := 0 to n
      invariant forall j | 0 <= j < k :: output[32 * j..32 * j + 32] == DigestOf(p, state[j])
      invariant output[32 * n..] == rest
    {
      ghost var was := output[..];
      var d := DigestOf(p, state[k]);
      WriteDigest(output, 32 * k, d);
      EarlierDigests(was, k, d);
      BehindDigest(was, k, n, d);
      assert state[..] == old(state[..]);
      forall j | 0 <= j < k + 1
        ensures output[32 * j..32 * j + 32] == DigestOf(p, state[j])
      {
        assert j < k ==> output[..][32 * j..32 * j + 32] == was[32 * j..32 * j + 32];
      }
    }
  }

  method CloseStates(p: Primitives, c: Config, ctx: Context, l: seq<nat>, ghost r: Registers, ghost h: seq<State>)
    requires |l| == |h| <= ctx.state.Length && ctx.memory as object != ctx.state
    requires ctx.state[..|l|] == h
    requires LanesAre(c, ctx.memory[..], l, r, LanesAfter(p, c, h, c.iterations))
    modifies ctx.state
    ensures forall k | 0 <= k < |l| :: ctx.state[k] == ClosedState(p, c, h[k])
  {
    ImplodeAll(p, c, ctx.memory, ctx.state, l, r, h);
    PermuteAll(p, ctx.state, |l|);
  }

  method PermuteAll(p: Primitives, state: array<State>, n: nat)
    requires n <= state.Length
    modifies state
    ensures forall k | 0 <= k < n :: state[k] == p.permute(old(state[k]))
  {
    for k := 0 to n
      invariant forall j | 0 <= j < k :: state[j] == p.permute(old(state[j]))
      invariant forall j | k <= j < state.Length :: state[j] == old(state[j])
    {
      state[k] := p.permute(state[k]);
    }
  }

  // Implode the lane at base into state k, not yet permuted.
  method ImplodeInto(p: Primitives, c: Config, memory: array<Block>, base: nat, state: array<State>, k: nat)
    requires base + c.Blocks() <= memory.Length && k < state.Length && memory as object != state
    modifies state
    ensures memory[..] == old(memory[..])
    ensures state[k] == ImplodedState(p, old(state[k]), Pad(memory[..], base, c.Blocks()))
    ensures forall j | 0 <= j < state.Length && j != k :: state[j] == old(state[j])
  {
    var imploded := ImplodeScratchpad(p, c, memory, base, state[k]);
    state[k] := imploded;
  }

  method ImplodeAll(p: Primitives, c: Config, memory: array<Block>, state: array<State>, l: seq<nat>,
                    ghost r: Registers, ghost h: seq<State>)
    requires |l| == |h| <= state.Length && memory as object != state
    requires state[..|l|] == h
    requires LanesAre(c, memory[..], l, r, LanesAfter(p, c, h, c.iterations))
    modifies state
    ensures forall k | 0 <= k < |l| :: p.permute(state[k]) == ClosedState(p, c, h[k])
  {
    ghost var blocks := memory[..];
    for k := 0 to |l|
      invariant memory[..] == blocks
      invariant forall j | 0 <= j < k :: p.permute(state[j]) == ClosedState(p, c, h[j])
      invariant forall j | k <= j < |l| :: state[j] == h[j]
    {
      assert r.Get(k, Pad(blocks, l[k], c.Blocks())) == LanesAfter(p, c, h, c.iterations)[k];
      ImplodeInto(p, c, memory, l[k], state, k);
    }
  }

  // The hand-unrolled forms for two to five hashes, their repeated statements written as
  // loops over the lanes.
  method HashUnrolled(p: Primitives, c: Config, input: seq<u8>, size: nat, n: nat, output: array<u8>, ctx: Context)
    requires n * size <= |input| && 32 * n <= output.Length && ctx.Fits(c, n) && ctx.Separate(output)
    modifies ctx.memory, ctx.state, output
    ensures forall k | 0 <= k < n :: output[32 * k..32 * k + 32] == OneHash(p, c, InputOf(input, size, n, k))
    ensures output[32 * n..] == old(output[32 * n..])
  {
    ghost var rest := output[32 * n..];
    SeedStates(p, input, size, n, ctx.state);
    var l := seq(n, k requires 0 <= k < n => k * c.Blocks());
    LanesDisjoint(l, c.Blocks(), ctx.memory.Length);
    var h := ctx.state[..n];
    var r := OpenLanes(p, c, ctx.memory, l, h);
    r := RunUnrolled(p, c, ctx.memory, l, r, h);
    assert ctx.state[..n] == h && output[32 * n..] == rest;
    CloseUnrolled(p, c, ctx, l, r, h, output);
  }
}
