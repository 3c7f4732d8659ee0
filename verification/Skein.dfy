// Skein-512: block chaining over Threefish with a byte-counting tweak, and the buffered update
// that feeds it.
module Skein {
  import opened Words
  import opened Blocks
  import opened Threefish

  // ---------------------------------------------------------------- words and flags

  // Eight bytes, least significant first.
  function Get64(b: seq<Byte>): Word64
    requires |b| == 8
  {
    var v: seq<int> := b;
    v[0] + 0x100 * v[1] + 0x1_0000 * v[2] + 0x100_0000 * v[3] + 0x1_0000_0000 * v[4]
    + 0x100_0000_0000 * v[5] + 0x1_0000_0000_0000 * v[6] + 0x100_0000_0000_0000 * v[7]
  }

  function Put64(w: Word64): (b: seq<Byte>)
    ensures |b| == 8
  {
    [w % 0x100, w / 0x100 % 0x100, w / 0x1_0000 % 0x100, w / 0x100_0000 % 0x100, w / 0x1_0000_0000 % 0x100,
     w / 0x100_0000_0000 % 0x100, w / 0x1_0000_0000_0000 % 0x100, w / 0x100_0000_0000_0000 % 0x100]
  }

  function BlockWords(b: seq<Byte>): Block8
    requires |b| == BLOCK_BYTES
  {
    var r: seq<Word64> := seq(8, i requires 0 <= i < 8 => Get64(b[8 * i..8 * i + 8]));
    r
  }

  function BlockBytes(x: Block8): (b: seq<Byte>)
    ensures |b| == BLOCK_BYTES
  {
    Put64(x[0]) + Put64(x[1]) + Put64(x[2]) + Put64(x[3]) + Put64(x[4]) + Put64(x[5]) + Put64(x[6]) + Put64(x[7])
  }

  const FLAG_FIRST: nat := 0x4000_0000_0000_0000
  const FLAG_FINAL: nat := 0x8000_0000_0000_0000
  const TYPE_MSG: nat := 0x3000_0000_0000_0000
  const TYPE_OUT: nat := 0x3F00_0000_0000_0000
  const KS_PARITY: Word64 := 0x1BD1_1BDA_A9FC_1A22

  predicate HasFlag(t: Word64, flag: nat)
    requires flag > 0
  {
    t / flag % 2 == 1
  }

  // t & ~FIRST
  function ClearFirst(t: Word64): Word64 {
    if HasFlag(t, FLAG_FIRST) then t - FLAG_FIRST else t
  }

  // t | FINAL
  function SetFinal(t: Word64): Word64 {
    if HasFlag(t, FLAG_FINAL) then t else t + FLAG_FINAL
  }

  lemma ClearTwice(t: Word64)
    ensures !HasFlag(ClearFirst(t), FLAG_FIRST) && ClearFirst(ClearFirst(t)) == ClearFirst(t)
  {
  }

  // ---------------------------------------------------------------- one block

  function KeyWords(x: Block8): Key9 {
    var half := Xor64(Xor64(Xor64(x[0], x[1]), x[2]), x[3]);
    x + [Xor64(Xor64(Xor64(Xor64(Xor64(half, x[4]), x[5]), x[6]), x[7]), KS_PARITY)]
  }

  function TweakWords(t0: Word64, t1: Word64): Tweak3 {
    [t0, t1, Xor64(t0, t1)]
  }

  function XorBlock(x: Block8, y: Block8): Block8 {
    var r: seq<Word64> := seq(8, i requires 0 <= i < 8 => Xor64(x[i], y[i]));
    r
  }

  // The chaining value after one block under tweak t0, t1.
  function Ubi(x: Block8, t0: Word64, t1: Word64, block: seq<Byte>): Block8
    requires |block| == BLOCK_BYTES
  {
    var w := BlockWords(block);
    XorBlock(Encrypt(w, KeyWords(x), TweakWords(t0, t1), 18), w)
  }

  // ---------------------------------------------------------------- the specification

  // Blocks of a message of n bytes that are processed before the final one.
  function FullBlocks(n: nat): nat {
    if n == 0 then 0 else (n - 1) / BLOCK_BYTES
  }

  // The tweak flags for block k: only the first block carries FIRST.
  function FlagsAt(t1: Word64, k: nat): Word64 {
    if k == 0 then t1 else ClearFirst(t1)
  }

  // The chaining value after the first k blocks of m; block i is tweaked with the byte count
  // at its end.
  function Chain(x: Block8, t1: Word64, m: seq<Byte>, k: nat): Block8
    requires BLOCK_BYTES * k <= |m|
  {
    if k == 0 then x
    else Ubi(Chain(x, t1, m, k - 1), (BLOCK_BYTES * k) % TWO64, FlagsAt(t1, k - 1), Block(m, k - 1))
  }

  // The last, zero-padded block of m.
  function LastBlock(m: seq<Byte>): (b: seq<Byte>)
    ensures |b| == BLOCK_BYTES
  {
    var tail := m[BLOCK_BYTES * FullBlocks(|m|)..];
    tail + Zeros(BLOCK_BYTES - |tail|)
  }

  // The chaining value of the whole message: the last block is flagged FINAL and counts the
  // bytes of the message, not of the padding.
  function MessageChain(x: Block8, t1: Word64, m: seq<Byte>): Block8 {
    var n := FullBlocks(|m|);
    Ubi(Chain(x, t1, m, n), |m| % TWO64, SetFinal(FlagsAt(t1, n)), LastBlock(m))
  }

  // Output block i, made from the last chaining value in counter mode.
  function OutputBlock(x: Block8, i: nat): Block8 {
    Ubi(x, 8, FLAG_FIRST + TYPE_OUT + FLAG_FINAL, Put64(i % TWO64) + Zeros(BLOCK_BYTES - 8))
  }

  function OutputBlocks(x: Block8, n: nat): (b: seq<Byte>)
    ensures |b| == BLOCK_BYTES * n
  {
    if n == 0 then [] else OutputBlocks(x, n - 1) + BlockBytes(OutputBlock(x, n - 1))
  }

  // The chaining value depends on the blocks processed only.
  lemma {:induction false} ChainPrefix(x: Block8, t1: Word64, m: seq<Byte>, more: seq<Byte>, k: nat)
    requires BLOCK_BYTES * k <= |m|
    ensures Chain(x, t1, m + more, k) == Chain(x, t1, m, k)
  {
    hide Ubi;
    if k > 0 {
      ChainPrefix(x, t1, m, more, k - 1);
      assert Block(m + more, k - 1) == Block(m, k - 1);
    }
  }

  // ---------------------------------------------------------------- the context

  class Context {
    var hashBitLen: nat
    var bCnt: nat
    var t0: Word64
    var t1: Word64
    var x: Block8
    const b: array<Byte>

    // Initialised for a message, with the precomputed chaining value iv.
    constructor (hashBitLen: nat, iv: Block8)
      ensures fresh(b) && Absorbed(iv, FLAG_FIRST + TYPE_MSG, []) && this.hashBitLen == hashBitLen
    {
      this.hashBitLen := hashBitLen;
      x := iv;
      t0, t1, bCnt := 0, FLAG_FIRST + TYPE_MSG, 0;
      b := new Byte[BLOCK_BYTES];
    }

    // The context depends on the concatenation m of all bytes fed to it and on nothing else:
    // chaining value, byte count, FIRST flag, and the bytes still buffered.
    ghost predicate Absorbed(iv: Block8, flags: Word64, m: seq<Byte>)
      reads this, b
    {
      var n := FullBlocks(|m|);
      && b.Length == BLOCK_BYTES
      && x == Chain(iv, flags, m, n)
      && t0 == (BLOCK_BYTES * n) % TWO64
      && t1 == FlagsAt(flags, n)
      && bCnt == |m| - BLOCK_BYTES * n
      && b[..bCnt] == m[BLOCK_BYTES * n..]
    }

    // Skein_512_Process_Block on blkCnt consecutive blocks of blk, the compiled form of the
    // cipher chosen by unroll. Count and flags stay at the start of the one kw array from block
    // to block; no form of the cipher writes there.
    method ProcessBlock(blk: seq<Byte>, blkCnt: nat, byteCntAdd: nat, unroll: nat)
      requires blkCnt > 0 && |blk| == BLOCK_BYTES * blkCnt
      requires unroll == 0 || 9 % unroll == 0
      modifies this`x, this`t0, this`t1
      ensures (x, t0, t1) == Process(old(x), old(t0), old(t1), blk, blkCnt, byteCntAdd)
    {
      hide Encrypt, KeyWords, TweakWords, BlockWords, XorBlock, ClearFirst, Add64, Block;
      var kw := new Word64[if unroll == 0 then 12 else 30];
      kw[KW_TWK_BASE], kw[KW_TWK_BASE + 1] := t0, t1;
      ghost var x0 := x;
      for n := 0 to blkCnt
        invariant t0 == old(t0) && t1 == old(t1)
        invariant (x, kw[KW_TWK_BASE], kw[KW_TWK_BASE + 1]) == Process(x0, t0, t1, blk, n, byteCntAdd)
      {
        kw[KW_TWK_BASE] := Add64(kw[KW_TWK_BASE], byteCntAdd % TWO64);
        var w := BlockWords(Block(blk, n));
        var y := RunCipher(kw, x, w, unroll);
        x := XorBlock(y, w);
        kw[KW_TWK_BASE + 1] := ClearFirst(kw[KW_TWK_BASE + 1]);
      }
      t0, t1 := kw[KW_TWK_BASE], kw[KW_TWK_BASE + 1];
    }

    // Chaining value, count and flags stand after k blocks of m.
    ghost predicate Chained(iv: Block8, flags: Word64, m: seq<Byte>, k: nat)
      reads this
    {
      && BLOCK_BYTES * k <= |m| && x == Chain(iv, flags, m, k)
      && t0 == (BLOCK_BYTES * k) % TWO64 && t1 == FlagsAt(flags, k)
    }

    // Process n whole blocks that follow the first k of m.
    method ProcessNext(blk: seq<Byte>, n: nat, unroll: nat, ghost iv: Block8, ghost flags: Word64,
                       ghost m: seq<Byte>, ghost k: nat)
      requires n > 0 && |blk| == BLOCK_BYTES * n && (unroll == 0 || 9 % unroll == 0)
      requires Chained(iv, flags, m, k) && BLOCK_BYTES * k + |blk| <= |m|
      requires blk == m[BLOCK_BYTES * k..BLOCK_BYTES * k + |blk|]
      modifies this`x, this`t0, this`t1
      ensures Chained(iv, flags, m, k + n)
    {
      hide Process, Chain, FlagsAt;
      BlocksFromSlice(m, k, blk, n);
      ProcessIsChain(iv, flags, m, k, blk, n);
      ProcessBlock(blk, n, BLOCK_BYTES, unroll);
    }

    method CopyIn(src: seq<Byte>)
      requires b.Length == BLOCK_BYTES && bCnt + |src| <= BLOCK_BYTES
      modifies this`bCnt, b
      ensures bCnt == old(bCnt) + |src| && b[..bCnt] == old(b[..bCnt]) + src
    {
      for i := 0 to |src|
        invariant bCnt == old(bCnt)
        invariant b[..bCnt] == old(b[..bCnt])
        invariant b[bCnt..bCnt + i] == src[..i]
      {
        b[bCnt + i] := src[i];
      }
      assert b[..bCnt + |src|] == b[..bCnt] + b[bCnt..bCnt + |src|];
      bCnt := bCnt + |src|;
    }

    // Fill the buffer from the input and process it.
    method FlushBuffer(msg: seq<Byte>, unroll: nat, ghost iv: Block8, ghost flags: Word64, ghost m: seq<Byte>,
                       ghost k: nat)
      returns (rest: seq<Byte>)
      requires Chained(iv, flags, m, k) && 0 < bCnt <= BLOCK_BYTES == b.Length && (unroll == 0 || 9 % unroll == 0)
      requires b[..bCnt] + msg == m[BLOCK_BYTES * k..] && |msg| + bCnt > BLOCK_BYTES
      modifies this`x, this`t0, this`t1, this`bCnt, b
      ensures Chained(iv, flags, m, k + 1) && bCnt == 0 && rest != [] && rest == m[BLOCK_BYTES * (k + 1)..]
    {
      hide Chain, FlagsAt;
      var n := BLOCK_BYTES - bCnt;
      ghost var tail := m[BLOCK_BYTES * k..];
      rest := msg;
      if n != 0 {
        CopyIn(rest[..n]);
        rest := rest[n..];
      }
      assert b[..] == tail[..BLOCK_BYTES] == m[BLOCK_BYTES * k..BLOCK_BYTES * k + BLOCK_BYTES];
      ProcessNext(b[..], 1, unroll, iv, flags, m, k);
      bCnt := 0;
      assert rest == tail[BLOCK_BYTES..];
    }

    // Process whole blocks straight from the input, keeping back 1 to 64 bytes.
    method ProcessBulk(msg: seq<Byte>, unroll: nat, ghost iv: Block8, ghost flags: Word64, ghost m: seq<Byte>,
                       ghost k: nat)
      returns (rest: seq<Byte>)
      requires Chained(iv, flags, m, k) && msg != [] && msg == m[BLOCK_BYTES * k..] && (unroll == 0 || 9 % unroll == 0)
      modifies this`x, this`t0, this`t1
      ensures Chained(iv, flags, m, FullBlocks(|m|)) && rest == m[BLOCK_BYTES * FullBlocks(|m|)..]
    {
      hide Chain, FlagsAt, FullBlocks;
      BulkCount(k, |msg|);
      rest := msg;
      if |rest| > BLOCK_BYTES {
        var n := (|rest| - 1) / BLOCK_BYTES;
        ProcessNext(rest[..BLOCK_BYTES * n], n, unroll, iv, flags, m, k);
        rest := rest[BLOCK_BYTES * n..];
      }
    }

    // Skein_512_Update. A full buffer is processed only when more input follows it.
    method Update(input: seq<Byte>, unroll: nat, ghost iv: Block8, ghost flags: Word64, ghost m: seq<Byte>)
      requires Absorbed(iv, flags, m) && (unroll == 0 || 9 % unroll == 0)
      modifies this`x, this`t0, this`t1, this`bCnt, b
      ensures Absorbed(iv, flags, m + input)
      ensures m + input != [] ==> 1 <= bCnt <= BLOCK_BYTES
    {
      hide Chain, FlagsAt;
      ghost var all, k := m + input, FullBlocks(|m|);
      ChainPrefix(iv, flags, m, input, k);
      assert all[BLOCK_BYTES * k..] == m[BLOCK_BYTES * k..] + input;
      var msg := input;
      if |msg| + bCnt > BLOCK_BYTES {
        if bCnt != 0 {
          msg := FlushBuffer(msg, unroll, iv, flags, all, k);
          k := k + 1;
        }
        msg := ProcessBulk(msg, unroll, iv, flags, all, k);
        k := FullBlocks(|all|);
      }
      assert k == FullBlocks(|all|);
      if |msg| > 0 {
        CopyIn(msg);
      }
    }

    // Zero the buffer from byte `from` on.
    method ZeroFrom(from: nat)
      requires b.Length == BLOCK_BYTES && from <= BLOCK_BYTES
      modifies b
      ensures b[..] == old(b[..from]) + Zeros(BLOCK_BYTES - from)
    {
      for i := from to BLOCK_BYTES
        invariant b[..from] == old(b[..from])
        invariant forall j | from <= j < i :: b[j] == 0
      {
        b[i] := 0;
      }
    }

    // The last block: flagged FINAL, zero-padded, counted by its message bytes.
    method ProcessLast(unroll: nat, ghost iv: Block8, ghost flags: Word64, ghost m: seq<Byte>)
      requires Absorbed(iv, flags, m) && (unroll == 0 || 9 % unroll == 0)
      modifies this`x, this`t0, this`t1, b
      ensures x == MessageChain(iv, flags, m)
    {
      hide Chain, FlagsAt, Ubi, SetFinal, ClearFirst;
      t1 := SetFinal(t1);
      if bCnt < BLOCK_BYTES {
        ZeroFrom(bCnt);
      } else {
        assert b[..bCnt] == b[..];
      }
      assert b[..] == LastBlock(m);
      ghost var n := FullBlocks(|m|);
      LastCount(n, bCnt);
      assert Block(b[..], 0) == b[..];
      ProcessBlock(b[..], 1, bCnt, unroll);
    }

    // Skein_512_Final: the last block, then the output in counter mode.
    method Final(unroll: nat, ghost iv: Block8, ghost flags: Word64, ghost m: seq<Byte>) returns (hashVal: seq<Byte>)
      requires Absorbed(iv, flags, m) && (unroll == 0 || 9 % unroll == 0)
      modifies this`x, this`t0, this`t1, this`bCnt, b
      ensures hashVal == Output(MessageChain(iv, flags, m), (hashBitLen + 7) / 8)
    {
      hide Ubi, MessageChain, OutputBlock, FirstOutput, OutputBlocks, BlockBytes;
      FirstOutputEnds(MessageChain(iv, flags, m), (hashBitLen + 7) / 8);
      ProcessLast(unroll, iv, flags, m);
      var byteCnt := (hashBitLen + 7) / 8;
      ZeroFrom(0);
      var key := x;
      hashVal := [];
      var i := 0;
      while i * BLOCK_BYTES < byteCnt
        invariant x == key && b[8..] == Zeros(BLOCK_BYTES - 8)
        invariant i <= BlockCount(byteCnt) && hashVal == FirstOutput(key, byteCnt, i)
        decreases byteCnt - i * BLOCK_BYTES
      {
        PutCounter(i);
        OutputStep(unroll, i);
        var n := byteCnt - i * BLOCK_BYTES;
        if n >= BLOCK_BYTES {
          n := BLOCK_BYTES;
        }
        hashVal := hashVal + BlockBytes(x)[..n];
        FirstOutputStep(key, byteCnt, i);
        x := key;
        i := i + 1;
      }
    }

    method PutCounter(i: nat)
      requires b.Length == BLOCK_BYTES && b[8..] == Zeros(BLOCK_BYTES - 8)
      modifies b
      ensures b[..] == Put64(i % TWO64) + Zeros(BLOCK_BYTES - 8)
    {
      for j := 0 to 8
        invariant b[..j] == Put64(i % TWO64)[..j] && b[8..] == Zeros(BLOCK_BYTES - 8)
      {
        b[j] := Put64(i % TWO64)[j];
      }
      assert b[..] == b[..8] + b[8..];
    }

    method OutputStep(unroll: nat, i: nat)
      requires (unroll == 0 || 9 % unroll == 0) && b[..] == Put64(i % TWO64) + Zeros(BLOCK_BYTES - 8)
      modifies this`x, this`t0, this`t1, this`bCnt
      ensures x == OutputBlock(old(x), i)
    {
      hide Ubi;
      t0, t1, bCnt := 0, FLAG_FIRST + TYPE_OUT + FLAG_FINAL, 0;
      assert Block(b[..], 0) == b[..];
      assert Add64(0, 8 % TWO64) == 8;
      ProcessBlock(b[..], 1, 8, unroll);
    }
  }

  lemma BulkCount(k: nat, n: nat)
    requires n > 0
    ensures FullBlocks(BLOCK_BYTES * k + n) == k + (n - 1) / BLOCK_BYTES
    ensures n <= BLOCK_BYTES ==> (n - 1) / BLOCK_BYTES == 0
    ensures BLOCK_BYTES * ((n - 1) / BLOCK_BYTES) <= n
  {
  }

  lemma LastCount(n: nat, c: nat)
    ensures Add64((BLOCK_BYTES * n) % TWO64, c % TWO64) == (BLOCK_BYTES * n + c) % TWO64
  {
  }

  function BlockCount(byteCnt: nat): nat {
    (byteCnt + BLOCK_BYTES - 1) / BLOCK_BYTES
  }

  // The first byteCnt output bytes for a last chaining value.
  function Output(x: Block8, byteCnt: nat): seq<Byte> {
    OutputBlocks(x, BlockCount(byteCnt))[..byteCnt]
  }

  // What the first i output blocks contribute.
  function FirstOutput(x: Block8, byteCnt: nat, i: nat): seq<Byte> {
    OutputBlocks(x, i)[..if i * BLOCK_BYTES <= byteCnt then i * BLOCK_BYTES else byteCnt]
  }

  lemma FirstOutputStep(x: Block8, byteCnt: nat, i: nat)
    requires i * BLOCK_BYTES < byteCnt
    ensures FirstOutput(x, byteCnt, i + 1) == FirstOutput(x, byteCnt, i) + BlockBytes(OutputBlock(x, i))[
              ..if byteCnt - i * BLOCK_BYTES >= BLOCK_BYTES then BLOCK_BYTES else byteCnt - i * BLOCK_BYTES]
  {
    hide OutputBlock, BlockBytes;
  }

  lemma FirstOutputEnds(x: Block8, byteCnt: nat)
    ensures FirstOutput(x, byteCnt, 0) == []
    ensures FirstOutput(x, byteCnt, BlockCount(byteCnt)) == Output(x, byteCnt)
  {
    hide OutputBlock, BlockBytes;
  }

  // skein_hash and xmr_skein: any message fed in one call.
  method Hash(hashBitLen: nat, iv: Block8, data: seq<Byte>, unroll: nat) returns (hashVal: seq<Byte>)
    requires unroll == 0 || 9 % unroll == 0
    ensures hashVal == Output(MessageChain(iv, FLAG_FIRST + TYPE_MSG, data), (hashBitLen + 7) / 8)
  {
    hide Output, MessageChain, Chain, Put64;
    var ctx := new Context(hashBitLen, iv);
    ctx.Update(data, unroll, iv, FLAG_FIRST + TYPE_MSG, []);
    assert [] + data == data;
    hashVal := ctx.Final(unroll, iv, FLAG_FIRST + TYPE_MSG, data);
  }

  // The cipher on one block, keyed with x and tweaked with the first two words of kw, which stay.
  method RunCipher(kw: array<Word64>, x: Block8, w: Block8, unroll: nat) returns (y: Block8)
    requires unroll == 0 || 9 % unroll == 0
    requires kw.Length == if unroll == 0 then 12 else 30
    modifies kw
    ensures y == Encrypt(w, KeyWords(x), TweakWords(old(kw[0]), old(kw[1])), 18)
    ensures kw[0] == old(kw[0]) && kw[1] == old(kw[1])
  {
    hide Encrypt, KeyWords, TweakWords, Window;
    LoadSchedule(kw, x);
    if unroll == 0 {
      y := EncryptUnrolled(kw, w, KeyWords(x), TweakWords(kw[0], kw[1]));
    } else {
      y := EncryptLooping(kw, w, unroll, KeyWords(x), TweakWords(kw[0], kw[1]));
    }
  }

  // Chaining words, their parity, and the third tweak word, laid out for the cipher.
  method LoadSchedule(kw: array<Word64>, x: Block8)
    requires kw.Length >= 12
    modifies kw
    ensures Window(kw[..], KeyWords(x), TweakWords(kw[0], kw[1]), 0)
    ensures kw[0] == old(kw[0]) && kw[1] == old(kw[1])
  {
    hide Xor64;
    for i := 0 to 8
      invariant kw[0] == old(kw[0]) && kw[1] == old(kw[1])
      invariant forall j | 0 <= j < i :: kw[KW_KEY_BASE + j] == x[j]
    {
      kw[KW_KEY_BASE + i] := x[i];
    }
    kw[KW_KEY_BASE + 8] := KeyWords(x)[8];
    kw[KW_TWK_BASE + 2] := Xor64(kw[KW_TWK_BASE], kw[KW_TWK_BASE + 1]);
    forall i | 3 <= i < 12 ensures kw[i] == KeyWords(x)[(i - 3) % 9] {
      if i < 11 { assert kw[KW_KEY_BASE + (i - 3)] == x[i - 3]; }
    }
  }

  // What Process_Block makes of chaining value and tweak, block by block.
  function Process(x: Block8, t0: Word64, t1: Word64, blk: seq<Byte>, n: nat, byteCntAdd: nat): (Block8, Word64, Word64)
    requires BLOCK_BYTES * n <= |blk|
  {
    if n == 0 then (x, t0, t1)
    else
      var p := Process(x, t0, t1, blk, n - 1, byteCntAdd);
      var ts0 := Add64(p.1, byteCntAdd % TWO64);
      (Ubi(p.0, ts0, p.2, Block(blk, n - 1)), ts0, ClearFirst(p.2))
  }

  // n blocks of blk are the blocks of m from block k on.
  ghost predicate SameBlocks(m: seq<Byte>, k: nat, blk: seq<Byte>, n: nat) {
    BLOCK_BYTES * (k + n) <= |m| && BLOCK_BYTES * n <= |blk| &&
    forall i | 0 <= i < n :: Block(blk, i) == Block(m, k + i)
  }

  // Processing consecutive whole blocks of m continues its chain.
  lemma {:induction false} ProcessIsChain(iv: Block8, flags: Word64, m: seq<Byte>, k: nat, blk: seq<Byte>, n: nat)
    requires SameBlocks(m, k, blk, n)
    ensures Process(Chain(iv, flags, m, k), (BLOCK_BYTES * k) % TWO64, FlagsAt(flags, k), blk, n, BLOCK_BYTES)
         == (Chain(iv, flags, m, k + n), (BLOCK_BYTES * (k + n)) % TWO64, FlagsAt(flags, k + n))
  {
    hide Ubi, Add64, ClearFirst, Block;
    if n > 0 {
      ProcessIsChain(iv, flags, m, k, blk, n - 1);
      ClearTwice(flags);
      NextCount(k + n - 1);
      assert Block(blk, n - 1) == Block(m, k + (n - 1));
    }
  }

  lemma NextCount(k: nat)
    ensures Add64((BLOCK_BYTES * k) % TWO64, BLOCK_BYTES % TWO64) == (BLOCK_BYTES * (k + 1)) % TWO64
  {
  }

  lemma SubSlice(m: seq<Byte>, start: nat, size: nat, from: nat, n: nat)
    requires start + size <= |m| && from + n <= size
    ensures m[start..start + size][from..from + n] == m[start + from..start + from + n]
  {
    var s, a, b := m[start..start + size], m[start..start + size][from..from + n], m[start + from..start + from + n];
    forall j | 0 <= j < n
      ensures a[j] == b[j]
    {
      assert a[j] == s[from + j] == m[start + (from + j)];
    }
  }

  lemma BlocksFromSlice(m: seq<Byte>, k: nat, blk: seq<Byte>, n: nat)
    requires |blk| == BLOCK_BYTES * n && BLOCK_BYTES * k + |blk| <= |m|
    requires blk == m[BLOCK_BYTES * k..BLOCK_BYTES * k + |blk|]
    ensures SameBlocks(m, k, blk, n)
  {
    forall i | 0 <= i < n
      ensures Block(blk, i) == Block(m, k + i)
    {
      SubSlice(m, BLOCK_BYTES * k, |blk|, BLOCK_BYTES * i, BLOCK_BYTES);
    }
  }
}
