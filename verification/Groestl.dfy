// Groestl-256 around an abstract compression function: the streaming update, and the final
// padding that carries the number of blocks.
module Groestl {
  import opened Words
  import opened Blocks

  const LENGTH_BYTES := 8
  const HASH_BYTES := 32

  type State64 = h: seq<Byte> | |h| == BLOCK_BYTES witness seq(BLOCK_BYTES, _ => 0)

  // F512 and the output transformation.
  datatype Functions = Functions(compress: (State64, seq<Byte>) -> State64, output: State64 -> State64)

  // ---------------------------------------------------------------- the specification

  // The chaining value after the first k blocks of p.
  function Chain(f: Functions, iv: State64, p: seq<Byte>, k: nat): State64
    requires BLOCK_BYTES * k <= |p|
  {
    if k == 0 then iv else f.compress(Chain(f, iv, p, k - 1), Block(p, k - 1))
  }

  // The number of blocks of the padded message of n bytes.
  function PaddedBlocks(n: nat): nat {
    n / BLOCK_BYTES + if n % BLOCK_BYTES < BLOCK_BYTES - LENGTH_BYTES then 1 else 2
  }

  // A one bit, zeros, and the number of blocks in two words.
  function Padded(m: seq<Byte>): (p: seq<Byte>)
    ensures |p| == BLOCK_BYTES * PaddedBlocks(|m|)
  {
    var n := PaddedBlocks(|m|);
    m + [0x80] + Zeros(BLOCK_BYTES * n - LENGTH_BYTES - |m| - 1) + Put32(High(n)) + Put32(Low(n))
  }

  // The padding on bits, as section 3.6 of the Groestl specification lays it out: a one, the fewest
  // zeros, and the number of 512-bit blocks in 64 bits, up to a whole number of blocks.
  lemma PaddingIsOneZerosCount(m: seq<Byte>) returns (z: nat, count: seq<bool>)
    ensures |count| == 64 && z < 512 && (8 * |m| + 1 + z + 64) % 512 == 0
    ensures Number(count) == (8 * |m| + 1 + z + 64) / 512 % TWO64
    ensures Bits(Padded(m)) == Bits(m) + [true] + Falses(z) + count
  {
    hide Put32, High, Low, Bits, Number, PaddedBlocks;
    var n := PaddedBlocks(|m|);
    PaddedSize(|m|);
    var zeros, tail := BLOCK_BYTES * n - LENGTH_BYTES - |m| - 1, Put32(High(n)) + Put32(Low(n));
    z, count := 7 + 8 * zeros, Bits(tail);
    CounterBits(n);
    EdgeBytes();
    ZeroBits(zeros);
    BitsConcat(m, [0x80]);
    BitsConcat(m + [0x80], Zeros(zeros));
    BitsConcat(m + [0x80] + Zeros(zeros), tail);
    assert Padded(m) == m + [0x80] + Zeros(zeros) + tail;
  }

  lemma PaddedSize(n: nat)
    ensures var zeros := BLOCK_BYTES * PaddedBlocks(n) - LENGTH_BYTES - n - 1;
            0 <= zeros < 64 && 8 * n + 1 + (7 + 8 * zeros) + 64 == 512 * PaddedBlocks(n)
    ensures 512 * PaddedBlocks(n) % 512 == 0 && 512 * PaddedBlocks(n) / 512 == PaddedBlocks(n)
  {
    DivModUnique(512 * PaddedBlocks(n), 512, PaddedBlocks(n), 0);
  }

  function HashOf(f: Functions, iv: State64, m: seq<Byte>): seq<Byte> {
    f.output(Chain(f, iv, Padded(m), PaddedBlocks(|m|)))[BLOCK_BYTES - HASH_BYTES..]
  }

  // The hash is the last 256 bits of the last state.
  lemma HashIsLastHalf(f: Functions, iv: State64, m: seq<Byte>)
    ensures var last := f.output(Chain(f, iv, Padded(m), PaddedBlocks(|m|)));
            |HashOf(f, iv, m)| == 32 && last == last[..32] + HashOf(f, iv, m)
  {
  }

  lemma {:induction false} ChainPrefix(f: Functions, iv: State64, p: seq<Byte>, p': seq<Byte>, k: nat)
    requires BLOCK_BYTES * k <= |p| && BLOCK_BYTES * k <= |p'| && p[..BLOCK_BYTES * k] == p'[..BLOCK_BYTES * k]
    ensures Chain(f, iv, p, k) == Chain(f, iv, p', k)
  {
    if k > 0 {
      var a, b := p[..BLOCK_BYTES * k], p'[..BLOCK_BYTES * k];
      assert p[..BLOCK_BYTES * (k - 1)] == a[..BLOCK_BYTES * (k - 1)];
      assert p'[..BLOCK_BYTES * (k - 1)] == b[..BLOCK_BYTES * (k - 1)];
      ChainPrefix(f, iv, p, p', k - 1);
      assert Block(p, k - 1) == a[BLOCK_BYTES * (k - 1)..];
      assert Block(p', k - 1) == b[BLOCK_BYTES * (k - 1)..];
    }
  }

  lemma ChainStep(f: Functions, iv: State64, p: seq<Byte>, k: nat)
    requires k > 0 && BLOCK_BYTES * k <= |p|
    ensures Chain(f, iv, p, k) == f.compress(Chain(f, iv, p, k - 1), Block(p, k - 1))
  {
  }

  lemma NextCount(k: nat)
    ensures Low(k + 1) == (Low(k) + 1) % TWO32
    ensures High(k + 1) == if Low(k + 1) == 0 then (High(k) + 1) % TWO32 else High(k)
  {
    var a, b := k / TWO32, k % TWO32;
    WordsOf(k, a, b);
    hide Low, High;
    if b + 1 < TWO32 {
      WordsOf(k + 1, a, b + 1);
    } else {
      WordsOf(k + 1, a + 1, 0);
      NextMod(a);
    }
  }

  lemma NextMod(a: nat)
    ensures (a + 1) % TWO32 == (a % TWO32 + 1) % TWO32
  {
    var q, r := a / TWO32, a % TWO32;
    if r + 1 < TWO32 {
      DivModUnique(a + 1, TWO32, q, r + 1);
    } else {
      DivModUnique(a + 1, TWO32, q + 1, 0);
    }
  }

  // A number of bytes cast to a signed 32-bit int.
  function AsInt(n: nat): int {
    var low := n % TWO32;
    if low < TWO31 then low else low - TWO32
  }

  // The bytes the update reads: as many as its int length says, and none when that is negative.
  function Read(input: seq<Byte>): seq<Byte> {
    var length := AsInt(|input|);
    if length < 0 then [] else input[..length]
  }

  lemma ReadExactly(input: seq<Byte>)
    ensures |Read(input)| <= |input| && Read(input) == input[..|Read(input)|]
    ensures Read(input) == input <==> |input| < TWO31
    ensures |Read(input)| < TWO31
  {
    if |input| < TWO31 {
      assert AsInt(|input|) == |input|;
    }
  }

  // Lengths less than 2^70 apart leave different counters or buffer positions.
  lemma CountsTell(n: nat, n': nat)
    requires n < n' < n + TWO64
    ensures Low(n / BLOCK_BYTES) != Low(n' / BLOCK_BYTES)
         || High(n / BLOCK_BYTES) != High(n' / BLOCK_BYTES)
         || n % BLOCK_BYTES != n' % BLOCK_BYTES
  {
  }

  // ---------------------------------------------------------------- the context

  class Context {
    const f: Functions
    var chaining: State64
    var counter1: Word32
    var counter2: Word32
    const buffer: array<Byte>
    var bufPtr: nat

    constructor (f: Functions, iv: State64)
      ensures fresh(buffer) && this.f == f && Holds(iv, [])
    {
      this.f := f;
      chaining := iv;
      counter1, counter2, bufPtr := 0, 0, 0;
      buffer := new Byte[BLOCK_BYTES];
    }

    // Chaining value and counter stand after k blocks of m.
    ghost predicate Aligned(iv: State64, m: seq<Byte>, k: nat)
      reads this
    {
      BLOCK_BYTES * k <= |m| && chaining == Chain(f, iv, m, k) && counter1 == Low(k) && counter2 == High(k)
    }

    // Chaining value, block count and buffered bytes depend on the message m so far and on
    // nothing else.
    ghost predicate Holds(iv: State64, m: seq<Byte>)
      reads this, buffer
    {
      var n := |m| / BLOCK_BYTES;
      Aligned(iv, m, n) && buffer.Length == BLOCK_BYTES && bufPtr == |m| % BLOCK_BYTES
      && buffer[..bufPtr] == m[BLOCK_BYTES * n..]
    }

    // One turn of Transform's loop.
    method Compress(block: seq<Byte>)
      modifies this`chaining, this`counter1, this`counter2
      ensures chaining == f.compress(old(chaining), block)
      ensures counter1 == (old(counter1) + 1) % TWO32
      ensures counter2 == if counter1 == 0 then (old(counter2) + 1) % TWO32 else old(counter2)
    {
      chaining := f.compress(chaining, block);
      counter1 := (counter1 + 1) % TWO32;
      if counter1 == 0 {
        counter2 := (counter2 + 1) % TWO32;
      }
    }

    method Digest(block: seq<Byte>, ghost iv: State64, ghost m: seq<Byte>, ghost k: nat)
      requires Aligned(iv, m, k) && BLOCK_BYTES * k + BLOCK_BYTES <= |m| && block == Block(m, k)
      modifies this`chaining, this`counter1, this`counter2
      ensures Aligned(iv, m, k + 1)
    {
      hide Low, High;
      NextCount(k);
      Compress(block);
    }

    // Every whole block of the input, which continues m from block k on.
    method Transform(input: seq<Byte>, ghost iv: State64, ghost m: seq<Byte>, ghost k: nat)
      requires BLOCK_BYTES * k <= |m| && Aligned(iv, m, k) && input == m[BLOCK_BYTES * k..]
      modifies this`chaining, this`counter1, this`counter2
      ensures Aligned(iv, m, |m| / BLOCK_BYTES)
    {
      hide Aligned;
      var rest := input;
      ghost var i := k;
      while |rest| >= BLOCK_BYTES
        invariant BLOCK_BYTES * i <= |m| && Aligned(iv, m, i) && rest == m[BLOCK_BYTES * i..]
        decreases |rest|
      {
        assert rest[..BLOCK_BYTES] == Block(m, i);
        Digest(rest[..BLOCK_BYTES], iv, m, i);
        rest := rest[BLOCK_BYTES..];
        i := i + 1;
      }
      DivModUnique(|m|, BLOCK_BYTES, i, |rest|);
    }

    method Store(src: seq<Byte>)
      requires buffer.Length == BLOCK_BYTES && bufPtr + |src| <= BLOCK_BYTES
      modifies this`bufPtr, buffer
      ensures bufPtr == old(bufPtr) + |src| && buffer[..bufPtr] == old(buffer[..bufPtr]) + src
    {
      ghost var start := bufPtr;
      for index := 0 to |src|
        invariant bufPtr == start + index && bufPtr <= BLOCK_BYTES
        invariant buffer[..bufPtr] == old(buffer[..bufPtr]) + src[..index]
      {
        buffer[bufPtr] := src[index];
        bufPtr := bufPtr + 1;
      }
    }

    // The buffer filled from the input as far as it goes, and digested when it is full.
    method FillBuffer(input: seq<Byte>, ghost iv: State64, ghost all: seq<Byte>, ghost k: nat) returns (rest: seq<Byte>)
      requires Aligned(iv, all, k) && buffer.Length == BLOCK_BYTES && 0 < bufPtr < BLOCK_BYTES
      requires all[BLOCK_BYTES * k..] == buffer[..bufPtr] + input
      modifies this`chaining, this`counter1, this`counter2, this`bufPtr, buffer
      ensures bufPtr != 0 ==> Holds(iv, all)
      ensures bufPtr == 0 ==> Aligned(iv, all, k + 1) && rest == all[BLOCK_BYTES * (k + 1)..]
    {
      hide Low, High, Chain;
      ghost var tail := all[BLOCK_BYTES * k..];
      var fill := if |input| < BLOCK_BYTES - bufPtr then |input| else BLOCK_BYTES - bufPtr;
      Store(input[..fill]);
      rest := input[fill..];
      if bufPtr < BLOCK_BYTES {
        DivModUnique(|all|, BLOCK_BYTES, k, bufPtr);
        assert buffer[..bufPtr] == tail;
      } else {
        assert buffer[..] == tail[..BLOCK_BYTES] == Block(all, k);
        Digest(buffer[..], iv, all, k);
        assert rest == tail[BLOCK_BYTES..];
        bufPtr := 0;
      }
    }

    // Update with whole bytes: after m and then input, the context holds m and what is read of the
    // input. It holds all of the input exactly when that is shorter than 2^31 bytes.
    method Update(input: seq<Byte>, ghost iv: State64, ghost m: seq<Byte>)
      requires Holds(iv, m)
      modifies this`chaining, this`counter1, this`counter2, this`bufPtr, buffer
      ensures Holds(iv, m + Read(input))
      ensures |input| < TWO64 ==> (Holds(iv, m + input) <==> |input| < TWO31)
    {
      hide Low, High, Chain;
      UpdateRead(Read(input), iv, m);
      ReadExactly(input);
      if |input| < TWO31 {
        assert Holds(iv, m + input);
      } else if |input| < TWO64 && Holds(iv, m + input) {
        CountsTell(|m + Read(input)|, |m + input|);
      }
    }

    method UpdateRead(input: seq<Byte>, ghost iv: State64, ghost m: seq<Byte>)
      requires Holds(iv, m)
      modifies this`chaining, this`counter1, this`counter2, this`bufPtr, buffer
      ensures Holds(iv, m + input)
    {
      hide Low, High, Chain;
      ghost var all, k := m + input, |m| / BLOCK_BYTES;
      ChainPrefix(f, iv, m, all, k);
      assert all[BLOCK_BYTES * k..] == m[BLOCK_BYTES * k..] + input;
      var rest := input;
      if bufPtr != 0 {
        rest := FillBuffer(input, iv, all, k);
        if bufPtr != 0 {
          return;
        }
        k := k + 1;
      }
      TailOf(all, k, rest);
      Transform(rest, iv, all, k);
      Store(rest[BLOCK_BYTES * (|rest| / BLOCK_BYTES)..]);
    }

    method ZeroUpTo(end: nat)
      requires buffer.Length == BLOCK_BYTES && bufPtr <= end <= BLOCK_BYTES
      modifies this`bufPtr, buffer
      ensures bufPtr == end && buffer[..end] == old(buffer[..bufPtr]) + Zeros(end - old(bufPtr))
    {
      ghost var start := bufPtr;
      while bufPtr < end
        invariant start <= bufPtr <= end
        invariant buffer[..bufPtr] == old(buffer[..bufPtr]) + Zeros(bufPtr - start)
      {
        buffer[bufPtr] := 0;
        bufPtr := bufPtr + 1;
      }
    }

    // A counter word written backwards, shifted out byte by byte.
    method PutBack(counter: Word32) returns (left: Word32)
      requires buffer.Length == BLOCK_BYTES && 4 <= bufPtr <= BLOCK_BYTES
      modifies this`bufPtr, buffer
      ensures bufPtr == old(bufPtr) - 4 && left == 0
      ensures buffer[bufPtr..] == Put32(counter) + old(buffer[bufPtr..])
      ensures buffer[..bufPtr] == old(buffer[..bufPtr - 4])
    {
      hide Put32, Shifted;
      left := counter;
      ghost var end := bufPtr;
      NoneShifted(counter);
      for i := 0 to 4
        invariant bufPtr == end - i && left == Shifted(counter, i)
        invariant forall j | end - i <= j < end :: buffer[j] == Put32(counter)[j - (end - 4)]
        invariant forall j | 0 <= j < BLOCK_BYTES && !(end - i <= j < end) :: buffer[j] == old(buffer[j])
      {
        LowestByte(counter, i);
        bufPtr := bufPtr - 1;
        buffer[bufPtr] := left % 0x100;
        left := left / 0x100;
      }
    }

    // The one bit and zeros: the last block is complete but for the length.
    method Pad(ghost iv: State64, ghost m: seq<Byte>)
      requires Holds(iv, m)
      modifies this`chaining, this`counter1, this`counter2, this`bufPtr, buffer
      ensures var n := PaddedBlocks(|m|) - 1;
              && Aligned(iv, Padded(m), n) && bufPtr == 56
              && buffer[..56] == Padded(m)[BLOCK_BYTES * n..BLOCK_BYTES * n + 56]
    {
      hide Low, High, Chain, Put32, Padded;
      ghost var p, k, q := Padded(m), |m| / BLOCK_BYTES, |m| % BLOCK_BYTES;
      PaddedTail(m, k, q);
      ChainPrefix(f, iv, m, p, k);
      Store([0x80]);
      if bufPtr > BLOCK_BYTES - LENGTH_BYTES {
        ghost var start := buffer[..bufPtr];
        ZeroUpTo(BLOCK_BYTES);
        FirstPaddingBlock(p, k, start, Zeros(BLOCK_BYTES - |start|), Zeros(56), Put32(High(k + 2)) + Put32(Low(k + 2)));
        assert buffer[..] == buffer[..BLOCK_BYTES];
        Digest(buffer[..], iv, p, k);
        bufPtr := 0;
        ZeroUpTo(BLOCK_BYTES - LENGTH_BYTES);
      } else {
        ZeroUpTo(BLOCK_BYTES - LENGTH_BYTES);
        assert p[BLOCK_BYTES * k..BLOCK_BYTES * k + 56] == p[BLOCK_BYTES * k..][..56];
      }
    }

    // Final: the counter written into the last block is the number of blocks of the padded message.
    method Final(ghost iv: State64, ghost m: seq<Byte>) returns (output: seq<Byte>)
      requires Holds(iv, m)
      modifies this`chaining, this`counter1, this`counter2, this`bufPtr, buffer
      ensures output == HashOf(f, iv, m)
    {
      hide Low, High, Chain, Put32, Padded;
      ghost var p, n := Padded(m), PaddedBlocks(|m|);
      Pad(iv, m);
      NextCount(n - 1);
      counter1 := (counter1 + 1) % TWO32;
      if counter1 == 0 {
        counter2 := (counter2 + 1) % TWO32;
      }
      bufPtr := BLOCK_BYTES;
      ghost var padding := buffer[..56];
      counter1 := PutBack(counter1);
      assert buffer[..56] == buffer[..60][..56] == padding;
      counter2 := PutBack(counter2);
      LastBlock(m, buffer[..]);
      Compress(buffer[..]);
      ChainStep(f, iv, p, n);
      assert chaining == Chain(f, iv, p, n);
      chaining := f.output(chaining);
      output := chaining[BLOCK_BYTES - HASH_BYTES..];
    }
  }

  function Shifted(w: Word32, i: nat): Word32
    requires i <= 4
  {
    if i == 0 then w else if i == 1 then w / 0x100 else if i == 2 then w / 0x1_0000
    else if i == 3 then w / 0x100_0000 else 0
  }

  lemma NoneShifted(w: Word32)
    ensures Shifted(w, 0) == w && Shifted(w, 4) == 0
  {
  }

  lemma LowestByte(w: Word32, i: nat)
    requires i < 4
    ensures Shifted(w, i) % 0x100 == Put32(w)[3 - i] && Shifted(w, i) / 0x100 == Shifted(w, i + 1)
  {
  }

  // The padded message from its last partial block on.
  lemma PaddedTail(m: seq<Byte>, k: nat, q: nat)
    requires k == |m| / BLOCK_BYTES && q == |m| % BLOCK_BYTES
    ensures Padded(m)[..BLOCK_BYTES * k] == m[..BLOCK_BYTES * k]
    ensures Padded(m)[BLOCK_BYTES * k..]
         == m[BLOCK_BYTES * k..] + [0x80] + Zeros(BLOCK_BYTES * (PaddedBlocks(|m|) - k) - LENGTH_BYTES - q - 1)
            + Put32(High(PaddedBlocks(|m|))) + Put32(Low(PaddedBlocks(|m|)))
  {
  }

  lemma TailOf(all: seq<Byte>, k: nat, rest: seq<Byte>)
    requires BLOCK_BYTES * k <= |all| && rest == all[BLOCK_BYTES * k..]
    ensures rest[BLOCK_BYTES * (|rest| / BLOCK_BYTES)..] == all[BLOCK_BYTES * (|all| / BLOCK_BYTES)..]
    ensures |rest| % BLOCK_BYTES == |all| % BLOCK_BYTES
  {
    DivModUnique(|all|, BLOCK_BYTES, k + |rest| / BLOCK_BYTES, |rest| % BLOCK_BYTES);
  }

  // Padding that does not fit one block: the first block is all but the last zeros and the length.
  lemma FirstPaddingBlock(p: seq<Byte>, k: nat, start: seq<Byte>, zeros: seq<Byte>, more: seq<Byte>, length: seq<Byte>)
    requires BLOCK_BYTES * k <= |p| && |start| + |zeros| == BLOCK_BYTES && |more| == 56 && |length| == LENGTH_BYTES
    requires zeros == Zeros(|zeros|) && more == Zeros(56)
    requires p[BLOCK_BYTES * k..] == start + Zeros(|zeros| + 56) + length
    ensures BLOCK_BYTES * k + BLOCK_BYTES <= |p| && start + zeros == Block(p, k)
    ensures p[BLOCK_BYTES * (k + 1)..BLOCK_BYTES * (k + 1) + 56] == more
  {
    var tail := p[BLOCK_BYTES * k..];
    assert tail == start + zeros + more + length;
    assert Block(p, k) == tail[..BLOCK_BYTES];
    assert p[BLOCK_BYTES * (k + 1)..BLOCK_BYTES * (k + 1) + 56] == tail[BLOCK_BYTES..BLOCK_BYTES + 56];
  }

  lemma LastBlock(m: seq<Byte>, b: seq<Byte>)
    requires |b| == BLOCK_BYTES
    requires var n := PaddedBlocks(|m|);
             b[56..] == Put32(High(n)) + Put32(Low(n)) && b[..56] == Padded(m)[BLOCK_BYTES * (n - 1)..][..56]
    ensures b == Block(Padded(m), PaddedBlocks(|m|) - 1)
  {
    hide Put32;
    var n := PaddedBlocks(|m|);
    assert Padded(m)[BLOCK_BYTES * n - LENGTH_BYTES..] == Put32(High(n)) + Put32(Low(n));
    assert b == b[..56] + b[56..];
  }

  // groestl: the hash of what is read of a message of whole bytes, fed in one call. Of 2^31 bytes
  // nothing is read.
  method Hash(f: Functions, iv: State64, data: seq<Byte>) returns (output: seq<Byte>)
    ensures output == HashOf(f, iv, Read(data))
    ensures |data| < TWO31 ==> output == HashOf(f, iv, data)
    ensures |data| == TWO31 ==> output == HashOf(f, iv, [])
  {
    hide HashOf, Chain;
    var ctx := new Context(f, iv);
    ctx.Update(data, iv, []);
    ReadExactly(data);
    assert [] + Read(data) == Read(data);
    output := ctx.Final(iv, Read(data));
  }
}
