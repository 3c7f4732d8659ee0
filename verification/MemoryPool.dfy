// RapidJSON's memory pool: blocks cut from the head of a list of chunks, and reallocation in
// place or by copying. Sizes are 64-bit words and their sums wrap around; addresses are those of
// a memory of at most 2^64 bytes.
module MemoryPool {
  import opened Words
  import opened Collections

  const HEADER := 24

  // The next multiple of eight.
  function Align(n: nat): (r: nat)
    ensures r % 8 == 0 && n <= r < n + 8
  {
    (n + 7) / 8 * 8
  }

  // A chunk's header is its capacity, its size and the next chunk, each of eight bytes.
  lemma HeaderFields()
    ensures HEADER == Align(8 + 8 + 8)
  {
  }

  // A sum of two sizes.
  function Plus(m: nat, n: nat): Word64 {
    (m + n) % TWO64
  }

  // RAPIDJSON_ALIGN
  function AlignWord(n: Word64): Word64 {
    Plus(n, 7) / 8 * 8
  }

  // Only the last seven sizes have no aligned size; they come out as zero.
  lemma AlignExactly(n: Word64)
    ensures AlignWord(n) == if Align(n) < TWO64 then Align(n) else 0
    ensures Align(n) < TWO64 <==> n <= TWO64 - 8
    ensures Align(n) <= TWO64
  {
    if n + 7 >= TWO64 {
      assert Plus(n, 7) == n + 7 - TWO64;
    }
  }

  // Aligning an aligned size changes nothing.
  lemma AlignedAgain(n: Word64)
    ensures AlignWord(AlignWord(n)) == AlignWord(n)
    ensures AlignWord(n) != 0 ==> Align(AlignWord(n)) == AlignWord(n) == Align(n)
  {
    AlignExactly(n);
    var k := AlignWord(n) / 8;
    assert AlignWord(n) == 8 * k;
  }

  // The code's sum and its test for room are right exactly when the sum is a size.
  lemma WrapExactly(size: Word64, capacity: Word64, n: Word64)
    requires size <= capacity && n > 0
    ensures (Plus(size, AlignWord(n)) == size + Align(n)
             && (Plus(size, AlignWord(n)) <= capacity <==> size + Align(n) <= capacity))
       <==> size + Align(n) < TWO64
  {
    AlignExactly(n);
  }

  predicate Disjoint(p: nat, m: nat, q: nat, n: nat) {
    p + m <= q || q + n <= p
  }

  // ---------------------------------------------------------------- the base allocator

  // Any base allocator: each request is answered by the oracle, and counts as refused when the
  // answer is not a fresh, aligned region of memory.
  class Heap {
    const ram: array<Byte>
    const oracle: (nat, nat) -> nat
    var calls: nat
    var regions: map<nat, nat>

    constructor (ram: array<Byte>, oracle: (nat, nat) -> nat, regions: map<nat, nat>)
      ensures this.ram == ram && this.regions == regions
    {
      this.ram := ram;
      this.oracle := oracle;
      calls := 0;
      this.regions := regions;
    }

    predicate Fresh(p: nat, size: nat)
      reads this
    {
      p != 0 && p % 8 == 0 && p + size <= ram.Length && forall q | q in regions :: Disjoint(p, size, q, regions[q])
    }

    // The next request, for size bytes, will be granted; none for no bytes is.
    predicate Grants(size: nat)
      reads this
    {
      size > 0 && Fresh(oracle(calls, size), size)
    }

    method Malloc(size: nat) returns (p: nat)
      modifies this
      ensures p != 0 <==> old(Grants(size))
      ensures p == 0 ==> regions == old(regions)
      ensures p != 0 ==> old(Fresh(p, size)) && regions == old(regions)[p := size]
    {
      p := oracle(calls, size);
      calls := calls + 1;
      if size > 0 && Fresh(p, size) {
        regions := regions[p := size];
      } else {
        p := 0;
      }
    }

    method Free(p: nat)
      requires p in regions
      modifies this
      ensures regions == old(regions) - {p}
    {
      regions := regions - {p};
    }
  }

  // ---------------------------------------------------------------- chunks and blocks

  datatype Chunk = Chunk(base: nat, capacity: nat, size: nat) {
    function Data(): nat { base + HEADER }
    function Top(): nat { Data() + size }
    function Bytes(): nat { HEADER + capacity }
    predicate Has(a: nat) { base <= a < base + Bytes() }
  }

  datatype Block = Block(start: nat, size: nat)

  ghost predicate LiveIn(bs: seq<Block>, p: nat, size: nat) {
    exists k | 0 <= k < |bs| :: bs[k].start == p && Align(size) <= bs[k].size
  }

  // Every earlier block is still there, no smaller, and only the one at p may have grown.
  ghost predicate KeptIn(bs: seq<Block>, now: seq<Block>, p: nat) {
    && |bs| <= |now|
    && forall k | 0 <= k < |bs| :: now[k] == bs[k] || (now[k].start == bs[k].start == p && bs[k].size <= now[k].size)
  }

  function TotalSize(cs: seq<Chunk>): nat {
    if cs == [] then 0 else cs[0].size + TotalSize(cs[1..])
  }

  function TotalCapacity(cs: seq<Chunk>): nat {
    if cs == [] then 0 else cs[0].capacity + TotalCapacity(cs[1..])
  }

  function Reserved(bs: seq<Block>): nat {
    if bs == [] then 0 else Reserved(bs[..|bs| - 1]) + bs[|bs| - 1].size
  }

  predicate ChunkSound(c: Chunk, ramSize: nat, userBuffer: nat) {
    && c.base != 0 && c.base + c.Bytes() <= ramSize
    && c.size <= c.capacity && c.size % 8 == 0
    && (c.base % 8 == 0 || c.base == userBuffer)
  }

  // The block lies in the used part of the chunk, a whole number of words from its start.
  predicate Inside(b: Block, c: Chunk) {
    c.Data() <= b.start && b.start + b.size <= c.Top() && (b.start - c.base) % 8 == 0
  }

  ghost predicate Held(b: Block, cs: seq<Chunk>) {
    b.size > 0 && b.size % 8 == 0 && exists i | 0 <= i < |cs| :: Inside(b, cs[i])
  }

  ghost predicate ChunksSound(cs: seq<Chunk>, ramSize: nat, userBuffer: nat) {
    && (forall i | 0 <= i < |cs| :: ChunkSound(cs[i], ramSize, userBuffer))
    && (forall i, j | 0 <= i < j < |cs| :: Disjoint(cs[i].base, cs[i].Bytes(), cs[j].base, cs[j].Bytes()))
    && (forall i | 0 <= i < |cs| - 1 :: cs[i].base != userBuffer)
  }

  ghost predicate BlocksSound(bs: seq<Block>, cs: seq<Chunk>) {
    && (forall k | 0 <= k < |bs| :: Held(bs[k], cs))
    && (forall k, l | 0 <= k < l < |bs| :: Disjoint(bs[k].start, bs[k].size, bs[l].start, bs[l].size))
  }

  lemma {:induction false} ReservedUpdate(bs: seq<Block>, k: nat, b: Block)
    requires k < |bs|
    ensures Reserved(bs[k := b]) == Reserved(bs) - bs[k].size + b.size
    decreases |bs|
  {
    var n := |bs| - 1;
    if k == n {
      assert bs[k := b][..n] == bs[..n];
    } else {
      assert bs[k := b][..n] == bs[..n][k := b];
      ReservedUpdate(bs[..n], k, b);
    }
  }

  // Used never exceeds capacity, chunk by chunk and so in total.
  lemma {:induction false} SizeWithinCapacity(cs: seq<Chunk>)
    requires forall i | 0 <= i < |cs| :: cs[i].size <= cs[i].capacity
    ensures TotalSize(cs) <= TotalCapacity(cs)
  {
    if cs != [] {
      SizeWithinCapacity(cs[1..]);
    }
  }

  // The head chunk with n more bytes used.
  function Grown(cs: seq<Chunk>, n: nat): (ds: seq<Chunk>)
    requires cs != []
  {
    [Chunk(cs[0].base, cs[0].capacity, cs[0].size + n)] + cs[1..]
  }

  lemma GrownChunks(cs: seq<Chunk>, ramSize: nat, userBuffer: nat, n: nat)
    requires ChunksSound(cs, ramSize, userBuffer) && cs != [] && n % 8 == 0 && cs[0].size + n <= cs[0].capacity
    ensures ChunksSound(Grown(cs, n), ramSize, userBuffer)
    ensures TotalSize(Grown(cs, n)) == TotalSize(cs) + n && TotalCapacity(Grown(cs, n)) == TotalCapacity(cs)
  {
    hide Disjoint, ChunkSound;
    var ds := Grown(cs, n);
    assert ds[1..] == cs[1..];
    GrownChunk(cs[0], ramSize, userBuffer, n);
    assert forall i | 0 < i < |ds| :: ds[i] == cs[i];
    assert forall i | 0 <= i < |ds| :: ds[i].base == cs[i].base && ds[i].Bytes() == cs[i].Bytes();
  }

  lemma GrownChunk(c: Chunk, ramSize: nat, userBuffer: nat, n: nat)
    requires ChunkSound(c, ramSize, userBuffer) && n % 8 == 0 && c.size + n <= c.capacity
    ensures ChunkSound(Chunk(c.base, c.capacity, c.size + n), ramSize, userBuffer)
  {
  }

  lemma HeldGrown(b: Block, cs: seq<Chunk>, n: nat)
    requires Held(b, cs) && cs != []
    ensures Held(b, Grown(cs, n))
  {
    var i :| 0 <= i < |cs| && Inside(b, cs[i]);
    assert Inside(b, Grown(cs, n)[i]);
  }

  lemma HeldPrepended(b: Block, c: Chunk, cs: seq<Chunk>)
    requires Held(b, cs)
    ensures Held(b, [c] + cs)
  {
    var i :| 0 <= i < |cs| && Inside(b, cs[i]);
    assert Inside(b, ([c] + cs)[i + 1]);
  }

  // A held block ends before the free part of the head chunk.
  lemma HeldBelowTop(b: Block, cs: seq<Chunk>, ramSize: nat, userBuffer: nat)
    requires ChunksSound(cs, ramSize, userBuffer) && cs != [] && Held(b, cs)
    ensures b.start + b.size <= cs[0].Top() || cs[0].base + cs[0].Bytes() <= b.start || b.start + b.size <= cs[0].base
  {
    var i :| 0 <= i < |cs| && Inside(b, cs[i]);
    assert ChunkSound(cs[i], ramSize, userBuffer);
    if i > 0 {
      assert Disjoint(cs[0].base, cs[0].Bytes(), cs[i].base, cs[i].Bytes());
    }
  }

  // A block cut from the free part of the head chunk.
  lemma CutBlock(bs: seq<Block>, cs: seq<Chunk>, ramSize: nat, userBuffer: nat, n: nat)
    requires ChunksSound(cs, ramSize, userBuffer) && BlocksSound(bs, cs)
    requires cs != [] && n > 0 && n % 8 == 0 && cs[0].size + n <= cs[0].capacity
    ensures BlocksSound(bs + [Block(cs[0].Top(), n)], Grown(cs, n))
  {
    hide ChunksSound, Held, TotalSize;
    var b, ds := Block(cs[0].Top(), n), Grown(cs, n);
    TopHeld(cs, ramSize, userBuffer, n);
    forall k | 0 <= k < |bs|
      ensures Held(bs[k], ds) && Disjoint(bs[k].start, bs[k].size, b.start, b.size)
    {
      HeldGrown(bs[k], cs, n);
      HeldBelowTop(bs[k], cs, ramSize, userBuffer);
    }
  }

  lemma TopHeld(cs: seq<Chunk>, ramSize: nat, userBuffer: nat, n: nat)
    requires ChunksSound(cs, ramSize, userBuffer) && cs != [] && n > 0 && n % 8 == 0
    ensures Held(Block(cs[0].Top(), n), Grown(cs, n))
  {
    assert ChunkSound(cs[0], ramSize, userBuffer);
    assert Inside(Block(cs[0].Top(), n), Grown(cs, n)[0]);
  }

  // The last block cut from the head chunk, extended by n bytes.
  lemma ExtendBlock(bs: seq<Block>, cs: seq<Chunk>, ramSize: nat, userBuffer: nat, k: nat, n: nat)
    requires ChunksSound(cs, ramSize, userBuffer) && BlocksSound(bs, cs)
    requires cs != [] && n % 8 == 0 && cs[0].size + n <= cs[0].capacity
    requires k < |bs| && bs[k].start + bs[k].size == cs[0].Top()
    ensures BlocksSound(bs[k := Block(bs[k].start, bs[k].size + n)], Grown(cs, n))
  {
    hide ChunksSound, Held;
    var b, ds := Block(bs[k].start, bs[k].size + n), Grown(cs, n);
    assert Held(bs[k], cs);
    ExtendedHeld(bs[k], cs, ramSize, userBuffer, n);
    forall l | 0 <= l < |bs| && l != k
      ensures Held(bs[l], ds) && Disjoint(bs[l].start, bs[l].size, b.start, b.size)
    {
      assert Held(bs[l], cs);
      HeldGrown(bs[l], cs, n);
      HeldBelowTop(bs[l], cs, ramSize, userBuffer);
      BlockAboveBase(bs[k], cs, ramSize, userBuffer);
      assert Disjoint(bs[l].start, bs[l].size, bs[k].start, bs[k].size);
    }
  }

  // A block that ends at the top of the head chunk lies in the head chunk.
  lemma BlockAboveBase(b: Block, cs: seq<Chunk>, ramSize: nat, userBuffer: nat)
    requires ChunksSound(cs, ramSize, userBuffer) && cs != [] && Held(b, cs) && b.start + b.size == cs[0].Top()
    ensures Inside(b, cs[0])
  {
    var i :| 0 <= i < |cs| && Inside(b, cs[i]);
    assert ChunkSound(cs[i], ramSize, userBuffer) && ChunkSound(cs[0], ramSize, userBuffer);
    assert i > 0 ==> Disjoint(cs[0].base, cs[0].Bytes(), cs[i].base, cs[i].Bytes());
  }

  lemma ExtendedHeld(b: Block, cs: seq<Chunk>, ramSize: nat, userBuffer: nat, n: nat)
    requires ChunksSound(cs, ramSize, userBuffer) && cs != [] && Held(b, cs)
    requires b.start + b.size == cs[0].Top() && n % 8 == 0
    ensures Held(Block(b.start, b.size + n), Grown(cs, n))
  {
    BlockAboveBase(b, cs, ramSize, userBuffer);
    hide ChunksSound;
    EvenlyExtended(b.size, n);
    assert Inside(Block(b.start, b.size + n), Grown(cs, n)[0]);
  }

  lemma EvenlyExtended(size: nat, n: nat)
    requires size % 8 == 0 && n % 8 == 0
    ensures (size + n) % 8 == 0
  {
  }

  // A fresh chunk at the head.
  lemma NewChunk(bs: seq<Block>, cs: seq<Chunk>, ramSize: nat, userBuffer: nat, c: Chunk)
    requires ChunksSound(cs, ramSize, userBuffer) && BlocksSound(bs, cs)
    requires ChunkSound(c, ramSize, userBuffer) && c.base != userBuffer && c.size == 0
    requires forall i | 0 <= i < |cs| :: Disjoint(c.base, c.Bytes(), cs[i].base, cs[i].Bytes())
    ensures ChunksSound([c] + cs, ramSize, userBuffer) && BlocksSound(bs, [c] + cs)
  {
    hide ChunkSound, Held, Disjoint;
    var ds := [c] + cs;
    forall i | 0 <= i < |ds|
      ensures ChunkSound(ds[i], ramSize, userBuffer)
    {
      if i > 0 { assert ds[i] == cs[i - 1]; }
    }
    forall i, j | 0 <= i < j < |ds|
      ensures Disjoint(ds[i].base, ds[i].Bytes(), ds[j].base, ds[j].Bytes())
    {
      assert ds[j] == cs[j - 1];
      if i > 0 { assert ds[i] == cs[i - 1]; }
    }
    forall i | 0 <= i < |ds| - 1
      ensures ds[i].base != userBuffer
    {
      if i > 0 { assert ds[i] == cs[i - 1]; }
    }
    forall k | 0 <= k < |bs|
      ensures Held(bs[k], ds)
    {
      HeldPrepended(bs[k], c, cs);
    }
  }

  // ---------------------------------------------------------------- sums that wrap around

  // Room for n more bytes at the top of the head chunk.
  predicate Roomy(cs: seq<Chunk>, n: nat) {
    cs != [] && cs[0].size + n <= cs[0].capacity
  }

  // The same by the code's sum.
  predicate Fits(cs: seq<Chunk>, n: Word64) {
    cs != [] && Plus(cs[0].size, n) <= cs[0].capacity
  }

  // The head chunk with n more bytes used, by the code's sum.
  function Taken(cs: seq<Chunk>, n: Word64): (ds: seq<Chunk>)
    requires cs != []
    ensures ds != []
  {
    [Chunk(cs[0].base, cs[0].capacity, Plus(cs[0].size, n))] + cs[1..]
  }

  // The capacity of a chunk added for n bytes.
  function NewCapacity(n: nat, chunkCapacity: nat): (c: nat)
    ensures n <= c && chunkCapacity <= c && (c == n || c == chunkCapacity)
  {
    if chunkCapacity > n then chunkCapacity else n
  }

  // A request for n aligned bytes overflows: n itself, or its sum with what the head chunk holds,
  // or the length of the chunk needed for it is no 64-bit size.
  predicate Overflows(cs: seq<Chunk>, n: nat, chunkCapacity: nat) {
    || n >= TWO64
    || (cs != [] && cs[0].size + n >= TWO64)
    || (!Roomy(cs, n) && HEADER + NewCapacity(n, chunkCapacity) >= TWO64)
  }

  // Otherwise the code's sums are those of integers.
  lemma SumsExact(cs: seq<Chunk>, size: Word64, chunkCapacity: Word64)
    requires !Overflows(cs, Align(size), chunkCapacity)
    ensures AlignWord(size) == Align(size)
    ensures Fits(cs, AlignWord(size)) <==> Roomy(cs, Align(size))
    ensures cs != [] ==> Taken(cs, AlignWord(size)) == Grown(cs, Align(size))
    ensures !Roomy(cs, Align(size)) ==>
              Plus(HEADER, NewCapacity(Align(size), chunkCapacity)) == HEADER + NewCapacity(Align(size), chunkCapacity)
  {
    hide Align, AlignWord, NewCapacity;
    AlignExactly(size);
  }

  // n bytes from p on are cut from the top of the head chunk if they fit there, else from a new
  // chunk that is at least chunkCapacity long.
  ghost predicate CutFrom(was: seq<Chunk>, now: seq<Chunk>, p: nat, n: nat, chunkCapacity: nat) {
    if Roomy(was, n) then
      p == was[0].Top() && now == Grown(was, n)
    else
      now != [] && now[1..] == was && p == now[0].Data() && now[0].size == n
      && now[0].capacity == NewCapacity(n, chunkCapacity)
  }

  // A chunk added for n bytes has room for all that follows as long as it fits the chunk capacity with them.
  lemma RoomLeft(was: seq<Chunk>, now: seq<Chunk>, p: nat, n: nat, chunkCapacity: nat, more: nat)
    requires CutFrom(was, now, p, n, chunkCapacity) && !Roomy(was, n) && n + more <= chunkCapacity
    ensures Roomy(now, more)
  {
  }

  // What the code hands out: n bytes at the top of the head chunk if its sum says they fit, else
  // the first n bytes of a new chunk.
  ghost predicate HandedOut(was: seq<Chunk>, now: seq<Chunk>, p: nat, n: Word64, chunkCapacity: Word64) {
    if Fits(was, n) then
      p == was[0].Top() && now == Taken(was, n)
    else
      now != [] && now[1..] == was && p == now[0].Data() && now[0].size == n
      && now[0].capacity == NewCapacity(n, chunkCapacity)
  }

  // Without overflow that is a block cut from a chunk.
  lemma HandedOutCut(was: seq<Chunk>, now: seq<Chunk>, p: nat, size: Word64, chunkCapacity: Word64)
    requires HandedOut(was, now, p, AlignWord(size), chunkCapacity) && !Overflows(was, Align(size), chunkCapacity)
    ensures CutFrom(was, now, p, Align(size), chunkCapacity)
  {
    SumsExact(was, size, chunkCapacity);
  }

  ghost predicate Owned(c: Chunk, regions: map<nat, nat>) {
    c.base in regions && regions[c.base] == c.Bytes()
  }

  ghost predicate AllOwned(cs: seq<Chunk>, regions: map<nat, nat>) {
    forall i | 0 <= i < |cs| :: Owned(cs[i], regions)
  }

  // Live blocks are pairwise disjoint and inside the used part of a chunk, chunks are disjoint
  // regions of the heap, and the bytes used are exactly the bytes of the live blocks.
  ghost predicate PoolSound(cs: seq<Chunk>, bs: seq<Block>, regions: map<nat, nat>, ramSize: nat, userBuffer: nat) {
    && ramSize <= TWO64
    && ChunksSound(cs, ramSize, userBuffer)
    && BlocksSound(bs, cs)
    && AllOwned(cs, regions)
    && (userBuffer != 0 ==> cs != [] && cs[|cs| - 1].base == userBuffer)
    && TotalSize(cs) == Reserved(bs)
  }

  // n more bytes of the head chunk taken into use, for the blocks that are live then.
  lemma TakeSound(cs: seq<Chunk>, bs: seq<Block>, regions: map<nat, nat>, ramSize: nat, userBuffer: nat,
                  n: nat, now: seq<Block>)
    requires PoolSound(cs, bs, regions, ramSize, userBuffer)
    requires cs != [] && cs[0].size + n <= cs[0].capacity && n % 8 == 0
    requires BlocksSound(now, Grown(cs, n)) && Reserved(now) == Reserved(bs) + n
    ensures PoolSound(Grown(cs, n), now, regions, ramSize, userBuffer)
  {
    hide ChunksSound, BlocksSound, TotalSize, Reserved;
    GrownChunks(cs, ramSize, userBuffer, n);
    var ds := Grown(cs, n);
    assert forall i | 0 <= i < |ds| :: ds[i].base == cs[i].base && ds[i].Bytes() == cs[i].Bytes();
  }

  lemma CutSound(cs: seq<Chunk>, bs: seq<Block>, regions: map<nat, nat>, ramSize: nat, userBuffer: nat, n: nat)
    requires PoolSound(cs, bs, regions, ramSize, userBuffer)
    requires cs != [] && n > 0 && n % 8 == 0 && cs[0].size + n <= cs[0].capacity
    ensures PoolSound(Grown(cs, n), bs + [Block(cs[0].Top(), n)], regions, ramSize, userBuffer)
  {
    hide ChunksSound, BlocksSound, TotalSize, Reserved, Grown;
    CutBlock(bs, cs, ramSize, userBuffer, n);
    ReservedAppend(bs, Block(cs[0].Top(), n));
    TakeSound(cs, bs, regions, ramSize, userBuffer, n, bs + [Block(cs[0].Top(), n)]);
  }

  lemma ExtendSound(cs: seq<Chunk>, bs: seq<Block>, regions: map<nat, nat>, ramSize: nat, userBuffer: nat,
                    k: nat, n: nat)
    requires PoolSound(cs, bs, regions, ramSize, userBuffer)
    requires cs != [] && n % 8 == 0 && cs[0].size + n <= cs[0].capacity
    requires k < |bs| && bs[k].start + bs[k].size == cs[0].Top()
    ensures PoolSound(Grown(cs, n), bs[k := Block(bs[k].start, bs[k].size + n)], regions, ramSize, userBuffer)
  {
    hide ChunksSound, BlocksSound, TotalSize, Reserved, Grown;
    ExtendBlock(bs, cs, ramSize, userBuffer, k, n);
    ReservedUpdate(bs, k, Block(bs[k].start, bs[k].size + n));
    TakeSound(cs, bs, regions, ramSize, userBuffer, n, bs[k := Block(bs[k].start, bs[k].size + n)]);
  }

  // A chunk just granted by the heap.
  lemma NewChunkSound(cs: seq<Chunk>, bs: seq<Block>, regions: map<nat, nat>, ramSize: nat, userBuffer: nat, c: Chunk)
    requires PoolSound(cs, bs, regions, ramSize, userBuffer) && c.size == 0
    requires c.base != 0 && c.base % 8 == 0 && c.base + c.Bytes() <= ramSize
    requires forall q | q in regions :: Disjoint(c.base, c.Bytes(), q, regions[q])
    ensures PoolSound([c] + cs, bs, regions[c.base := c.Bytes()], ramSize, userBuffer)
  {
    hide ChunksSound, BlocksSound, Reserved;
    assert forall i | 0 <= i < |cs| :: Owned(cs[i], regions);
    assert userBuffer != 0 ==> Owned(cs[|cs| - 1], regions);
    NewChunk(bs, cs, ramSize, userBuffer, c);
    assert ([c] + cs)[1..] == cs;
  }

  // A block past the end of memory, or a chunk longer than the region it lies in, breaks the pool.
  lemma BlockBreaks(cs: seq<Chunk>, bs: seq<Block>, regions: map<nat, nat>, ramSize: nat, userBuffer: nat, k: nat)
    requires k < |bs| && bs[k].start + bs[k].size > ramSize
    ensures !PoolSound(cs, bs, regions, ramSize, userBuffer)
  {
    if PoolSound(cs, bs, regions, ramSize, userBuffer) {
      BlocksInRam(bs, cs, ramSize, userBuffer);
    }
  }

  lemma ChunkBreaks(cs: seq<Chunk>, bs: seq<Block>, regions: map<nat, nat>, ramSize: nat, userBuffer: nat)
    requires cs != [] && cs[0].base in regions && regions[cs[0].base] != cs[0].Bytes()
    ensures !PoolSound(cs, bs, regions, ramSize, userBuffer)
  {
    assert !Owned(cs[0], regions);
  }

  // The chunks after the code has made room for a request: as they were, or with a new head.
  ghost predicate MadeRoom(was: seq<Chunk>, cs: seq<Chunk>, n: Word64, chunkCapacity: Word64) {
    if Fits(was, n) then cs == was
    else cs != [] && cs[1..] == was && cs[0].size == 0 && cs[0].capacity == NewCapacity(n, chunkCapacity)
  }

  // What is then handed out leaves a sound pool exactly when nothing overflows.
  lemma TakenSound(was: seq<Chunk>, cs: seq<Chunk>, bs: seq<Block>, regions: map<nat, nat>,
                   ramSize: nat, userBuffer: nat, size: Word64, chunkCapacity: Word64)
    requires ramSize <= TWO64 && size != 0 && MadeRoom(was, cs, AlignWord(size), chunkCapacity)
    requires was != [] ==> was[0].size <= was[0].capacity
    requires if Fits(was, AlignWord(size)) then PoolSound(cs, bs, regions, ramSize, userBuffer)
             else cs[0].base in regions && regions[cs[0].base] == Plus(HEADER, cs[0].capacity)
                  && (HEADER + cs[0].capacity < TWO64 ==> PoolSound(cs, bs, regions, ramSize, userBuffer))
    ensures PoolSound(Taken(cs, AlignWord(size)), bs + [Block(cs[0].Top(), Align(size))], regions, ramSize, userBuffer)
       <==> !Overflows(was, Align(size), chunkCapacity)
  {
    hide ChunksSound, BlocksSound, TotalSize, Reserved, PoolSound;
    AlignExactly(size);
    var n, b := AlignWord(size), Block(cs[0].Top(), Align(size));
    if !Overflows(was, Align(size), chunkCapacity) {
      SumsExact(was, size, chunkCapacity);
      assert Taken(cs, n) == Grown(cs, n);
      CutSound(cs, bs, regions, ramSize, userBuffer, n);
    } else if b.start + b.size > ramSize {
      assert (bs + [b])[|bs|] == b;
      BlockBreaks(Taken(cs, n), bs + [b], regions, ramSize, userBuffer, |bs|);
    } else {
      ChunkBreaks(Taken(cs, n), bs + [b], regions, ramSize, userBuffer);
    }
  }

  // ---------------------------------------------------------------- the pool

  class Pool {
    const heap: Heap
    const userBuffer: nat
    const chunkCapacity: Word64
    var chunks: seq<Chunk>
    // Every block handed out and not cleared since, in order of allocation, with the bytes asked for.
    ghost var blocks: seq<Block>

    constructor (heap: Heap, chunkCapacity: Word64)
      requires heap.ram.Length <= TWO64
      ensures Valid() && chunks == [] && blocks == [] && userBuffer == 0
      ensures this.heap == heap && this.chunkCapacity == chunkCapacity
    {
      this.heap := heap;
      this.chunkCapacity := chunkCapacity;
      userBuffer := 0;
      chunks := [];
      blocks := [];
    }

    // The caller's buffer becomes the first chunk; nothing else may use its memory.
    constructor WithBuffer(heap: Heap, buffer: nat, size: Word64, chunkCapacity: Word64)
      requires buffer != 0 && size > HEADER && buffer + size <= heap.ram.Length <= TWO64
      requires buffer in heap.regions && heap.regions[buffer] == size
      ensures Valid() && blocks == [] && userBuffer == buffer && this.heap == heap
      ensures chunks == [Chunk(buffer, size - HEADER, 0)]
    {
      this.heap := heap;
      this.chunkCapacity := chunkCapacity;
      userBuffer := buffer;
      chunks := [Chunk(buffer, size - HEADER, 0)];
      blocks := [];
    }

    ghost predicate Valid()
      reads this, heap
    {
      PoolSound(chunks, blocks, heap.regions, heap.ram.Length, userBuffer)
    }

    // The memory used never exceeds the memory held, and both are sizes.
    lemma SizeBounded()
      requires Valid()
      ensures TotalSize(chunks) == Reserved(blocks) <= TotalCapacity(chunks) < TWO64
    {
      hide TotalSize, TotalCapacity, Reserved, BlocksSound;
      assert forall i | 0 <= i < |chunks| :: ChunkSound(chunks[i], heap.ram.Length, userBuffer);
      SizeWithinCapacity(chunks);
      CapacityFits(chunks, heap.ram.Length, userBuffer);
    }

    method Capacity() returns (capacity: Word64)
      ensures capacity == TotalCapacity(chunks) % TWO64
      ensures Valid() ==> capacity == TotalCapacity(chunks)
    {
      hide PoolSound, Plus;
      capacity := 0;
      var i := 0;
      while i < |chunks|
        invariant i <= |chunks| && Plus(capacity, TotalCapacity(chunks[i..])) == Plus(0, TotalCapacity(chunks))
      {
        SumWraps(capacity, chunks[i].capacity, TotalCapacity(chunks[i + 1..]));
        assert chunks[i..][1..] == chunks[i + 1..];
        capacity := Plus(capacity, chunks[i].capacity);
        i := i + 1;
      }
      SumIs(capacity, TotalCapacity(chunks));
      if Valid() {
        SizeBounded();
      }
    }

    method Size() returns (size: Word64)
      ensures size == TotalSize(chunks) % TWO64
      ensures Valid() ==> size == TotalSize(chunks) == Reserved(blocks)
    {
      hide PoolSound, Plus;
      size := 0;
      var i := 0;
      while i < |chunks|
        invariant i <= |chunks| && Plus(size, TotalSize(chunks[i..])) == Plus(0, TotalSize(chunks))
      {
        SumWraps(size, chunks[i].size, TotalSize(chunks[i + 1..]));
        assert chunks[i..][1..] == chunks[i + 1..];
        size := Plus(size, chunks[i].size);
        i := i + 1;
      }
      SumIs(size, TotalSize(chunks));
      if Valid() {
        SizeBounded();
      }
    }

    // A new chunk in front of the others. When header and capacity add up past the last size, the
    // heap is asked for less than the chunk is said to hold.
    method AddChunk(capacity: Word64) returns (added: bool)
      modifies this`chunks, heap
      ensures added <==> old(heap.Grants(Plus(HEADER, capacity)))
      ensures !added ==> chunks == old(chunks) && heap.regions == old(heap.regions)
      ensures added ==> chunks != [] && chunks[1..] == old(chunks)
      ensures added ==> chunks[0].capacity == capacity && chunks[0].size == 0
      ensures added ==> chunks[0].base in heap.regions && heap.regions[chunks[0].base] == Plus(HEADER, capacity)
      ensures old(Valid()) ==> (Valid() <==> !added || HEADER + capacity < TWO64)
    {
      hide ChunksSound, BlocksSound;
      ghost var regions := heap.regions;
      var p := heap.Malloc(Plus(HEADER, capacity));
      if p == 0 {
        return false;
      }
      var c := Chunk(p, capacity, 0);
      if HEADER + capacity >= TWO64 {
        ChunkBreaks([c] + chunks, blocks, heap.regions, heap.ram.Length, userBuffer);
      } else if PoolSound(chunks, blocks, regions, heap.ram.Length, userBuffer) {
        NewChunkSound(chunks, blocks, regions, heap.ram.Length, userBuffer, c);
      }
      chunks := [c] + chunks;
      added := true;
    }

    // There is room for an aligned request, or the heap will grant a chunk for it.
    predicate CanServe(n: nat)
      reads this, heap
    {
      Roomy(chunks, n) || heap.Grants(HEADER + NewCapacity(n, chunkCapacity))
    }

    // The same by the code's sums.
    predicate WillServe(n: Word64)
      reads this, heap
    {
      Fits(chunks, n) || heap.Grants(Plus(HEADER, NewCapacity(n, chunkCapacity)))
    }

    // A request for a block whose sizes wrap around.
    predicate Wraps(size: Word64)
      reads this
    {
      size != 0 && Overflows(chunks, Align(size), chunkCapacity)
    }

    // A new block, unless the request is empty or the heap refuses a chunk that is needed for it.
    // No byte of memory is written. From a valid pool, a request that does not wrap gets a block of
    // exactly the aligned size; one that wraps is refused or breaks the pool.
    method Malloc(size: Word64) returns (p: nat)
      modifies this`chunks, this`blocks, heap
      ensures p != 0 <==> size != 0 && old(WillServe(AlignWord(size)))
      ensures p == 0 ==> chunks == old(chunks) && blocks == old(blocks)
      ensures p != 0 ==> HandedOut(old(chunks), chunks, p, AlignWord(size), chunkCapacity)
      ensures p != 0 ==> blocks == old(blocks) + [Block(p, Align(size))] && Live(p, size)
      ensures size != 0 && old(Fits(chunks, AlignWord(size))) ==> heap.regions == old(heap.regions)
      ensures old(Valid()) ==> (Valid() <==> p == 0 || !old(Wraps(size)))
      ensures !old(Wraps(size)) ==> (p != 0 <==> size != 0 && old(CanServe(Align(size))))
      ensures !old(Wraps(size)) && p != 0 ==> CutFrom(old(chunks), chunks, p, Align(size), chunkCapacity)
    {
      hide ChunksSound, BlocksSound, TotalSize, Reserved, PoolSound, CutFrom, Taken, Overflows;
      if size == 0 {
        return 0;
      }
      ghost var was, valid := chunks, Valid();
      var n := AlignWord(size);
      if valid {
        HeadSound(was, blocks, heap.regions, heap.ram.Length, userBuffer);
      }
      if !Overflows(was, Align(size), chunkCapacity) {
        SumsExact(was, size, chunkCapacity);
      }
      if !Fits(chunks, n) {
        var added := AddChunk(NewCapacity(n, chunkCapacity));
        if !added {
          return 0;
        }
      }
      p := chunks[0].Top();
      ghost var cs, bs := chunks, blocks;
      chunks := Taken(chunks, n);
      blocks := blocks + [Block(p, Align(size))];
      assert blocks[|blocks| - 1] == Block(p, Align(size));
      TakenHandedOut(was, cs, n, chunkCapacity);
      if valid {
        TakenSound(was, cs, bs, heap.regions, heap.ram.Length, userBuffer, size, chunkCapacity);
      }
      if !Overflows(was, Align(size), chunkCapacity) {
        HandedOutCut(was, chunks, p, size, chunkCapacity);
      }
    }

    // A live block that starts at p with room for size bytes.
    ghost predicate Live(p: nat, size: nat)
      reads this
    {
      LiveIn(blocks, p, size)
    }

    // The block ends at the top of the head chunk.
    predicate AtTop(p: nat, size: nat)
      reads this
    {
      chunks != [] && p + size == chunks[0].Top()
    }

    // The block can be extended where it is: it is the last one and its chunk has room.
    predicate Growable(p: nat, size: nat, newSize: nat)
      reads this
    {
      p != 0 && Align(size) < Align(newSize) && AtTop(p, Align(size)) && Roomy(chunks, Align(newSize) - Align(size))
    }

    // The last block takes more of its chunk, as much as the code's sum says there is. The pool
    // stays valid exactly when there is.
    method Extend(p: nat, size: Word64, newSize: Word64)
      requires Valid() && Live(p, size) && AlignWord(size) == Align(size) < AlignWord(newSize)
      requires AtTop(p, Align(size)) && Fits(chunks, AlignWord(newSize) - AlignWord(size))
      modifies this`chunks, this`blocks
      ensures Live(p, newSize) && Keeps(old(blocks), p)
      ensures chunks == Taken(old(chunks), AlignWord(newSize) - AlignWord(size))
      ensures Valid() <==> old(Roomy(chunks, AlignWord(newSize) - AlignWord(size)))
    {
      hide LiveIn, KeptIn, Taken, Roomy, PoolSound, Align, AlignWord, Fits;
      var increment := AlignWord(newSize) - AlignWord(size);
      ghost var cs, bs := chunks, blocks;
      AlignExactly(newSize);
      ghost var k := ExtendExactly(cs, bs, heap.regions, heap.ram.Length, userBuffer, p, size, newSize);
      chunks := Taken(chunks, increment);
      blocks := bs[k := Block(p, Align(newSize))];
      Regrown(bs, k, p, Align(size), newSize);
    }

    // memcpy between regions that do not overlap. Bytes past the end of memory, where only a
    // wrapped sum can lead, are lost.
    method Copy(dst: nat, src: nat, n: nat)
      requires src + n <= heap.ram.Length
      modifies heap.ram
      ensures dst + n <= heap.ram.Length && Disjoint(dst, n, src, n) ==>
                heap.ram[dst..dst + n] == old(heap.ram[src..src + n])
      ensures forall a | 0 <= a < heap.ram.Length && !(dst <= a < dst + n) :: heap.ram[a] == old(heap.ram[a])
    {
      ghost var apart := dst + n <= heap.ram.Length && Disjoint(dst, n, src, n);
      for i := 0 to n
        invariant apart ==> heap.ram[dst..dst + i] == old(heap.ram[src..src + i])
        invariant forall a | 0 <= a < heap.ram.Length && !(dst <= a < dst + i) :: heap.ram[a] == old(heap.ram[a])
      {
        if dst + i < heap.ram.Length {
          assert apart ==> heap.ram[src + i] == old(heap.ram[src + i]);
          heap.ram[dst + i] := heap.ram[src + i];
          assert heap.ram[dst..dst + i + 1] == heap.ram[dst..dst + i] + [heap.ram[dst + i]];
        }
        assert old(heap.ram[src..src + i + 1]) == old(heap.ram[src..src + i]) + [old(heap.ram[src + i])];
      }
    }

    // n bytes from p on are those that image m has from q on.
    ghost predicate SameBytes(p: nat, n: nat, m: seq<Byte>, q: nat)
      reads this, heap, heap.ram
    {
      |m| == heap.ram.Length && p + n <= |m| && q + n <= |m| && heap.ram[p..p + n] == m[q..q + n]
    }

    // The bytes of these blocks are what they were in memory image m.
    ghost predicate Untouched(bs: seq<Block>, m: seq<Byte>)
      reads this, heap, heap.ram
    {
      SameBlocks(bs, m, heap.ram[..])
    }

    ghost predicate Keeps(bs: seq<Block>, p: nat)
      reads this
    {
      KeptIn(bs, blocks, p)
    }

    // A new block with the first size bytes of an old one.
    method Move(originalPtr: nat, originalSize: Word64, newSize: Word64) returns (p: nat)
      requires Valid() && Live(originalPtr, originalSize)
      requires AlignWord(originalSize) == Align(originalSize) < AlignWord(newSize)
      modifies this`chunks, this`blocks, heap, heap.ram
      ensures p == 0 ==> !old(WillServe(AlignWord(newSize)))
      ensures p == 0 ==> chunks == old(chunks) && blocks == old(blocks) && heap.ram[..] == old(heap.ram[..])
      ensures p != 0 ==> blocks == old(blocks) + [Block(p, Align(newSize))]
      ensures Valid() <==> p == 0 || !old(Wraps(newSize))
      ensures p != 0 && !old(Wraps(newSize)) ==>
                p != originalPtr && SameBytes(p, Min(originalSize, newSize), old(heap.ram[..]), originalPtr)
      ensures p == 0 || !old(Wraps(newSize)) ==> Untouched(old(blocks), old(heap.ram[..]))
    {
      hide ChunksSound, BlocksSound, Held, TotalSize, Reserved, CutFrom, CanServe, WillServe, SameBlocks, LiveIn;
      hide Disjoint, KeptIn, ReallocWraps;
      hide HandedOut, Taken, Overflows, PoolSound, Align, AlignWord, Plus, Fits, Roomy, NewCapacity;
      var size, wanted := AlignWord(originalSize), AlignWord(newSize);
      ghost var was, m := blocks, heap.ram[..];
      AlignedAgain(newSize);
      SameSelf(was, m);
      SourceFits(chunks, was, heap.regions, heap.ram.Length, userBuffer, originalPtr, originalSize);
      ghost var wraps := Wraps(newSize);
      p := Malloc(wanted);
      assert heap.ram[..] == m;
      if p != 0 {
        if !wraps {
          BlockApart(was, Block(p, wanted), chunks, heap.regions, heap.ram.Length, userBuffer,
                     originalPtr, originalSize);
        }
        CopyOver(p, originalPtr, size, Min(originalSize, newSize), was, wanted, !wraps);
      }
    }

    // size bytes of an old block copied to a new one at p; n of them count.
    method CopyOver(p: nat, originalPtr: nat, size: nat, n: nat, ghost was: seq<Block>, ghost wanted: nat,
                    ghost fine: bool)
      requires originalPtr + size <= heap.ram.Length && n <= size <= wanted
      requires fine ==> p + size <= heap.ram.Length && Apart(was, p, wanted) && Disjoint(p, size, originalPtr, size)
      modifies heap.ram
      ensures fine ==> Untouched(was, old(heap.ram[..])) && SameBytes(p, n, old(heap.ram[..]), originalPtr)
    {
      hide SameBlocks, Apart;
      ghost var m := heap.ram[..];
      Copy(p, originalPtr, size);
      ghost var now := heap.ram[..];
      if fine {
        assert now[p..p + size] == m[originalPtr..originalPtr + size];
        OutsideSame(was, m, now, p, size, wanted);
        PrefixSlices(now, p, m, originalPtr, size, n);
      }
    }

    // A request that wraps, unless the block need not grow or can grow in place.
    predicate ReallocWraps(originalPtr: nat, originalSize: Word64, newSize: Word64)
      reads this
    {
      && Wraps(newSize)
      && (originalPtr == 0 ||
          (Align(originalSize) < Align(newSize) && !Growable(originalPtr, originalSize, newSize)))
    }

    lemma SameInPlace(p: nat, n: nat, m: seq<Byte>)
      requires m == heap.ram[..] && p + n <= |m|
      ensures SameBytes(p, n, m, p) && Untouched(blocks, m)
    {
    }

    // A block that grows in place, or does not.
    lemma InPlace(p: nat, size: Word64, newSize: Word64)
      requires Valid() && p != 0 && Align(size) < Align(newSize) < TWO64 && AtTop(p, Align(size))
      requires Fits(chunks, Align(newSize) - Align(size))
      ensures Roomy(chunks, Align(newSize) - Align(size)) <==> !ReallocWraps(p, size, newSize)
      ensures Roomy(chunks, Align(newSize) - Align(size)) ==>
                Taken(chunks, Align(newSize) - Align(size)) == Grown(chunks, Align(newSize) - Align(size))
    {
      hide PoolSound;
      HeadSound(chunks, blocks, heap.regions, heap.ram.Length, userBuffer);
    }

    lemma NotInPlace(p: nat, size: Word64, newSize: Word64)
      requires Valid() && p != 0 && Align(size) < Align(newSize) < TWO64
      requires AtTop(p, Align(size)) ==> !Fits(chunks, Align(newSize) - Align(size))
      ensures !Growable(p, size, newSize) && (ReallocWraps(p, size, newSize) <==> Wraps(newSize))
    {
      hide PoolSound, Overflows;
      HeadSound(chunks, blocks, heap.regions, heap.ram.Length, userBuffer);
    }

    // A size that cannot be aligned wraps whatever the block.
    lemma BeyondAligned(p: nat, size: Word64, newSize: Word64)
      requires Valid() && p != 0 && Live(p, size) && Align(newSize) >= TWO64
      ensures ReallocWraps(p, size, newSize) && !Growable(p, size, newSize) && !Live(p, newSize)
    {
      hide ChunksSound, BlocksSound;
      HeadSound(chunks, blocks, heap.regions, heap.ram.Length, userBuffer);
      BlocksInRam(blocks, chunks, heap.ram.Length, userBuffer);
    }

    lemma ServesExactly(size: Word64)
      requires size != 0 && !Wraps(size)
      ensures WillServe(AlignWord(size)) <==> CanServe(Align(size))
    {
      SumsExact(chunks, size, chunkCapacity);
    }

    // The block with its first originalSize bytes, where it is or moved. It stays in place when it
    // need not grow or is the last one in a chunk with room; a refused request changes nothing.
    // What it returns is a live block of a valid pool exactly when the request does not wrap.
    method Realloc(originalPtr: nat, originalSize: Word64, newSize: Word64) returns (p: nat)
      requires Valid() && (originalPtr == 0 || Live(originalPtr, originalSize))
      modifies this`chunks, this`blocks, heap, heap.ram
      ensures p == 0 ==> Valid() && (newSize == 0 || !old(WillServe(AlignWord(newSize))))
      ensures p == 0 ==> chunks == old(chunks) && blocks == old(blocks) && heap.ram[..] == old(heap.ram[..])
      ensures p != 0 ==>
                && newSize != 0
                && (Valid() && Live(p, newSize) <==> !old(ReallocWraps(originalPtr, originalSize, newSize)))
      ensures !old(ReallocWraps(originalPtr, originalSize, newSize)) ==>
                && (p == 0 ==> newSize == 0 || !old(CanServe(Align(newSize))))
                && (p != 0 && originalPtr != 0 ==>
                      SameBytes(p, Min(originalSize, newSize), old(heap.ram[..]), originalPtr))
                && Keeps(old(blocks), originalPtr) && Untouched(old(blocks), old(heap.ram[..]))
                && (p != 0 && p != originalPtr ==> blocks == old(blocks) + [Block(p, Align(newSize))])
      ensures originalPtr != 0 && newSize != 0 && Align(newSize) <= Align(originalSize) ==>
                p == originalPtr && blocks == old(blocks)
      ensures old(Growable(originalPtr, originalSize, newSize)) ==>
                p == originalPtr && chunks == Grown(old(chunks), Align(newSize) - Align(originalSize))
    {
      hide ChunksSound, BlocksSound, TotalSize, Reserved, CutFrom, HandedOut, CanServe, WillServe, Overflows, PoolSound;
      hide Roomy, AtTop, Taken, Grown;
      ghost var was, m := blocks, heap.ram[..];
      SameSelf(was, m);
      if newSize != 0 && !Wraps(newSize) {
        ServesExactly(newSize);
      }
      if originalPtr == 0 {
        p := Malloc(newSize);
      } else if newSize == 0 {
        p := 0;
      } else {
        SourceFits(chunks, was, heap.regions, heap.ram.Length, userBuffer, originalPtr, originalSize);
        AlignExactly(originalSize);
        AlignExactly(newSize);
        if Align(newSize) >= TWO64 {
          BeyondAligned(originalPtr, originalSize, newSize);
        }
        if AlignWord(originalSize) >= AlignWord(newSize) {
          p := originalPtr;
        } else {
          p := Grow(originalPtr, originalSize, newSize);
        }
      }
    }

    // Expand the last block in place, or else allocate and copy.
    method Grow(originalPtr: nat, originalSize: Word64, newSize: Word64) returns (p: nat)
      requires Valid() && originalPtr != 0 && Live(originalPtr, originalSize)
      requires AlignWord(originalSize) == Align(originalSize) < AlignWord(newSize) == Align(newSize)
      modifies this`chunks, this`blocks, heap, heap.ram
      ensures p == 0 ==> Valid() && !old(WillServe(AlignWord(newSize)))
      ensures p == 0 ==> chunks == old(chunks) && blocks == old(blocks) && heap.ram[..] == old(heap.ram[..])
      ensures p == 0 ==> !old(Growable(originalPtr, originalSize, newSize))
      ensures p != 0 ==> Live(p, newSize) && (Valid() <==> !old(ReallocWraps(originalPtr, originalSize, newSize)))
      ensures p != 0 && !old(ReallocWraps(originalPtr, originalSize, newSize)) ==>
                SameBytes(p, Min(originalSize, newSize), old(heap.ram[..]), originalPtr)
      ensures !old(ReallocWraps(originalPtr, originalSize, newSize)) ==> Untouched(old(blocks), old(heap.ram[..]))
      ensures Keeps(old(blocks), originalPtr)
      ensures p != 0 && p != originalPtr ==> blocks == old(blocks) + [Block(p, Align(newSize))]
      ensures old(Growable(originalPtr, originalSize, newSize)) ==>
                p == originalPtr && chunks == Grown(old(chunks), Align(newSize) - Align(originalSize))
    {
      hide ChunksSound, BlocksSound, TotalSize, Reserved, CutFrom, WillServe, PoolSound, SameBlocks, LiveIn, Taken;
      hide Overflows, Fits, Roomy, Grown, ReallocWraps, KeptIn;
      ghost var growable := Growable(originalPtr, originalSize, newSize);
      ghost var wraps := ReallocWraps(originalPtr, originalSize, newSize);
      var size, wanted := AlignWord(originalSize), AlignWord(newSize);
      SourceFits(chunks, blocks, heap.regions, heap.ram.Length, userBuffer, originalPtr, originalSize);
      if chunks != [] && originalPtr + size == chunks[0].Top() {
        var increment := wanted - size;
        if Fits(chunks, increment) {
          InPlace(originalPtr, originalSize, newSize);
          SameInPlace(originalPtr, Min(originalSize, newSize), heap.ram[..]);
          Extend(originalPtr, originalSize, newSize);
          return originalPtr;
        }
      }
      NotInPlace(originalPtr, originalSize, newSize);
      assert !growable && wraps == Wraps(newSize);
      p := Move(originalPtr, originalSize, newSize);
      if p != 0 {
        LastIsLive(blocks, p, newSize);
        KeptBelow(old(blocks), blocks, originalPtr, Block(p, Align(newSize)));
      } else {
        KeptSelf(blocks, originalPtr);
      }
    }

    // Every chunk in front of the caller's buffer freed, n of them.
    method FreeChunks() returns (ghost n: nat)
      requires ChunksSound(chunks, heap.ram.Length, userBuffer) && AllOwned(chunks, heap.regions)
      modifies this`chunks, heap
      ensures n <= |old(chunks)| && chunks == old(chunks)[n..] && (chunks != [] ==> chunks[0].base == userBuffer)
      ensures forall i | 0 <= i < n :: old(chunks)[i].base != userBuffer
      ensures heap.regions == old(heap.regions) - FromHeap(old(chunks)[..n], userBuffer)
      ensures AllOwned(chunks, heap.regions)
    {
      hide ChunksSound, AllOwned;
      ghost var cs := chunks;
      n := 0;
      while chunks != [] && chunks[0].base != userBuffer
        invariant n <= |cs| && chunks == cs[n..]
        invariant heap.regions == old(heap.regions) - FromHeap(cs[..n], userBuffer)
        invariant forall i | 0 <= i < n :: cs[i].base != userBuffer
        invariant AllOwned(chunks, heap.regions)
        decreases |chunks|
      {
        OthersStay(cs, n, heap.ram.Length, userBuffer, heap.regions);
        assert cs[n..][1..] == cs[n + 1..] && cs[..n + 1][..n] == cs[..n];
        heap.Free(chunks[0].base);
        chunks := chunks[1..];
        n := n + 1;
      }
    }

    // Every chunk of the heap's is given back; the caller's buffer is kept, empty.
    method Clear()
      requires Valid()
      modifies this`chunks, this`blocks, heap
      ensures Valid() && blocks == []
      ensures if userBuffer == 0 then chunks == []
              else |chunks| == 1 && chunks[0].base == userBuffer && chunks[0].size == 0
      ensures heap.regions == old(heap.regions) - FromHeap(old(chunks), userBuffer)
    {
      hide ChunksSound, BlocksSound;
      ghost var cs := chunks;
      ghost var n := FreeChunks();
      UserChunkLast(cs, n, heap.ram.Length, userBuffer);
      if chunks != [] && chunks[0].base == userBuffer {
        assert cs == cs[..n] + [cs[n]];
        chunks := chunks[0 := chunks[0].(size := 0)];
      } else {
        assert cs == cs[..n];
      }
      blocks := [];
      EmptySound(chunks, heap.ram.Length, userBuffer);
    }
  }

  // The bases of the chunks that came from the heap.
  ghost function FromHeap(cs: seq<Chunk>, userBuffer: nat): set<nat> {
    if cs == [] then {}
    else
      var n := |cs| - 1;
      FromHeap(cs[..n], userBuffer) + if cs[n].base == userBuffer then {} else {cs[n].base}
  }

  // Giving one chunk back leaves the ones behind it owned.
  lemma OthersStay(cs: seq<Chunk>, n: nat, ramSize: nat, userBuffer: nat, regions: map<nat, nat>)
    requires ChunksSound(cs, ramSize, userBuffer) && n < |cs| && AllOwned(cs[n..], regions)
    ensures cs[n].base in regions && AllOwned(cs[n + 1..], regions - {cs[n].base})
  {
    assert Owned(cs[n..][0], regions);
    var behind := cs[n + 1..];
    forall i | 0 <= i < |behind|
      ensures Owned(behind[i], regions - {cs[n].base})
    {
      assert Owned(cs[n..][i + 1], regions);
      assert Disjoint(cs[n].base, cs[n].Bytes(), cs[n + 1 + i].base, cs[n + 1 + i].Bytes());
    }
  }

  // Only the last chunk can be the caller's.
  lemma UserChunkLast(cs: seq<Chunk>, n: nat, ramSize: nat, userBuffer: nat)
    requires ChunksSound(cs, ramSize, userBuffer) && n <= |cs| && (n < |cs| ==> cs[n].base == userBuffer)
    ensures n < |cs| ==> n == |cs| - 1 && ChunkSound(cs[n], ramSize, userBuffer) && userBuffer != 0
  {
    if n < |cs| {
      assert ChunkSound(cs[n], ramSize, userBuffer);
    }
  }

  lemma EmptySound(cs: seq<Chunk>, ramSize: nat, userBuffer: nat)
    requires |cs| <= 1 && (cs != [] ==> ChunkSound(cs[0], ramSize, userBuffer) && cs[0].size == 0)
    ensures ChunksSound(cs, ramSize, userBuffer) && BlocksSound([], cs) && TotalSize(cs) == 0
  {
  }

  lemma TakenHandedOut(was: seq<Chunk>, cs: seq<Chunk>, n: Word64, chunkCapacity: Word64)
    requires MadeRoom(was, cs, n, chunkCapacity) && cs != []
    ensures HandedOut(was, Taken(cs, n), cs[0].Top(), n, chunkCapacity)
  {
  }

  // In a sound pool the head chunk is not overfull.
  lemma HeadSound(cs: seq<Chunk>, bs: seq<Block>, regions: map<nat, nat>, ramSize: nat, userBuffer: nat)
    requires PoolSound(cs, bs, regions, ramSize, userBuffer)
    ensures ramSize <= TWO64
    ensures cs != [] ==> ChunkSound(cs[0], ramSize, userBuffer) && cs[0].size <= cs[0].capacity < TWO64
  {
  }

  // A live block with room for size bytes lies in memory.
  lemma SourceFits(cs: seq<Chunk>, bs: seq<Block>, regions: map<nat, nat>, ramSize: nat, userBuffer: nat,
                   p: nat, size: nat)
    requires PoolSound(cs, bs, regions, ramSize, userBuffer) && LiveIn(bs, p, size)
    ensures 0 < p && p + Align(size) <= ramSize <= TWO64
  {
    hide ChunksSound, BlocksSound;
    BlocksInRam(bs, cs, ramSize, userBuffer);
  }

  // The block at p that ends at the top of the head chunk takes what it lacks of the new size, as
  // the code's sum allows: that leaves a sound pool exactly when the chunk has it.
  lemma ExtendExactly(cs: seq<Chunk>, bs: seq<Block>, regions: map<nat, nat>, ramSize: nat, userBuffer: nat,
                      p: nat, size: nat, newSize: nat) returns (k: nat)
    requires PoolSound(cs, bs, regions, ramSize, userBuffer) && LiveIn(bs, p, size)
    requires cs != [] && p + Align(size) == cs[0].Top() && Align(size) < Align(newSize) < TWO64
    requires Fits(cs, Align(newSize) - Align(size))
    ensures k < |bs| && bs[k] == Block(p, Align(size))
    ensures PoolSound(Taken(cs, Align(newSize) - Align(size)), bs[k := Block(p, Align(newSize))],
                      regions, ramSize, userBuffer)
       <==> Roomy(cs, Align(newSize) - Align(size))
  {
    hide ChunksSound, BlocksSound, Reserved, TotalSize, TotalCapacity, Taken, PoolSound, Align;
    HeadSound(cs, bs, regions, ramSize, userBuffer);
    var n := Align(newSize) - Align(size);
    EvenDifference(Align(newSize), Align(size));
    k :| 0 <= k < |bs| && bs[k].start == p && Align(size) <= bs[k].size;
    LastBlock(cs, bs, regions, ramSize, userBuffer, k, Align(size));
    if Roomy(cs, n) {
      TakenGrown(cs, n);
      ExtendSound(cs, bs, regions, ramSize, userBuffer, k, n);
    } else {
      BlockBreaks(Taken(cs, n), bs[k := Block(p, Align(newSize))], regions, ramSize, userBuffer, k);
    }
  }

  lemma EvenDifference(a: nat, b: nat)
    requires a % 8 == 0 && b % 8 == 0
    ensures (a - b) % 8 == 0
  {
  }

  lemma Regrown(bs: seq<Block>, k: nat, p: nat, size: nat, newSize: nat)
    requires k < |bs| && bs[k] == Block(p, size) && size <= Align(newSize)
    ensures LiveIn(bs[k := Block(p, Align(newSize))], p, newSize)
    ensures KeptIn(bs, bs[k := Block(p, Align(newSize))], p)
  {
    assert bs[k := Block(p, Align(newSize))][k] == Block(p, Align(newSize));
  }

  lemma KeptSelf(bs: seq<Block>, p: nat)
    ensures KeptIn(bs, bs, p)
  {
  }

  lemma KeptBelow(bs: seq<Block>, now: seq<Block>, p: nat, b: Block)
    requires now == bs + [b]
    ensures KeptIn(bs, now, p)
  {
  }

  lemma LastIsLive(bs: seq<Block>, p: nat, size: nat)
    requires bs != [] && bs[|bs| - 1] == Block(p, Align(size))
    ensures LiveIn(bs, p, size)
  {
  }

  // A block that ends at the top of the head chunk has exactly that size.
  lemma LastBlock(cs: seq<Chunk>, bs: seq<Block>, regions: map<nat, nat>, ramSize: nat, userBuffer: nat,
                  k: nat, n: nat)
    requires PoolSound(cs, bs, regions, ramSize, userBuffer) && cs != []
    requires k < |bs| && n <= bs[k].size && bs[k].start + n == cs[0].Top()
    ensures bs[k].size == n
  {
    LastBlockEnds(bs, cs, ramSize, userBuffer, k, n);
  }

  lemma TakenGrown(cs: seq<Chunk>, n: Word64)
    requires cs != [] && cs[0].size + n < TWO64
    ensures Taken(cs, n) == Grown(cs, n)
  {
  }

  ghost predicate Apart(bs: seq<Block>, p: nat, n: nat) {
    forall k | 0 <= k < |bs| :: Disjoint(bs[k].start, bs[k].size, p, n)
  }

  // A block just cut is apart from all others, and from the one to be copied into it.
  lemma BlockApart(was: seq<Block>, b: Block, cs: seq<Chunk>, regions: map<nat, nat>, ramSize: nat, userBuffer: nat,
                   p: nat, size: nat)
    requires PoolSound(cs, was + [b], regions, ramSize, userBuffer) && LiveIn(was, p, size) && Align(size) <= b.size
    ensures b.start != p && b.start + Align(size) <= ramSize
    ensures Apart(was, b.start, b.size) && Disjoint(b.start, Align(size), p, Align(size))
  {
    hide ChunksSound, BlocksSound;
    NewBlockApart(was, b, cs, ramSize, userBuffer);
    SourceApart(was, b, cs, ramSize, userBuffer, p, size);
  }

  lemma SumWraps(a: nat, b: nat, c: nat)
    ensures Plus(Plus(a, b), c) == Plus(a, b + c)
  {
    var q, r := (a + b) / TWO64, (a + b) % TWO64;
    var q', r' := (r + c) / TWO64, (r + c) % TWO64;
    DivModUnique(a + (b + c), TWO64, q + q', r');
  }

  // n addresses from lo on.
  ghost function Range(lo: nat, n: nat): (a: set<nat>)
    ensures |a| == n && forall i :: i in a <==> lo <= i < lo + n
  {
    if n == 0 then {} else Range(lo, n - 1) + {lo + n - 1}
  }

  // All the addresses of these chunks.
  ghost function Addresses(cs: seq<Chunk>): set<nat> {
    if cs == [] then {} else Range(cs[0].base, cs[0].Bytes()) + Addresses(cs[1..])
  }

  // Chunks that share no byte have as many addresses as they hold, all of them in memory.
  lemma {:induction false} CapacityCounted(cs: seq<Chunk>, ramSize: nat, userBuffer: nat)
    requires ChunksSound(cs, ramSize, userBuffer)
    ensures TotalCapacity(cs) <= |Addresses(cs)|
    ensures forall a | a in Addresses(cs) :: 0 < a < ramSize && Covered(cs, a)
  {
    if cs != [] {
      var c, tail := cs[0], cs[1..];
      TailSound(cs, ramSize, userBuffer);
      CapacityCounted(tail, ramSize, userBuffer);
      hide ChunksSound, Covered;
      forall a | a in Addresses(tail)
        ensures !c.Has(a) && Covered(cs, a)
      {
        TailApart(cs, ramSize, userBuffer, a);
      }
      forall a | a in Range(c.base, c.Bytes())
        ensures 0 < a < ramSize && Covered(cs, a)
      {
        HeadCovers(cs, ramSize, userBuffer, a);
      }
      assert Range(c.base, c.Bytes()) !! Addresses(tail);
    }
  }

  ghost predicate Covered(cs: seq<Chunk>, a: nat) {
    exists i | 0 <= i < |cs| :: cs[i].Has(a)
  }

  lemma TailSound(cs: seq<Chunk>, ramSize: nat, userBuffer: nat)
    requires ChunksSound(cs, ramSize, userBuffer) && cs != []
    ensures ChunksSound(cs[1..], ramSize, userBuffer)
  {
    hide ChunkSound, Disjoint;
    var tail := cs[1..];
    assert forall i | 0 <= i < |tail| :: tail[i] == cs[i + 1];
  }

  lemma TailApart(cs: seq<Chunk>, ramSize: nat, userBuffer: nat, a: nat)
    requires ChunksSound(cs, ramSize, userBuffer) && cs != [] && Covered(cs[1..], a)
    ensures !cs[0].Has(a) && Covered(cs, a)
  {
    var i :| 0 <= i < |cs[1..]| && cs[1..][i].Has(a);
    assert Disjoint(cs[0].base, cs[0].Bytes(), cs[i + 1].base, cs[i + 1].Bytes());
    assert cs[i + 1].Has(a);
  }

  lemma HeadCovers(cs: seq<Chunk>, ramSize: nat, userBuffer: nat, a: nat)
    requires ChunksSound(cs, ramSize, userBuffer) && cs != [] && cs[0].Has(a)
    ensures 0 < a < ramSize && Covered(cs, a)
  {
    assert ChunkSound(cs[0], ramSize, userBuffer);
  }

  // What a sum wraps to: itself when it is a size.
  lemma SumIs(size: Word64, total: nat)
    requires Plus(size, 0) == Plus(0, total)
    ensures size == total % TWO64 && (total < TWO64 ==> size == total)
  {
  }

  lemma CapacityFits(cs: seq<Chunk>, ramSize: nat, userBuffer: nat)
    requires ChunksSound(cs, ramSize, userBuffer) && ramSize <= TWO64
    ensures TotalCapacity(cs) < TWO64
  {
    hide ChunksSound, Range, Covered;
    CapacityCounted(cs, ramSize, userBuffer);
    var n := if ramSize == 0 then 0 else ramSize - 1;
    Subset(Addresses(cs), Range(1, n));
  }

  function Min(a: nat, b: nat): nat {
    if a <= b then a else b
  }

  lemma PrefixSlices(r: seq<Byte>, p: nat, m: seq<Byte>, q: nat, n: nat, k: nat)
    requires p + n <= |r| && q + n <= |m| && r[p..p + n] == m[q..q + n] && k <= n
    ensures r[p..p + k] == m[q..q + k]
  {
    assert r[p..p + k] == r[p..p + n][..k];
    assert m[q..q + k] == m[q..q + n][..k];
  }

  // A block is as aligned as the chunk it lies in, and only a caller's buffer can be misaligned.
  lemma BlocksAligned(bs: seq<Block>, cs: seq<Chunk>, ramSize: nat, userBuffer: nat)
    requires ChunksSound(cs, ramSize, userBuffer) && BlocksSound(bs, cs)
    ensures userBuffer % 8 == 0 ==> forall k | 0 <= k < |bs| :: bs[k].start % 8 == 0
    ensures forall k, i | 0 <= k < |bs| && 0 <= i < |cs| && Inside(bs[k], cs[i]) ::
              bs[k].start % 8 == 0 <==> cs[i].base % 8 == 0
  {
    forall k, i | 0 <= k < |bs| && 0 <= i < |cs| && Inside(bs[k], cs[i])
      ensures bs[k].start % 8 == 0 <==> cs[i].base % 8 == 0
    {
      SameResidue(bs[k].start, cs[i].base);
    }
    if userBuffer % 8 == 0 {
      forall k | 0 <= k < |bs|
        ensures bs[k].start % 8 == 0
      {
        assert Held(bs[k], cs);
        var i :| 0 <= i < |cs| && Inside(bs[k], cs[i]);
        assert ChunkSound(cs[i], ramSize, userBuffer);
      }
    }
  }

  // A pool in a caller's buffer cuts its first block right behind the header there: with a
  // misaligned buffer the block is misaligned.
  method FirstBlock(heap: Heap, buffer: nat, size: Word64, chunkCapacity: Word64, request: Word64) returns (p: nat)
    requires buffer != 0 && size > HEADER && buffer + size <= heap.ram.Length <= TWO64
    requires buffer in heap.regions && heap.regions[buffer] == size
    requires 0 < request && HEADER + Align(request) <= size
    modifies heap
    ensures p == buffer + HEADER && (p % 8 == 0 <==> buffer % 8 == 0)
  {
    hide PoolSound, Overflows, CutFrom, LiveIn;
    var pool := new Pool.WithBuffer(heap, buffer, size, chunkCapacity);
    SmallRequest(request, size - HEADER);
    p := pool.Malloc(request);
    SameResidue(p, buffer);
  }

  // Three requests of which the second wraps: all are granted, and the third block lies inside the
  // first, which the client still holds.
  method OverlappingBlocks(heap: Heap, chunkCapacity: Word64) returns (p: nat, q: nat, r: nat)
    requires heap.ram.Length <= TWO64 && 16 <= chunkCapacity && HEADER + chunkCapacity < TWO64
    requires heap.Grants(HEADER + chunkCapacity)
    modifies heap
    ensures p != 0 && q != 0 && r == p + 8 && !Disjoint(p, 16, r, 8)
  {
    hide PoolSound, Overflows, CutFrom, LiveIn;
    var pool := new Pool(heap, chunkCapacity);
    SmallSums(chunkCapacity);
    p := pool.Malloc(16);
    assert pool.chunks == [Chunk(p - HEADER, chunkCapacity, 16)];
    q := pool.Malloc(TWO64 - 8);
    assert pool.chunks == [Chunk(p - HEADER, chunkCapacity, 8)];
    r := pool.Malloc(8);
  }

  lemma SmallSums(chunkCapacity: Word64)
    requires HEADER + chunkCapacity < TWO64
    ensures AlignWord(16) == 16 && AlignWord(8) == 8 && AlignWord(TWO64 - 8) == TWO64 - 8
    ensures Plus(16, TWO64 - 8) == 8 && Plus(8, 8) == 16 && Plus(HEADER, chunkCapacity) == HEADER + chunkCapacity
  {
  }

  lemma SmallRequest(n: Word64, capacity: Word64)
    requires Align(n) <= capacity
    ensures AlignWord(n) == Align(n) && Plus(0, AlignWord(n)) == AlignWord(n)
  {
    AlignExactly(n);
  }

  lemma SameResidue(a: nat, b: nat)
    requires (a - b) % 8 == 0
    ensures a % 8 == b % 8
  {
  }

  // A live block of the given size lies in memory, apart from a block just cut.
  lemma SourceApart(bs: seq<Block>, b: Block, cs: seq<Chunk>, ramSize: nat, userBuffer: nat, p: nat, size: nat)
    requires ChunksSound(cs, ramSize, userBuffer) && BlocksSound(bs + [b], cs)
    requires LiveIn(bs, p, size) && Align(size) <= b.size
    ensures p != b.start && p + Align(size) <= ramSize && Disjoint(b.start, Align(size), p, Align(size))
  {
    var k :| 0 <= k < |bs| && bs[k].start == p && Align(size) <= bs[k].size;
    NewBlockApart(bs, b, cs, ramSize, userBuffer);
    BlocksInRam(bs + [b], cs, ramSize, userBuffer);
    assert (bs + [b])[k] == bs[k];
    assert Disjoint(bs[k].start, bs[k].size, b.start, b.size);
  }

  // The bytes of these blocks are the same in two memory images.
  ghost predicate SameBlocks(bs: seq<Block>, m: seq<Byte>, now: seq<Byte>) {
    |m| == |now| &&
    forall k, a | 0 <= k < |bs| && bs[k].start <= a < bs[k].start + bs[k].size && 0 <= a < |m| :: now[a] == m[a]
  }

  lemma SameSelf(bs: seq<Block>, m: seq<Byte>)
    ensures SameBlocks(bs, m, m)
  {
  }

  // Writing inside a region that no block overlaps leaves the blocks as they were.
  lemma OutsideSame(bs: seq<Block>, m: seq<Byte>, now: seq<Byte>, p: nat, n: nat, size: nat)
    requires n <= size && Apart(bs, p, size)
    requires |m| == |now| && forall a | 0 <= a < |m| && !(p <= a < p + n) :: now[a] == m[a]
    ensures SameBlocks(bs, m, now)
  {
    forall k, a | 0 <= k < |bs| && bs[k].start <= a < bs[k].start + bs[k].size && 0 <= a < |m|
      ensures now[a] == m[a]
    {
      assert Disjoint(bs[k].start, bs[k].size, p, size);
    }
  }

  lemma BlocksInRam(bs: seq<Block>, cs: seq<Chunk>, ramSize: nat, userBuffer: nat)
    requires ChunksSound(cs, ramSize, userBuffer) && BlocksSound(bs, cs)
    ensures forall k | 0 <= k < |bs| :: 0 < bs[k].start && 0 < bs[k].size && bs[k].start + bs[k].size <= ramSize
  {
    forall k | 0 <= k < |bs|
      ensures 0 < bs[k].start && 0 < bs[k].size && bs[k].start + bs[k].size <= ramSize
    {
      assert Held(bs[k], cs);
      var i :| 0 <= i < |cs| && Inside(bs[k], cs[i]);
      assert ChunkSound(cs[i], ramSize, userBuffer);
    }
  }

  lemma NewBlockApart(bs: seq<Block>, b: Block, cs: seq<Chunk>, ramSize: nat, userBuffer: nat)
    requires ChunksSound(cs, ramSize, userBuffer) && BlocksSound(bs + [b], cs)
    ensures 0 < b.size && b.start + b.size <= ramSize
    ensures forall k | 0 <= k < |bs| :: Disjoint(bs[k].start, bs[k].size, b.start, b.size)
  {
    BlocksInRam(bs + [b], cs, ramSize, userBuffer);
    assert (bs + [b])[|bs|] == b;
    forall k | 0 <= k < |bs|
      ensures Disjoint(bs[k].start, bs[k].size, b.start, b.size)
    {
      assert (bs + [b])[k] == bs[k];
    }
  }

  // A block reaching at least to the top of the head chunk ends there.
  lemma LastBlockEnds(bs: seq<Block>, cs: seq<Chunk>, ramSize: nat, userBuffer: nat, k: nat, n: nat)
    requires ChunksSound(cs, ramSize, userBuffer) && BlocksSound(bs, cs) && cs != []
    requires k < |bs| && n <= bs[k].size && bs[k].start + n == cs[0].Top()
    ensures bs[k].size == n
  {
    assert Held(bs[k], cs);
    HeldBelowTop(bs[k], cs, ramSize, userBuffer);
    assert ChunkSound(cs[0], ramSize, userBuffer);
  }

  lemma ReservedAppend(bs: seq<Block>, b: Block)
    ensures Reserved(bs + [b]) == Reserved(bs) + b.size
  {
    assert (bs + [b])[..|bs|] == bs;
  }

  // ---------------------------------------------------------------- whole runs

  // A client's request: a new block, a new size for the k-th one it asked for, or a byte written
  // into that one.
  datatype Request = Allocate(size: Word64) | Resize(k: nat, newSize: Word64) | Write(k: nat, at: nat, b: Byte)

  // What the client holds: a pointer, null if nothing, the size it asked for, and the bytes it has
  // written there.
  datatype Entry = Entry(p: nat, size: Word64, data: seq<Option<Byte>>)

  function NewEntry(p: nat, size: Word64): Entry {
    Entry(p, size, Copies(size, None))
  }

  // A resized block, wherever it is now: what fits of the bytes written is still known.
  function Resized(e: Entry, p: nat, newSize: Word64): Entry
    requires |e.data| == e.size
  {
    Entry(p, newSize, e.data[..Min(e.size, newSize)] + Copies(newSize - Min(e.size, newSize), None))
  }

  predicate Shaped(ledger: seq<Entry>) {
    forall i | 0 <= i < |ledger| :: |ledger[i].data| == ledger[i].size
  }

  // The client's books after a request that was answered with p.
  function Booked(ledger: seq<Entry>, request: Request, p: nat): (next: seq<Entry>)
    requires Shaped(ledger)
    ensures Shaped(next)
  {
    match request
    case Allocate(size) => ledger + [NewEntry(p, size)]
    case Resize(k, newSize) =>
      if k < |ledger| && ledger[k].p != 0 then
        if p == 0 then ledger else ledger[k := Resized(ledger[k], p, newSize)]
      else ledger + [NewEntry(p, newSize)]
    case Write(k, at, b) =>
      if k < |ledger| && ledger[k].p != 0 && at < ledger[k].size then
        ledger[k := ledger[k].(data := ledger[k].data[at := Some(b)])]
      else ledger
  }

  function BookedAll(requests: seq<Request>, answers: seq<nat>): (ledger: seq<Entry>)
    requires |answers| == |requests|
    ensures Shaped(ledger)
  {
    if requests == [] then []
    else
      var n := |requests| - 1;
      Booked(BookedAll(requests[..n], answers[..n]), requests[n], answers[n])
  }

  // Memory m holds every byte the client has written to this block.
  ghost predicate Written(m: seq<Byte>, e: Entry) {
    e.p != 0 ==>
      && |e.data| == e.size && e.p + e.size <= |m|
      && forall j | 0 <= j < e.size && e.data[j].Some? :: m[e.p + j] == e.data[j].value
  }

  ghost predicate AllLive(bs: seq<Block>, ledger: seq<Entry>) {
    && (forall i | 0 <= i < |ledger| && ledger[i].p != 0 :: LiveIn(bs, ledger[i].p, ledger[i].size))
    && (forall i, j | 0 <= i < j < |ledger| && ledger[i].p != 0 && ledger[j].p != 0 :: ledger[i].p != ledger[j].p)
  }

  // Live blocks at different addresses share no byte.
  lemma LiveApart(bs: seq<Block>, cs: seq<Chunk>, p: nat, m: nat, q: nat, n: nat)
    requires BlocksSound(bs, cs) && LiveIn(bs, p, m) && LiveIn(bs, q, n) && p != q
    ensures Disjoint(p, m, q, n)
  {
    hide Held;
    var k :| 0 <= k < |bs| && bs[k].start == p && Align(m) <= bs[k].size;
    var l :| 0 <= l < |bs| && bs[l].start == q && Align(n) <= bs[l].size;
    assert Disjoint(bs[k].start, bs[k].size, bs[l].start, bs[l].size)
        || Disjoint(bs[l].start, bs[l].size, bs[k].start, bs[k].size);
  }

  // A block keeps its place and its size when others are added or grown.
  lemma LiveKept(bs: seq<Block>, cs: seq<Block>, changed: nat, p: nat, size: nat)
    requires KeptIn(bs, cs, changed) && LiveIn(bs, p, size)
    ensures LiveIn(cs, p, size)
  {
    var k :| 0 <= k < |bs| && bs[k].start == p && Align(size) <= bs[k].size;
    assert cs[k].start == p;
  }

  // A block just cut starts where no earlier one does.
  lemma NewStart(bs: seq<Block>, b: Block, cs: seq<Chunk>, p: nat, size: nat)
    requires BlocksSound(bs + [b], cs) && LiveIn(bs, p, size)
    ensures p != b.start
  {
    var k :| 0 <= k < |bs| && bs[k].start == p && Align(size) <= bs[k].size;
    assert (bs + [b])[k] == bs[k] && (bs + [b])[|bs|] == b;
    assert Held((bs + [b])[k], cs) && Held((bs + [b])[|bs|], cs);
    assert Disjoint(bs[k].start, bs[k].size, b.start, b.size);
  }

  // The ledger after entry k is replaced, or added when k is its length.
  lemma LedgerUpdated(bs: seq<Block>, now: seq<Block>, cs: seq<Chunk>, changed: nat, ledger: seq<Entry>,
                      k: nat, e: Entry)
    requires AllLive(bs, ledger) && KeptIn(bs, now, changed) && BlocksSound(now, cs)
    requires k <= |ledger| && (e.p != 0 ==> LiveIn(now, e.p, e.size))
    requires e.p != 0 ==> (k < |ledger| && e.p == ledger[k].p) || now == bs + [Block(e.p, Align(e.size))]
    ensures AllLive(now, ledger[..k] + [e] + ledger[if k == |ledger| then k else k + 1..])
  {
    hide BlocksSound, LiveIn, KeptIn;
    var next := ledger[..k] + [e] + ledger[if k == |ledger| then k else k + 1..];
    forall i | 0 <= i < |next| && next[i].p != 0
      ensures LiveIn(now, next[i].p, next[i].size) && (i != k && e.p != 0 ==> next[i].p != e.p)
    {
      if i != k {
        assert next[i] == ledger[i];
        LiveKept(bs, now, changed, ledger[i].p, ledger[i].size);
        if e.p != 0 && now == bs + [Block(e.p, Align(e.size))] {
          NewStart(bs, Block(e.p, Align(e.size)), cs, ledger[i].p, ledger[i].size);
        }
      }
    }
  }

  // The bytes of a live block that are the same in two memory images are written in both.
  lemma WrittenKept(bs: seq<Block>, m: seq<Byte>, now: seq<Byte>, e: Entry)
    requires SameBlocks(bs, m, now) && Written(m, e) && (e.p != 0 ==> LiveIn(bs, e.p, e.size))
    ensures Written(now, e)
  {
    if e.p != 0 {
      var k :| 0 <= k < |bs| && bs[k].start == e.p && Align(e.size) <= bs[k].size;
      forall j | 0 <= j < e.size && e.data[j].Some?
        ensures now[e.p + j] == e.data[j].value
      {
        var a := e.p + j;
        assert bs[k].start <= a < bs[k].start + bs[k].size && m[a] == e.data[j].value;
      }
    }
  }

  // A block that took its first bytes along still holds what was written to them.
  lemma WrittenMoved(m: seq<Byte>, now: seq<Byte>, e: Entry, p: nat, newSize: Word64)
    requires e.p != 0 && Written(m, e) && p + newSize <= |now|
    requires p + Min(e.size, newSize) <= |now| && e.p + Min(e.size, newSize) <= |m|
    requires now[p..p + Min(e.size, newSize)] == m[e.p..e.p + Min(e.size, newSize)]
    ensures Written(now, Resized(e, p, newSize))
  {
    var n, r := Min(e.size, newSize), Resized(e, p, newSize);
    forall j | 0 <= j < newSize && r.data[j].Some?
      ensures now[p + j] == r.data[j].value
    {
      assert j < n && r.data[j] == e.data[j];
      assert now[p..p + n][j] == m[e.p..e.p + n][j];
      assert m[e.p + j] == e.data[j].value;
    }
  }

  // All entries are written as before after one block may have been moved to p.
  lemma LedgerWritten(bs: seq<Block>, m: seq<Byte>, now: seq<Byte>, ledger: seq<Entry>, k: nat, p: nat, newSize: Word64)
    requires SameBlocks(bs, m, now) && AllLive(bs, ledger) && Shaped(ledger)
    requires forall i | 0 <= i < |ledger| :: Written(m, ledger[i])
    requires k < |ledger| && ledger[k].p != 0
    requires var n := Min(ledger[k].size, newSize);
             p != 0 ==> p + newSize <= |now| && p + n <= |now| && ledger[k].p + n <= |m|
                        && now[p..p + n] == m[ledger[k].p..ledger[k].p + n]
    ensures var next := if p == 0 then ledger else ledger[k := Resized(ledger[k], p, newSize)];
            forall i | 0 <= i < |next| :: Written(now, next[i])
  {
    hide Written, SameBlocks, LiveIn;
    forall i | 0 <= i < |ledger|
      ensures Written(now, ledger[i])
    {
      WrittenKept(bs, m, now, ledger[i]);
    }
    if p != 0 {
      WrittenMoved(m, now, ledger[k], p, newSize);
    }
  }

  // Nothing is known of the bytes of a new block.
  lemma NothingWritten(m: seq<Byte>, p: nat, size: Word64)
    requires p != 0 ==> p + size <= |m|
    ensures Written(m, NewEntry(p, size))
  {
  }

  ghost predicate Kept(pool: Pool, ledger: seq<Entry>)
    reads pool, pool.heap, pool.heap.ram
  {
    && pool.Valid() && Shaped(ledger) && AllLive(pool.blocks, ledger)
    && forall i | 0 <= i < |ledger| :: Written(pool.heap.ram[..], ledger[i])
  }

  // The next request wraps: a test a client can make before each request.
  predicate WrapsNext(pool: Pool, ledger: seq<Entry>, request: Request)
    reads pool
  {
    match request
    case Allocate(size) => pool.Wraps(size)
    case Resize(k, newSize) =>
      if k < |ledger| && ledger[k].p != 0 then pool.ReallocWraps(ledger[k].p, ledger[k].size, newSize)
      else pool.Wraps(newSize)
    case Write(_, _, _) => false
  }

  // A size that cannot wrap in any chunk of this memory: a test on the size alone.
  predicate Modest(size: Word64, ramSize: nat) {
    HEADER + Align(size) + ramSize < TWO64
  }

  predicate ModestRequest(request: Request, ramSize: nat) {
    match request
    case Allocate(size) => Modest(size, ramSize)
    case Resize(_, newSize) => Modest(newSize, ramSize)
    case Write(_, _, _) => true
  }

  // The same test for a whole run, before it.
  predicate ModestRun(requests: seq<Request>, ramSize: nat, chunkCapacity: Word64) {
    HEADER + chunkCapacity < TWO64 && forall i | 0 <= i < |requests| :: ModestRequest(requests[i], ramSize)
  }

  lemma ModestFits(pool: Pool, ledger: seq<Entry>, request: Request)
    requires pool.Valid() && HEADER + pool.chunkCapacity < TWO64 && ModestRequest(request, pool.heap.ram.Length)
    ensures !WrapsNext(pool, ledger, request)
  {
    hide PoolSound;
    HeadSound(pool.chunks, pool.blocks, pool.heap.regions, pool.heap.ram.Length, pool.userBuffer);
  }

  // Requests in any order, whatever the heap answers, up to the first one that wraps: every block
  // the client holds is live, no two of them share a byte, and each holds what the client last
  // wrote to it. A run of modest requests is served to its end.
  method Serve(pool: Pool, requests: seq<Request>) returns (ledger: seq<Entry>, answers: seq<nat>)
    requires pool.Valid()
    modifies pool, pool.heap, pool.heap.ram
    ensures pool.Valid() && AllLive(pool.blocks, ledger)
    ensures |answers| <= |requests| && ledger == BookedAll(requests[..|answers|], answers)
    ensures |answers| < |requests| ==> WrapsNext(pool, ledger, requests[|answers|])
    ensures ModestRun(requests, pool.heap.ram.Length, pool.chunkCapacity) ==> |answers| == |requests|
    ensures forall i | 0 <= i < |ledger| :: Written(pool.heap.ram[..], ledger[i])
    ensures forall i, j | 0 <= i < j < |ledger| && ledger[i].p != 0 && ledger[j].p != 0 ::
              Disjoint(ledger[i].p, ledger[i].size, ledger[j].p, ledger[j].size)
  {
    hide Booked, Written, WrapsNext, PoolSound;
    ledger, answers := [], [];
    while |answers| < |requests| && !WrapsNext(pool, ledger, requests[|answers|])
      invariant Kept(pool, ledger) && |answers| <= |requests| && ledger == BookedAll(requests[..|answers|], answers)
      decreases |requests| - |answers|
    {
      var n, p := |answers|, 0;
      ledger, p := ServeOne(pool, requests[n], ledger);
      answers := answers + [p];
      assert requests[..n + 1][..n] == requests[..n] && answers[..n] == answers[..|answers| - 1];
    }
    if |answers| < |requests| && ModestRun(requests, pool.heap.ram.Length, pool.chunkCapacity) {
      ModestFits(pool, ledger, requests[|answers|]);
      assert false;
    }
    LedgerApart(pool, ledger);
  }

  lemma LedgerApart(pool: Pool, ledger: seq<Entry>)
    requires Kept(pool, ledger)
    ensures forall i, j | 0 <= i < j < |ledger| && ledger[i].p != 0 && ledger[j].p != 0 ::
              Disjoint(ledger[i].p, ledger[i].size, ledger[j].p, ledger[j].size)
  {
    hide BlocksSound, ChunksSound, LiveIn;
    forall i, j | 0 <= i < j < |ledger| && ledger[i].p != 0 && ledger[j].p != 0
      ensures Disjoint(ledger[i].p, ledger[i].size, ledger[j].p, ledger[j].size)
    {
      LiveApart(pool.blocks, pool.chunks, ledger[i].p, ledger[i].size, ledger[j].p, ledger[j].size);
    }
  }

  method ServeOne(pool: Pool, request: Request, ledger: seq<Entry>) returns (next: seq<Entry>, p: nat)
    requires Kept(pool, ledger) && !WrapsNext(pool, ledger, request)
    modifies pool, pool.heap, pool.heap.ram
    ensures Kept(pool, next) && next == Booked(ledger, request, p)
  {
    hide AllLive, Written, PoolSound, Overflows;
    match request {
      case Allocate(size) =>
        next, p := ServeNew(pool, size, ledger);
      case Resize(k, newSize) =>
        if k < |ledger| && ledger[k].p != 0 {
          next, p := ServeResize(pool, k, newSize, ledger);
        } else {
          next, p := ServeNew(pool, newSize, ledger);
        }
      case Write(k, at, b) =>
        next, p := ledger, 0;
        if k < |ledger| && ledger[k].p != 0 && at < ledger[k].size {
          next := ServeWrite(pool, k, at, b, ledger);
        }
    }
  }

  method ServeNew(pool: Pool, size: Word64, ledger: seq<Entry>) returns (next: seq<Entry>, p: nat)
    requires Kept(pool, ledger) && !pool.Wraps(size)
    modifies pool, pool.heap
    ensures Kept(pool, next) && next == ledger + [NewEntry(p, size)]
  {
    hide ChunksSound, BlocksSound, TotalSize, Reserved, LiveIn, CutFrom, HandedOut, Written, AllLive, Overflows;
    hide PoolSound;
    ghost var bs := pool.blocks;
    p := pool.Malloc(size);
    next := ledger + [NewEntry(p, size)];
    LiveInRam(pool, p, size);
    NothingWritten(pool.heap.ram[..], p, size);
    LedgerKept(pool, bs, 0, ledger, |ledger|, NewEntry(p, size));
    assert ledger[..|ledger|] + [NewEntry(p, size)] + ledger[|ledger|..] == next;
  }

  method ServeResize(pool: Pool, k: nat, newSize: Word64, ledger: seq<Entry>) returns (next: seq<Entry>, p: nat)
    requires Kept(pool, ledger) && k < |ledger| && ledger[k].p != 0
    requires !pool.ReallocWraps(ledger[k].p, ledger[k].size, newSize)
    modifies pool, pool.heap, pool.heap.ram
    ensures Kept(pool, next) && next == if p == 0 then ledger else ledger[k := Resized(ledger[k], p, newSize)]
  {
    hide ChunksSound, BlocksSound, TotalSize, Reserved, LiveIn, CutFrom, Written, SameBlocks, Overflows, PoolSound;
    hide KeptIn, Align, AlignWord, Disjoint;
    ghost var bs, m := pool.blocks, pool.heap.ram[..];
    p := pool.Realloc(ledger[k].p, ledger[k].size, newSize);
    // a null answer leaves the old block standing
    var e := if p == 0 then ledger[k] else Resized(ledger[k], p, newSize);
    next := ledger[k := e];
    LedgerKept(pool, bs, ledger[k].p, ledger, k, e);
    assert ledger[..k] + [e] + ledger[k + 1..] == next;
    LiveInRam(pool, p, newSize);
    LedgerWritten(bs, m, pool.heap.ram[..], ledger, k, p, newSize);
  }

  lemma LiveInRam(pool: Pool, p: nat, size: nat)
    requires pool.Valid() && (p != 0 ==> pool.Live(p, size))
    ensures p != 0 ==> p + size <= pool.heap.ram.Length
  {
    hide ChunksSound, BlocksSound;
    BlocksInRam(pool.blocks, pool.chunks, pool.heap.ram.Length, pool.userBuffer);
  }

  lemma LedgerKept(pool: Pool, bs: seq<Block>, changed: nat, ledger: seq<Entry>, k: nat, e: Entry)
    requires pool.Valid() && AllLive(bs, ledger) && KeptIn(bs, pool.blocks, changed)
    requires k <= |ledger| && (e.p != 0 ==> LiveIn(pool.blocks, e.p, e.size))
    requires e.p != 0 ==>
               (k < |ledger| && e.p == ledger[k].p) || pool.blocks == bs + [Block(e.p, Align(e.size))]
    ensures AllLive(pool.blocks, ledger[..k] + [e] + ledger[if k == |ledger| then k else k + 1..])
  {
    hide ChunksSound, BlocksSound, LiveIn, KeptIn, AllLive;
    LedgerUpdated(bs, pool.blocks, pool.chunks, changed, ledger, k, e);
  }

  // The client writes a byte into its k-th block.
  method ServeWrite(pool: Pool, k: nat, at: nat, b: Byte, ledger: seq<Entry>) returns (next: seq<Entry>)
    requires Kept(pool, ledger) && k < |ledger| && ledger[k].p != 0 && at < ledger[k].size
    modifies pool.heap.ram
    ensures Kept(pool, next) && next == ledger[k := ledger[k].(data := ledger[k].data[at := Some(b)])]
  {
    hide ChunksSound, BlocksSound, TotalSize, Reserved, LiveIn;
    var e := ledger[k];
    ghost var m := pool.heap.ram[..];
    pool.heap.ram[e.p + at] := b;
    next := ledger[k := e.(data := e.data[at := Some(b)])];
    forall i | 0 <= i < |next|
      ensures Written(pool.heap.ram[..], next[i])
    {
      assert Written(m, ledger[i]);
      if i != k && ledger[i].p != 0 {
        LiveApart(pool.blocks, pool.chunks, ledger[i].p, ledger[i].size, e.p, e.size);
      }
    }
  }
}
