// BLAKE-256 and BLAKE-224 around an abstract compression function: the buffered update with its
// masked guard, and the final padding with its adjusted counters.
module Blake256 {
  import opened Words
  import opened Collections
  import opened Blocks


  type Chain8 = h: seq<Word32> | |h| == 8 witness [0, 0, 0, 0, 0, 0, 0, 0]

  // A compression: chaining value, the two counter words, one block. A suppressed counter is a
  // zero counter, because the code adds it by exclusive or.
  type Compression = (Chain8, Word32, Word32, seq<Byte>) -> Chain8

  // ---------------------------------------------------------------- the specification

  function Digest(h: Chain8): (d: seq<Byte>)
    ensures |d| == 32
  {
    Put32(h[0]) + Put32(h[1]) + Put32(h[2]) + Put32(h[3]) + Put32(h[4]) + Put32(h[5]) + Put32(h[6]) + Put32(h[7])
  }

  // The bytes between message and length: a one bit, zeros, and the marker bit in pb; pa holds
  // both when only one byte is left.
  function Filler(q: nat, pa: Byte, pb: Byte): (f: seq<Byte>)
    requires q < BLOCK_BYTES
    ensures |f| == if q <= 55 then 56 - q else 120 - q
  {
    if q == 55 then [pa]
    else [0x80] + Zeros(if q < 55 then 54 - q else 118 - q) + [pb]
  }

  function Padded(m: seq<Byte>, pa: Byte, pb: Byte): seq<Byte> {
    m + Filler(|m| % BLOCK_BYTES, pa, pb) + Put32(High(8 * |m|)) + Put32(Low(8 * |m|))
  }

  // The counter of block k of a message of the given number of bits: the message bits up to the
  // end of the block, or zero when the block holds none.
  function Counter(k: nat, bits: nat): nat {
    if bits <= 512 * k then 0 else if 512 * (k + 1) <= bits then 512 * (k + 1) else bits
  }

  // The chaining value after the first k blocks of p.
  function Chain(c: Compression, iv: Chain8, p: seq<Byte>, bits: nat, k: nat): Chain8
    requires BLOCK_BYTES * k <= |p|
  {
    if k == 0 then iv
    else
      var n := Counter(k - 1, bits);
      c(Chain(c, iv, p, bits, k - 1), Low(n), High(n), Block(p, k - 1))
  }

  // The number of blocks of a padded message of n bytes.
  function PaddedBlocks(n: nat): nat {
    n / BLOCK_BYTES + if n % BLOCK_BYTES <= 55 then 1 else 2
  }

  lemma PaddedLength(m: seq<Byte>, pa: Byte, pb: Byte)
    ensures |Padded(m, pa, pb)| == BLOCK_BYTES * PaddedBlocks(|m|)
  {
  }

  lemma FillerBits(q: nat) returns (z: nat)
    requires q < BLOCK_BYTES
    ensures z < 512 && (8 * q + 1 + z + 1 + 64) % 512 == 0
    ensures Bits(Filler(q, 0x81, 0x01)) == [true] + Falses(z) + [true]
    ensures Bits(Filler(q, 0x80, 0x00)) == [true] + Falses(z + 1)
  {
    EdgeBytes();
    hide Bits, ByteBits;
    if q == 55 {
      return 6;
    }
    var n := if q < 55 then 54 - q else 118 - q;
    z := 7 + 8 * n + 7;
    BitsConcat([0x80], Zeros(n));
    BitsConcat([0x80] + Zeros(n), [0x01]);
    BitsConcat([0x80] + Zeros(n), [0x00]);
    ZeroBits(n);
  }

  // The padding of section 2.1.3 of the BLAKE proposal, on bits: a one, the fewest zeros, a one,
  // and the length in 64 bits, up to a whole number of blocks; for the 224-bit digest the second
  // one is a zero.
  lemma PaddingIsOneZerosOne(m: seq<Byte>) returns (z: nat, length: seq<bool>)
    ensures |length| == 64 && Number(length) == 8 * |m| % TWO64
    ensures z < 512 && (8 * |m| + 1 + z + 1 + 64) % 512 == 0
    ensures Bits(Padded(m, 0x81, 0x01)) == Bits(m) + [true] + Falses(z) + [true] + length
    ensures Bits(Padded(m, 0x80, 0x00)) == Bits(m) + [true] + Falses(z + 1) + length
  {
    hide Bits, Filler, Put32, High, Low;
    var q := |m| % BLOCK_BYTES;
    var tail := Put32(High(8 * |m|)) + Put32(Low(8 * |m|));
    z := FillerBits(q);
    length := Bits(tail);
    CounterBits(8 * |m|);
    WholeBlocks(|m|, z + 66);
    var f, g := Filler(q, 0x81, 0x01), Filler(q, 0x80, 0x00);
    BitsConcat(m, f);
    BitsConcat(m + f, tail);
    BitsConcat(m, g);
    BitsConcat(m + g, tail);
    assert m + f + tail == Padded(m, 0x81, 0x01) && m + g + tail == Padded(m, 0x80, 0x00);
  }

  lemma WholeBlocks(n: nat, more: nat)
    requires (8 * (n % BLOCK_BYTES) + more) % 512 == 0
    ensures (8 * n + more) % 512 == 0
  {
    var k := n / BLOCK_BYTES;
    var r := (8 * (n % BLOCK_BYTES) + more) / 512;
    DivModUnique(8 * n + more, 512, k + r, 0);
  }

  function HashChain(c: Compression, iv: Chain8, m: seq<Byte>, pa: Byte, pb: Byte): Chain8 {
    PaddedLength(m, pa, pb);
    Chain(c, iv, Padded(m, pa, pb), 8 * |m|, PaddedBlocks(|m|))
  }

  // Whole blocks of message count all their bits, whatever follows them.
  lemma {:induction false} ChainPrefix(c: Compression, iv: Chain8, p: seq<Byte>, bits: nat,
                                       p': seq<Byte>, bits': nat, k: nat)
    requires BLOCK_BYTES * k <= |p| && BLOCK_BYTES * k <= |p'| && p[..BLOCK_BYTES * k] == p'[..BLOCK_BYTES * k]
    requires 512 * k <= bits && 512 * k <= bits'
    ensures Chain(c, iv, p, bits, k) == Chain(c, iv, p', bits', k)
  {
    hide Low, High;
    if k > 0 {
      var a, b := p[..BLOCK_BYTES * k], p'[..BLOCK_BYTES * k];
      assert p[..BLOCK_BYTES * (k - 1)] == a[..BLOCK_BYTES * (k - 1)];
      assert p'[..BLOCK_BYTES * (k - 1)] == b[..BLOCK_BYTES * (k - 1)];
      ChainPrefix(c, iv, p, bits, p', bits', k - 1);
      assert Block(p, k - 1) == a[BLOCK_BYTES * (k - 1)..];
      assert Block(p', k - 1) == b[BLOCK_BYTES * (k - 1)..];
    }
  }

  // ---------------------------------------------------------------- one update, as a function

  datatype View = View(h: Chain8, t0: Word32, t1: Word32, nullt: bool, buflen: nat, buf: seq<Byte>)

  // The counter advanced by one block, carrying when its low word comes to zero.
  function Ticked(v: View): View {
    var t0 := (v.t0 + 512) % TWO32;
    v.(t0 := t0, t1 := if t0 == 0 then (v.t1 + 1) % TWO32 else v.t1)
  }

  function Compressed(c: Compression, v: View, block: seq<Byte>): View {
    v.(h := if v.nullt then c(v.h, 0, 0, block) else c(v.h, v.t0, v.t1, block))
  }

  function Step(c: Compression, v: View, block: seq<Byte>): View {
    Compressed(c, Ticked(v), block)
  }

  // Every whole block of data, straight from the input.
  function Bulk(c: Compression, v: View, data: seq<Byte>): View
    decreases |data|
  {
    if |data| < BLOCK_BYTES then v
    else Bulk(c, Step(c, v, data[..BLOCK_BYTES]), data[BLOCK_BYTES..])
  }

  function Rest(data: seq<Byte>): (r: seq<Byte>)
    ensures |r| == |data| % BLOCK_BYTES
  {
    data[BLOCK_BYTES * (|data| / BLOCK_BYTES)..]
  }

  predicate Sound(v: View) {
    |v.buf| == BLOCK_BYTES && v.buflen % 8 == 0 && v.buflen < 512
  }

  // The tail stored behind `left` bytes; an empty tail resets the buffer.
  function Stored(v: View, left: nat, tail: seq<Byte>): View
    requires |v.buf| == BLOCK_BYTES && left + |tail| <= BLOCK_BYTES
  {
    v.(buf := v.buf[..left] + tail + v.buf[left + |tail|..], buflen := if tail == [] then 0 else 8 * (left + |tail|))
  }

  function Filled(v: View, part: seq<Byte>): View
    requires Sound(v) && v.buflen / 8 + |part| == BLOCK_BYTES
  {
    v.(buf := v.buf[..v.buflen / 8] + part)
  }

  lemma {:induction false} BulkKeeps(c: Compression, v: View, data: seq<Byte>)
    ensures var w := Bulk(c, v, data); (w.buf, w.buflen, w.nullt) == (v.buf, v.buflen, v.nullt)
    decreases |data|
  {
    if |data| >= BLOCK_BYTES {
      BulkKeeps(c, Step(c, v, data[..BLOCK_BYTES]), data[BLOCK_BYTES..]);
    }
  }

  // The buffer is completed only when the last part of the input, its length taken modulo 64,
  // is long enough.
  function Updated(c: Compression, v: View, data: seq<Byte>): View
    requires Sound(v)
  {
    var left := v.buflen / 8;
    var fill := BLOCK_BYTES - left;
    if left != 0 && |data| % BLOCK_BYTES >= fill then
      var w := Filled(v, data[..fill]);
      var u := Step(c, w, w.buf);
      BulkKeeps(c, u, data[fill..]);
      Stored(Bulk(c, u, data[fill..]), 0, Rest(data[fill..]))
    else
      BulkKeeps(c, v, data);
      Stored(Bulk(c, v, data), left, Rest(data))
  }

  // ---------------------------------------------------------------- when updates stream

  // The state depends on the message m so far and nothing else.
  ghost predicate Holds(c: Compression, iv: Chain8, v: View, m: seq<Byte>) {
    var n := |m| / BLOCK_BYTES;
    && Sound(v) && !v.nullt
    && v.h == Chain(c, iv, m, 8 * |m|, n) && v.t0 == Low(512 * n) && v.t1 == High(512 * n)
    && v.buflen == 8 * (|m| % BLOCK_BYTES) && v.buf[..|m| % BLOCK_BYTES] == m[BLOCK_BYTES * n..]
  }

  // Chaining value and counter stand after k blocks of m.
  ghost predicate Aligned(c: Compression, iv: Chain8, v: View, m: seq<Byte>, k: nat) {
    && BLOCK_BYTES * k <= |m| && !v.nullt
    && v.h == Chain(c, iv, m, 8 * |m|, k) && v.t0 == Low(512 * k) && v.t1 == High(512 * k)
  }

  lemma TickCounts(v: View, k: nat)
    requires v.t0 == Low(512 * k) && v.t1 == High(512 * k)
    ensures Ticked(v).t0 == Low(512 * (k + 1)) && Ticked(v).t1 == High(512 * (k + 1))
  {
    var d, e := k / 0x80_0000, k % 0x80_0000;
    assert TWO32 == 512 * 0x80_0000;
    WordsOf(512 * k, d, 512 * e);
    if e + 1 < 0x80_0000 {
      WordsOf(512 * (k + 1), d, 512 * (e + 1));
    } else {
      WordsOf(512 * (k + 1), d + 1, 0);
    }
  }

  lemma StepAligned(c: Compression, iv: Chain8, v: View, m: seq<Byte>, k: nat)
    requires Aligned(c, iv, v, m, k) && BLOCK_BYTES * k + BLOCK_BYTES <= |m|
    ensures Aligned(c, iv, Step(c, v, Block(m, k)), m, k + 1)
  {
    hide Low, High;
    TickCounts(v, k);
    assert Counter(k, 8 * |m|) == 512 * (k + 1);
  }

  lemma {:induction false} BulkAligned(c: Compression, iv: Chain8, v: View, m: seq<Byte>, k: nat, data: seq<Byte>)
    requires BLOCK_BYTES * k <= |m| && Aligned(c, iv, v, m, k) && data == m[BLOCK_BYTES * k..]
    ensures Aligned(c, iv, Bulk(c, v, data), m, |m| / BLOCK_BYTES)
    ensures Rest(data) == m[BLOCK_BYTES * (|m| / BLOCK_BYTES)..]
    decreases |data|
  {
    hide Aligned, Step, Rest;
    if |data| < BLOCK_BYTES {
      ShortData(c, v, data);
      DivModUnique(|m|, BLOCK_BYTES, k, |data|);
    } else {
      var next := Step(c, v, Block(m, k));
      StepAligned(c, iv, v, m, k);
      assert data[..BLOCK_BYTES] == Block(m, k);
      assert data[BLOCK_BYTES..] == m[BLOCK_BYTES * (k + 1)..];
      BulkAligned(c, iv, next, m, k + 1, data[BLOCK_BYTES..]);
      RestAfter(data);
    }
  }

  lemma RestAfter(data: seq<Byte>)
    requires |data| >= BLOCK_BYTES
    ensures Rest(data[BLOCK_BYTES..]) == Rest(data)
  {
  }

  // What an update needs of the bytes buffered and the bytes it is given.
  predicate Streams(left: nat, n: nat) {
    left == 0 || 0 < n < BLOCK_BYTES || BLOCK_BYTES - left <= n % BLOCK_BYTES
  }

  // Whole blocks taken in and the tail stored at the front of the buffer.
  lemma TailStored(c: Compression, iv: Chain8, u: View, all: seq<Byte>, tail: seq<Byte>)
    requires Aligned(c, iv, u, all, |all| / BLOCK_BYTES) && |u.buf| == BLOCK_BYTES
    requires tail == all[BLOCK_BYTES * (|all| / BLOCK_BYTES)..]
    ensures Holds(c, iv, Stored(u, 0, tail), all)
  {
    hide Chain, Low, High;
  }

  lemma UpdateStreams(c: Compression, iv: Chain8, v: View, m: seq<Byte>, data: seq<Byte>)
    requires Holds(c, iv, v, m) && Streams(|m| % BLOCK_BYTES, |data|)
    ensures Holds(c, iv, Updated(c, v, data), m + data)
  {
    hide Step, Chain, Low, High, Bulk, Rest, Stored;
    var all, k, left := m + data, |m| / BLOCK_BYTES, |m| % BLOCK_BYTES;
    var fill := BLOCK_BYTES - left;
    ChainPrefix(c, iv, m, 8 * |m|, all, 8 * |all|, k);
    assert all[BLOCK_BYTES * k..] == m[BLOCK_BYTES * k..] + data;
    if left == 0 {
      BulkAligned(c, iv, v, all, k, data);
      BulkKeeps(c, v, data);
      TailStored(c, iv, Bulk(c, v, data), all, Rest(data));
    } else if |data| % BLOCK_BYTES >= fill {
      UpdateFills(c, iv, v, all, k, data, fill);
    } else {
      ShortData(c, v, data);
      ShortStored(c, iv, v, m, data);
    }
  }

  lemma UpdateFills(c: Compression, iv: Chain8, v: View, all: seq<Byte>, k: nat, data: seq<Byte>, fill: nat)
    requires Aligned(c, iv, v, all, k) && Sound(v) && v.buflen == 8 * (BLOCK_BYTES - fill) && 0 < fill < BLOCK_BYTES
    requires fill <= |data| % BLOCK_BYTES
    requires all[BLOCK_BYTES * k..] == v.buf[..BLOCK_BYTES - fill] + data
    ensures Holds(c, iv, Updated(c, v, data), all)
  {
    hide Step, Chain, Low, High, Bulk, Rest, Stored, Holds;
    var w := Filled(v, data[..fill]);
    var rest := data[fill..];
    assert w.buf == Block(all, k);
    StepAligned(c, iv, w, all, k);
    assert rest == all[BLOCK_BYTES * k..][BLOCK_BYTES..];
    var u := Step(c, w, w.buf);
    BulkAligned(c, iv, u, all, k + 1, rest);
    BulkKeeps(c, u, rest);
    StepKeeps(c, w, w.buf);
    TailStored(c, iv, Bulk(c, u, rest), all, Rest(rest));
  }

  lemma StepKeeps(c: Compression, v: View, block: seq<Byte>)
    ensures var w := Step(c, v, block); (w.buf, w.buflen, w.nullt) == (v.buf, v.buflen, v.nullt)
  {
  }

  lemma ShortStored(c: Compression, iv: Chain8, v: View, m: seq<Byte>, data: seq<Byte>)
    requires Holds(c, iv, v, m) && 0 < |data| < BLOCK_BYTES - |m| % BLOCK_BYTES
    ensures Holds(c, iv, Stored(v, |m| % BLOCK_BYTES, data), m + data)
  {
    hide Chain, Low, High;
    var k := |m| / BLOCK_BYTES;
    ChainPrefix(c, iv, m, 8 * |m|, m + data, 8 * |m + data|, k);
    assert (m + data)[BLOCK_BYTES * k..] == m[BLOCK_BYTES * k..] + data;
    assert |m + data| / BLOCK_BYTES == k;
  }

  lemma ShortData(c: Compression, v: View, data: seq<Byte>)
    requires |data| < BLOCK_BYTES
    ensures Bulk(c, v, data) == v && Rest(data) == data
  {
  }

  ghost predicate AlwaysStreams(c: Compression, iv: Chain8, a: nat, n: nat) {
    forall v: View, m: seq<Byte>, data: seq<Byte> ::
      |m| == a && |data| == n && Holds(c, iv, v, m) ==> Holds(c, iv, Updated(c, v, data), m + data)
  }

  function StateAfter(c: Compression, iv: Chain8, m: seq<Byte>): (v: View)
    ensures Holds(c, iv, v, m)
  {
    var n := |m| / BLOCK_BYTES;
    View(Chain(c, iv, m, 8 * |m|, n), Low(512 * n), High(512 * n), false, 8 * (|m| % BLOCK_BYTES),
         m[BLOCK_BYTES * n..] + Zeros(BLOCK_BYTES - |m| % BLOCK_BYTES))
  }

  // Otherwise the update drops buffered bytes or takes them out of order.
  lemma UpdateLoses(c: Compression, iv: Chain8, v: View, a: nat, n: nat)
    requires !Streams(a % BLOCK_BYTES, n) && Holds(c, iv, v, Zeros(a))
    ensures !Holds(c, iv, Updated(c, v, Copies<Byte>(n, 1)), Zeros(a) + Copies<Byte>(n, 1))
  {
    hide Chain, Low, High, Bulk, Step, Rest, Stored;
    var data, left := Copies<Byte>(n, 1), a % BLOCK_BYTES;
    BulkKeeps(c, v, data);
    assert Updated(c, v, data) == Stored(Bulk(c, v, data), left, Rest(data));
    if n % BLOCK_BYTES == 0 {
      StoredNothing(Bulk(c, v, data), left);
    } else {
      StoredBehind(Bulk(c, v, data), left, Rest(data));
      LastBytesAreOnes(a, n);
    }
  }

  lemma StoredNothing(v: View, left: nat)
    requires |v.buf| == BLOCK_BYTES && left <= BLOCK_BYTES
    ensures Stored(v, left, []).buflen == 0
  {
  }

  lemma StoredBehind(v: View, left: nat, tail: seq<Byte>)
    requires |v.buf| == BLOCK_BYTES && 0 < left && left + |tail| <= BLOCK_BYTES
    ensures Stored(v, left, tail).buf[0] == v.buf[..left][0]
  {
  }

  lemma LastBytesAreOnes(a: nat, n: nat)
    requires n >= BLOCK_BYTES && (a + n) % BLOCK_BYTES != 0
    ensures var all := Zeros(a) + Copies<Byte>(n, 1); all[BLOCK_BYTES * (|all| / BLOCK_BYTES)] == 1
  {
  }

  // After a bytes, an update by n bytes takes in every input correctly just when Streams says so.
  lemma StreamsExactly(c: Compression, iv: Chain8, a: nat, n: nat)
    ensures AlwaysStreams(c, iv, a, n) <==> Streams(a % BLOCK_BYTES, n)
  {
    hide Chain, Low, High, Updated, Streams;
    if Streams(a % BLOCK_BYTES, n) {
      forall v: View, m: seq<Byte>, data: seq<Byte> | |m| == a && |data| == n && Holds(c, iv, v, m)
        ensures Holds(c, iv, Updated(c, v, data), m + data)
      {
        UpdateStreams(c, iv, v, m, data);
      }
    } else {
      var v := StateAfter(c, iv, Zeros(a));
      UpdateLoses(c, iv, v, a, n);
    }
  }

  lemma UpdatedSound(c: Compression, v: View, data: seq<Byte>)
    requires Sound(v)
    ensures Sound(Updated(c, v, data))
  {
    hide Bulk, Step, Rest;
    var fill := BLOCK_BYTES - v.buflen / 8;
    if v.buflen / 8 != 0 && |data| % BLOCK_BYTES >= fill {
      var w := Filled(v, data[..fill]);
      StepKeeps(c, w, w.buf);
      BulkKeeps(c, Step(c, w, w.buf), data[fill..]);
    } else {
      BulkKeeps(c, v, data);
    }
  }

  // ---------------------------------------------------------------- the last blocks

  const PADDING: seq<Byte> := [0x80] + Zeros(63)

  function Lowered(v: View, d: nat): View
    requires d <= TWO32
  {
    v.(t0 := (v.t0 + TWO32 - d) % TWO32)
  }

  // Only the eight length bytes of block k of p are missing, and once the low counter word is
  // taken down by 64 the next tick gives the counter of that block.
  ghost predicate Primed(c: Compression, iv: Chain8, v: View, p: seq<Byte>, bits: nat, k: nat) {
    && Sound(v) && v.buflen == 448 && BLOCK_BYTES * k + BLOCK_BYTES <= |p|
    && v.h == Chain(c, iv, p, bits, k) && v.buf[..56] == p[BLOCK_BYTES * k..BLOCK_BYTES * k + 56]
    && Counts(v, 64, Counter(k, bits))
  }

  // After lowering by d, the next tick gives n; or the counter is suppressed and n is zero.
  ghost predicate Counts(v: View, d: nat, n: nat)
    requires d <= TWO32
  {
    var w := Ticked(Lowered(v, d));
    if v.nullt then n == 0 else w.t0 == Low(n) && w.t1 == High(n)
  }

  // Bytes that leave room in the buffer are only stored.
  lemma Appended(c: Compression, v: View, data: seq<Byte>)
    requires Sound(v) && 0 < |data| < BLOCK_BYTES - v.buflen / 8
    ensures Updated(c, v, data) == Stored(v, v.buflen / 8, data)
  {
    hide Bulk, Rest;
    ShortData(c, v, data);
  }

  // Bytes that just fill the buffer are compressed and leave it empty.
  lemma Completed(c: Compression, v: View, data: seq<Byte>)
    requires Sound(v) && v.buflen > 0 && |data| == BLOCK_BYTES - v.buflen / 8
    ensures var w := Filled(v, data); Updated(c, v, data) == Stored(Step(c, w, w.buf), 0, [])
  {
    hide Bulk, Rest;
    var w := Filled(v, data);
    assert data[..|data|] == data && data[|data|..] == [];
    ShortData(c, Step(c, w, w.buf), []);
  }

  lemma LengthBlock(c: Compression, iv: Chain8, v: View, p: seq<Byte>, bits: nat, k: nat, length: seq<Byte>)
    requires Primed(c, iv, v, p, bits, k) && length == p[BLOCK_BYTES * k + 56..BLOCK_BYTES * k + BLOCK_BYTES]
    ensures Updated(c, Lowered(v, 64), length).h == Chain(c, iv, p, bits, k + 1)
  {
    hide Low, High, Ticked, Updated, Counter;
    var w := Lowered(v, 64);
    Completed(c, w, length);
    assert Filled(w, length).buf == Block(p, k);
    TickFields(w, Filled(w, length));
    ZeroWords();
  }

  lemma ZeroWords()
    ensures Low(0) == 0 && High(0) == 0
  {
  }

  lemma TickFields(v: View, w: View)
    requires v.t0 == w.t0 && v.t1 == w.t1
    ensures Ticked(v).t0 == Ticked(w).t0 && Ticked(v).t1 == Ticked(w).t1
    ensures Ticked(w).h == w.h && Ticked(w).nullt == w.nullt
  {
  }

  lemma MessageCount(n: nat, q: nat)
    requires 0 < q < BLOCK_BYTES
    ensures Low(512 * n + 8 * q) == Low(512 * n) + 8 * q && High(512 * n + 8 * q) == High(512 * n)
  {
    var d, e := n / 0x80_0000, n % 0x80_0000;
    WordsOf(512 * n, d, 512 * e);
    WordsOf(512 * n + 8 * q, d, 512 * e + 8 * q);
  }

  // Lowered by what the padding adds to the block, the counter next ticks to the message bits.
  lemma CountsMessage(v: View, n: nat, q: nat, d: nat)
    requires 0 < q < BLOCK_BYTES && d <= 512 && !v.nullt
    requires v.t0 == (Low(512 * n) + TWO32 - (512 - 8 * q - d)) % TWO32 && v.t1 == High(512 * n)
    requires d + 8 * q <= 512
    ensures Counts(v, d, 512 * n + 8 * q)
  {
    MessageCount(n, q);
    var t := Low(512 * n + 8 * q);
    hide Low, High;
    LowerThenTick(Low(512 * n), 512 - 8 * q - d, d, t);
  }

  lemma LowerThenTick(t0: Word32, d: nat, e: nat, t: nat)
    requires d + e <= 512 && t == t0 + 512 - d - e && t < TWO32
    ensures ((((t0 + TWO32 - d) % TWO32) + TWO32 - e) % TWO32 + 512) % TWO32 == t
  {
  }

  // What the padding of m looks like from its last partial block on.
  lemma PaddedTail(m: seq<Byte>, pa: Byte, pb: Byte, k: nat, q: nat)
    requires |m| == BLOCK_BYTES * k + q && q < BLOCK_BYTES
    ensures |Padded(m, pa, pb)| == BLOCK_BYTES * k + if q <= 55 then BLOCK_BYTES else 2 * BLOCK_BYTES
    ensures Padded(m, pa, pb)[..BLOCK_BYTES * k] == m[..BLOCK_BYTES * k]
    ensures Padded(m, pa, pb)[BLOCK_BYTES * k..]
         == m[BLOCK_BYTES * k..] + Filler(q, pa, pb) + (Put32(High(8 * |m|)) + Put32(Low(8 * |m|)))
  {
    DivModUnique(|m|, BLOCK_BYTES, k, q);
  }

  // Chaining value after the whole blocks of the message, seen from the padded message.
  lemma ChainPadded(c: Compression, iv: Chain8, m: seq<Byte>, pa: Byte, pb: Byte)
    ensures BLOCK_BYTES * (|m| / BLOCK_BYTES) <= |Padded(m, pa, pb)|
    ensures Chain(c, iv, Padded(m, pa, pb), 8 * |m|, |m| / BLOCK_BYTES) == Chain(c, iv, m, 8 * |m|, |m| / BLOCK_BYTES)
  {
    hide Padded;
    var n := |m| / BLOCK_BYTES;
    PaddedTail(m, pa, pb, n, |m| % BLOCK_BYTES);
    ChainPrefix(c, iv, m, 8 * |m|, Padded(m, pa, pb), 8 * |m|, n);
  }

  // The bytes of p from block k on start with s.
  lemma BlockStarts(p: seq<Byte>, k: nat, s: seq<Byte>, rest: seq<Byte>)
    requires BLOCK_BYTES * k <= |p| && p[BLOCK_BYTES * k..] == s + rest
    ensures p[BLOCK_BYTES * k..BLOCK_BYTES * k + |s|] == s
  {
    assert p[BLOCK_BYTES * k..][..|s|] == s;
  }

  // 55 bytes buffered: one byte of padding.
  lemma PrimedOne(c: Compression, iv: Chain8, v: View, m: seq<Byte>, pa: Byte, pb: Byte)
    requires Holds(c, iv, v, m) && |m| % BLOCK_BYTES == 55
    ensures Primed(c, iv, Stored(Lowered(v, 8), 55, [pa]), Padded(m, pa, pb), 8 * |m|, |m| / BLOCK_BYTES)
  {
    hide Chain, Low, High, Padded, Counts, Put32;
    var p, n, w := Padded(m, pa, pb), |m| / BLOCK_BYTES, Stored(Lowered(v, 8), 55, [pa]);
    ChainPadded(c, iv, m, pa, pb);
    PaddedTail(m, pa, pb, n, 55);
    BlockStarts(p, n, m[BLOCK_BYTES * n..] + [pa], Put32(High(8 * |m|)) + Put32(Low(8 * |m|)));
    CountsMessage(w, n, 55, 64);
  }

  // Room for a one bit, the marker and the length: the padding goes into the same block.
  function PaddedShort(v: View, pb: Byte): View
    requires Sound(v) && v.buflen < 440
  {
    var q := v.buflen / 8;
    var w := Lowered(v.(nullt := v.nullt || q == 0), 440 - 8 * q);
    Lowered(Stored(Stored(w, q, PADDING[..55 - q]), 55, [pb]), 8)
  }

  lemma LowerTwice(v: View, d: nat, e: nat)
    requires d + e <= TWO32
    ensures Lowered(Lowered(v, d), e) == Lowered(v, d + e)
  {
  }

  lemma PrimedShort(c: Compression, iv: Chain8, v: View, m: seq<Byte>, pa: Byte, pb: Byte)
    requires Holds(c, iv, v, m) && |m| % BLOCK_BYTES < 55
    ensures Primed(c, iv, PaddedShort(v, pb), Padded(m, pa, pb), 8 * |m|, |m| / BLOCK_BYTES)
  {
    hide Chain, Low, High, Padded, Counts, Put32;
    var p, n, q, w := Padded(m, pa, pb), |m| / BLOCK_BYTES, |m| % BLOCK_BYTES, PaddedShort(v, pb);
    ChainPadded(c, iv, m, pa, pb);
    PaddedTail(m, pa, pb, n, q);
    var filler := Filler(q, pa, pb);
    BlockStarts(p, n, m[BLOCK_BYTES * n..] + filler, Put32(High(8 * |m|)) + Put32(Low(8 * |m|)));
    assert filler == PADDING[..55 - q] + [pb];
    assert w.buf[..56] == m[BLOCK_BYTES * n..] + filler;
    LowerTwice(v, 440 - 8 * q, 8);
    ShortCounts(w, v, n, q);
  }

  lemma ShortCounts(w: View, v: View, n: nat, q: nat)
    requires q < 55 && w.t0 == Lowered(v, 448 - 8 * q).t0 && w.t1 == v.t1 && w.nullt == (q == 0)
    requires v.t0 == Low(512 * n) && v.t1 == High(512 * n)
    ensures Counts(w, 64, Counter(n, 512 * n + 8 * q))
  {
    if q > 0 {
      CountsMessage(w, n, q, 64);
    }
  }

  // No room for the length: a block of message and padding, then one of padding alone.
  function LongFirst(c: Compression, v: View): View
    requires Sound(v) && v.buflen > 440
  {
    var w := Filled(Lowered(v, 512 - v.buflen), PADDING[..BLOCK_BYTES - v.buflen / 8]);
    Stored(Step(c, w, w.buf), 0, [])
  }

  function LongSecond(u: View, pb: Byte): View
    requires |u.buf| == BLOCK_BYTES
  {
    var w := Stored(Lowered(u, 440), 0, PADDING[1..56]);
    Lowered(Stored(w.(nullt := true), 55, [pb]), 8)
  }

  lemma LongFirstChain(c: Compression, iv: Chain8, v: View, m: seq<Byte>, pa: Byte, pb: Byte)
    requires Holds(c, iv, v, m) && |m| % BLOCK_BYTES > 55
    ensures BLOCK_BYTES * (|m| / BLOCK_BYTES + 1) <= |Padded(m, pa, pb)|
    ensures LongFirst(c, v).h == Chain(c, iv, Padded(m, pa, pb), 8 * |m|, |m| / BLOCK_BYTES + 1)
  {
    hide Low, High, Padded, Put32, Ticked;
    var p, n, q := Padded(m, pa, pb), |m| / BLOCK_BYTES, |m| % BLOCK_BYTES;
    var w := Filled(Lowered(v, 512 - v.buflen), PADDING[..BLOCK_BYTES - q]);
    ChainPadded(c, iv, m, pa, pb);
    PaddedTail(m, pa, pb, n, q);
    BlockStarts(p, n, m[BLOCK_BYTES * n..] + PADDING[..BLOCK_BYTES - q],
                Filler(q, pa, pb)[BLOCK_BYTES - q..] + Put32(High(8 * |m|)) + Put32(Low(8 * |m|)));
    CountsMessage(w, n, q, 0);
    TickFields(Lowered(w, 0), w);
  }

  // The second of two padding blocks: zeros, the marker and the length.
  lemma SecondPaddingBlock(m: seq<Byte>, pa: Byte, pb: Byte, n: nat, q: nat)
    requires |m| == BLOCK_BYTES * n + q && 55 < q < BLOCK_BYTES
    ensures |Padded(m, pa, pb)| == BLOCK_BYTES * (n + 1) + BLOCK_BYTES
    ensures Padded(m, pa, pb)[BLOCK_BYTES * (n + 1)..BLOCK_BYTES * (n + 1) + 56] == PADDING[1..56] + [pb]
  {
    hide Low, High, Padded, Put32, Filler;
    var p, filler := Padded(m, pa, pb), Filler(q, pa, pb);
    PaddedTail(m, pa, pb, n, q);
    FillerEnd(q, pa, pb);
    MiddleOf(m[BLOCK_BYTES * n..], filler, Put32(High(8 * |m|)) + Put32(Low(8 * |m|)));
    assert p[BLOCK_BYTES * (n + 1)..BLOCK_BYTES * (n + 1) + 56] == p[BLOCK_BYTES * n..][BLOCK_BYTES..120];
  }

  lemma FillerEnd(q: nat, pa: Byte, pb: Byte)
    requires 55 < q < BLOCK_BYTES
    ensures Filler(q, pa, pb)[BLOCK_BYTES - q..] == PADDING[1..56] + [pb]
  {
  }

  lemma MiddleOf(a: seq<Byte>, b: seq<Byte>, c: seq<Byte>)
    requires |a| <= BLOCK_BYTES && |a| + |b| == 120
    ensures (a + b + c)[BLOCK_BYTES..120] == b[BLOCK_BYTES - |a|..]
  {
  }

  lemma PrimedLong(c: Compression, iv: Chain8, v: View, m: seq<Byte>, pa: Byte, pb: Byte)
    requires Holds(c, iv, v, m) && |m| % BLOCK_BYTES > 55
    ensures Primed(c, iv, LongSecond(LongFirst(c, v), pb), Padded(m, pa, pb), 8 * |m|, |m| / BLOCK_BYTES + 1)
  {
    hide Chain, Padded, Step, LongFirst, LongSecond, Ticked;
    LongFirstChain(c, iv, v, m, pa, pb);
    LongFirstBuffer(c, v);
    SecondPaddingBlock(m, pa, pb, |m| / BLOCK_BYTES, |m| % BLOCK_BYTES);
    LongSecondBuffer(LongFirst(c, v), pb);
  }

  lemma LongFirstBuffer(c: Compression, v: View)
    requires Sound(v) && v.buflen > 440
    ensures |LongFirst(c, v).buf| == BLOCK_BYTES && LongFirst(c, v).buflen == 0
  {
    var w := Filled(Lowered(v, 512 - v.buflen), PADDING[..BLOCK_BYTES - v.buflen / 8]);
    StepKeeps(c, w, w.buf);
  }

  lemma LongSecondBuffer(u: View, pb: Byte)
    requires |u.buf| == BLOCK_BYTES
    ensures var w := LongSecond(u, pb);
            Sound(w) && w.buf[..56] == PADDING[1..56] + [pb] && w.buflen == 448 && w.nullt && w.h == u.h
  {
  }

  // ---------------------------------------------------------------- the hash state

  class State {
    var h: Chain8
    var t0: Word32
    var t1: Word32
    var nullt: bool
    var buflen: nat
    const buf: array<Byte>
    const compress: Compression

    // blake256_init and blake224_init, which differ in iv only.
    constructor (compress: Compression, iv: Chain8)
      ensures fresh(buf) && buf.Length == BLOCK_BYTES && this.compress == compress && Holds(compress, iv, Now(), [])
    {
      this.compress := compress;
      h, t0, t1, nullt, buflen := iv, 0, 0, false, 0;
      buf := new Byte[BLOCK_BYTES];
    }

    function Now(): View
      reads this, buf
    {
      View(h, t0, t1, nullt, buflen, buf[..])
    }

    method CopyIn(left: nat, src: seq<Byte>)
      requires left + |src| <= buf.Length
      modifies buf
      ensures buf[..] == old(buf[..left]) + src + old(buf[left + |src|..])
    {
      for i := 0 to |src|
        invariant forall j | 0 <= j < i :: buf[left + j] == src[j]
        invariant forall j | 0 <= j < left || left + i <= j < buf.Length :: buf[j] == old(buf[j])
      {
        buf[left + i] := src[i];
      }
    }

    method TickAndCompress(block: seq<Byte>)
      modifies this`h, this`t0, this`t1
      ensures Now() == Step(compress, old(Now()), block)
    {
      t0 := (t0 + 512) % TWO32;
      if t0 == 0 {
        t1 := (t1 + 1) % TWO32;
      }
      h := if nullt then compress(h, 0, 0, block) else compress(h, t0, t1, block);
    }

    // Whole blocks straight from the input.
    method CompressBlocks(data: seq<Byte>) returns (rest: seq<Byte>)
      modifies this`h, this`t0, this`t1
      ensures Now() == Bulk(compress, old(Now()), data) && rest == Rest(data)
    {
      hide Step, Rest;
      rest := data;
      while |rest| >= BLOCK_BYTES
        invariant Bulk(compress, Now(), rest) == Bulk(compress, old(Now()), data) && Rest(rest) == Rest(data)
        decreases |rest|
      {
        RestAfter(rest);
        TickAndCompress(rest[..BLOCK_BYTES]);
        rest := rest[BLOCK_BYTES..];
      }
      ShortData(compress, Now(), rest);
    }

    // The tail kept for later.
    method StoreTail(left: nat, tail: seq<Byte>)
      requires buf.Length == BLOCK_BYTES && left + |tail| <= BLOCK_BYTES
      modifies this`buflen, buf
      ensures Now() == Stored(old(Now()), left, tail)
    {
      ghost var v := Now();
      if |tail| > 0 {
        CopyIn(left, tail);
        buflen := 8 * (left + |tail|);
      } else {
        buflen := 0;
        assert v.buf[..left] + tail + v.buf[left + |tail|..] == v.buf;
      }
    }

    // The buffer completed from the input and compressed.
    method FillAndCompress(part: seq<Byte>)
      requires Sound(Now()) && buflen / 8 + |part| == BLOCK_BYTES
      modifies this`h, this`t0, this`t1, buf
      ensures var w := Filled(old(Now()), part); Now() == Step(compress, w, w.buf)
    {
      hide Step;
      ghost var v := Now();
      CopyIn(buflen / 8, part);
      assert Now() == Filled(v, part);
      TickAndCompress(buf[..]);
    }

    // blake256_update on whole bytes.
    method Update(data: seq<Byte>)
      requires Sound(Now()) && 8 * |data| < TWO64
      modifies this`h, this`t0, this`t1, this`buflen, buf
      ensures Now() == Updated(compress, old(Now()), data) && Sound(Now())
    {
      hide Step, Bulk, Rest, Stored, Filled;
      ghost var v := Now();
      var left := buflen / 8;
      var fill := BLOCK_BYTES - left;
      var rest := data;
      if left != 0 && |data| % BLOCK_BYTES >= fill {
        FillAndCompress(data[..fill]);
        rest := data[fill..];
        left := 0;
      }
      BulkKeeps(compress, Now(), rest);
      rest := CompressBlocks(rest);
      StoreTail(left, rest);
      UpdatedSound(compress, v, data);
    }

    // Padding that leaves the buffer one length field short of a block.
    method PadOne(pa: Byte)
      requires Sound(Now()) && buflen == 440
      modifies this`h, this`t0, this`t1, this`buflen, buf
      ensures Now() == Stored(Lowered(old(Now()), 8), 55, [pa])
    {
      hide Updated, Stored;
      t0 := (t0 + TWO32 - 8) % TWO32;
      Appended(compress, Now(), [pa]);
      Update([pa]);
    }

    method PadShort(pb: Byte)
      requires Sound(Now()) && buflen < 440
      modifies this`h, this`t0, this`t1, this`nullt, this`buflen, buf
      ensures Now() == PaddedShort(old(Now()), pb)
    {
      hide Updated, Stored;
      if buflen == 0 {
        nullt := true;
      }
      t0 := (t0 + TWO32 - (440 - buflen)) % TWO32;
      var zeros := PADDING[..(440 - buflen) / 8];
      StoredFields(Now(), buflen / 8, zeros);
      Append(zeros);
      Append([pb]);
      t0 := (t0 + TWO32 - 8) % TWO32;
    }

    method Append(data: seq<Byte>)
      requires Sound(Now()) && 0 < |data| < BLOCK_BYTES - buflen / 8
      modifies this`h, this`t0, this`t1, this`buflen, buf
      ensures Now() == Stored(old(Now()), old(buflen) / 8, data)
    {
      hide Updated, Stored;
      Appended(compress, Now(), data);
      Update(data);
    }

    method PadLongFirst()
      requires Sound(Now()) && buflen > 440
      modifies this`h, this`t0, this`t1, this`buflen, buf
      ensures Now() == LongFirst(compress, old(Now()))
    {
      hide Updated, Step, Stored;
      t0 := (t0 + TWO32 - (512 - buflen)) % TWO32;
      var zeros := PADDING[..(512 - buflen) / 8];
      Completed(compress, Now(), zeros);
      Update(zeros);
    }

    method PadLongSecond(pb: Byte)
      requires Sound(Now()) && buflen == 0
      modifies this`h, this`t0, this`t1, this`nullt, this`buflen, buf
      ensures Now() == LongSecond(old(Now()), pb)
    {
      hide Updated, Stored;
      t0 := (t0 + TWO32 - 440) % TWO32;
      StoredFields(Now(), 0, PADDING[1..56]);
      Append(PADDING[1..56]);
      nullt := true;
      Append([pb]);
      t0 := (t0 + TWO32 - 8) % TWO32;
    }

    // blake256_final_h.
    method FinalH(pa: Byte, pb: Byte, ghost iv: Chain8, ghost m: seq<Byte>) returns (digest: seq<Byte>)
      requires Holds(compress, iv, Now(), m)
      modifies this`h, this`t0, this`t1, this`nullt, this`buflen, buf
      ensures h == HashChain(compress, iv, m, pa, pb) && digest == Digest(h)
    {
      hide Chain, Low, High, Padded, Updated, PaddedShort, LongFirst, LongSecond, Counts, Stored, Put32, Digest;
      ghost var v, p, k := Now(), Padded(m, pa, pb), |m| / BLOCK_BYTES;
      var lo := (t0 + buflen) % TWO32;
      var hi := if lo < buflen then (t1 + 1) % TWO32 else t1;
      LengthWords(v, m, lo, hi);
      var msglen := Put32(hi) + Put32(lo);
      if buflen == 440 {
        PrimedOne(compress, iv, v, m, pa, pb);
        PadOne(pa);
      } else if buflen < 440 {
        PrimedShort(compress, iv, v, m, pa, pb);
        PadShort(pb);
      } else {
        PrimedLong(compress, iv, v, m, pa, pb);
        LongFirstBuffer(compress, v);
        PadLongFirst();
        PadLongSecond(pb);
        k := k + 1;
      }
      PaddedEnd(m, pa, pb, k);
      LengthBlock(compress, iv, Now(), p, 8 * |m|, k, msglen);
      t0 := (t0 + TWO32 - 64) % TWO32;
      Update(msglen);
      digest := Digest(h);
    }
  }

  lemma StoredFields(v: View, left: nat, tail: seq<Byte>)
    requires |v.buf| == BLOCK_BYTES && 0 < |tail| && left + |tail| <= BLOCK_BYTES
    ensures var w := Stored(v, left, tail); |w.buf| == BLOCK_BYTES && w.buflen == 8 * (left + |tail|)
  {
  }

  lemma LengthWords(v: View, m: seq<Byte>, lo: nat, hi: nat)
    requires v.t0 == Low(512 * (|m| / BLOCK_BYTES)) && v.t1 == High(512 * (|m| / BLOCK_BYTES))
    requires v.buflen == 8 * (|m| % BLOCK_BYTES)
    requires lo == (v.t0 + v.buflen) % TWO32 && hi == if lo < v.buflen then (v.t1 + 1) % TWO32 else v.t1
    ensures lo == Low(8 * |m|) && hi == High(8 * |m|)
  {
    var n, q := |m| / BLOCK_BYTES, |m| % BLOCK_BYTES;
    if q > 0 {
      MessageCount(n, q);
    }
    assert 8 * |m| == 512 * n + 8 * q;
  }

  // The padded message ends with the length, in its last block.
  lemma PaddedEnd(m: seq<Byte>, pa: Byte, pb: Byte, k: nat)
    requires k + 1 == PaddedBlocks(|m|)
    ensures |Padded(m, pa, pb)| == BLOCK_BYTES * (k + 1)
    ensures Padded(m, pa, pb)[BLOCK_BYTES * k + 56..] == Put32(High(8 * |m|)) + Put32(Low(8 * |m|))
  {
    PaddedLength(m, pa, pb);
  }

  const IV256: Chain8 := [
    0x6A09E667, 0xBB67AE85, 0x3C6EF372, 0xA54FF53A,
    0x510E527F, 0x9B05688C, 0x1F83D9AB, 0x5BE0CD19
  ]
  const IV224: Chain8 := [
    0xC1059ED8, 0x367CD507, 0x3070DD17, 0xF70E5939,
    0xFFC00B31, 0x68581511, 0x64F98FA7, 0xBEFA4FA4
  ]

  // ---------------------------------------------------------------- the initial values

  // x is the square root of p on the given scale, rounded down.
  predicate IsRoot(p: nat, scale: nat, x: nat) {
    x * x <= p * scale * scale < (x + 1) * (x + 1)
  }

  const PRIMES: seq<nat> := [2, 3, 5, 7, 11, 13, 17, 19, 23, 29, 31, 37, 41, 43, 47, 53]

  // Some whole number and w are the root of p to 32 binary places.
  ghost predicate FirstPlaces(p: nat, w: Word32) {
    exists whole: nat :: IsRoot(p, TWO32, whole * TWO32 + w)
  }

  // Of the root of p to 64 binary places, w is the lower half.
  ghost predicate NextPlaces(p: nat, w: Word32) {
    exists whole: nat :: IsRoot(p, TWO64, whole * TWO32 + w)
  }

  // The first 32 bits of the fractional parts of the square roots of the first eight primes, and
  // the second 32 bits of those of the next eight.
  lemma InitialValues(i: nat)
    requires i < 8
    ensures FirstPlaces(PRIMES[i], IV256[i]) && NextPlaces(PRIMES[i + 8], IV224[i])
  {
    InitialValues256(i);
    InitialValues224(i);
  }

  lemma InitialValues256(i: nat)
    requires i < 8
    ensures FirstPlaces(PRIMES[i], IV256[i])
  {
    if i == 0 {
      assert IsRoot(2, TWO32, 1 * TWO32 + 0x6A09E667);
    } else if i == 1 {
      assert IsRoot(3, TWO32, 1 * TWO32 + 0xBB67AE85);
    } else if i == 2 {
      assert IsRoot(5, TWO32, 2 * TWO32 + 0x3C6EF372);
    } else if i == 3 {
      assert IsRoot(7, TWO32, 2 * TWO32 + 0xA54FF53A);
    } else if i == 4 {
      assert IsRoot(11, TWO32, 3 * TWO32 + 0x510E527F);
    } else if i == 5 {
      assert IsRoot(13, TWO32, 3 * TWO32 + 0x9B05688C);
    } else if i == 6 {
      assert IsRoot(17, TWO32, 4 * TWO32 + 0x1F83D9AB);
    } else {
      assert IsRoot(19, TWO32, 4 * TWO32 + 0x5BE0CD19);
    }
  }

  lemma InitialValues224(i: nat)
    requires i < 8
    ensures NextPlaces(PRIMES[i + 8], IV224[i])
  {
    if i == 0 {
      assert IsRoot(23, TWO64, 0x4CBBB9D5D * TWO32 + 0xC1059ED8);
    } else if i == 1 {
      assert IsRoot(29, TWO64, 0x5629A292A * TWO32 + 0x367CD507);
    } else if i == 2 {
      assert IsRoot(31, TWO64, 0x59159015A * TWO32 + 0x3070DD17);
    } else if i == 3 {
      assert IsRoot(37, TWO64, 0x6152FECD8 * TWO32 + 0xF70E5939);
    } else if i == 4 {
      assert IsRoot(41, TWO64, 0x667332667 * TWO32 + 0xFFC00B31);
    } else if i == 5 {
      assert IsRoot(43, TWO64, 0x68EB44A87 * TWO32 + 0x68581511);
    } else if i == 6 {
      assert IsRoot(47, TWO64, 0x6DB0C2E0D * TWO32 + 0x64F98FA7);
    } else {
      assert IsRoot(53, TWO64, 0x747B5481D * TWO32 + 0xBEFA4FA4);
    }
  }

  // Word k of the chaining value is spelt by four bytes of the digest.
  lemma DigestWords(h: Chain8, k: nat)
    requires k < 8
    ensures Number(Bits(Digest(h)[4 * k..4 * k + 4])) == h[k]
  {
    hide Bits, Number, Put32;
    var w := Put32(h[k]);
    assert Digest(h)[4 * k..4 * k + 4] == w == [] + w;
    NumberOfWord([], h[k]);
    NoBits();
  }

  // ---------------------------------------------------------------- the one-shot hash

  // The one-shot hash: init, one update with the whole input, final.
  method Hash(compress: Compression, iv: Chain8, pa: Byte, pb: Byte, input: seq<Byte>) returns (digest: seq<Byte>)
    requires 8 * |input| < TWO64
    ensures digest == Digest(HashChain(compress, iv, input, pa, pb))
  {
    hide Chain, Updated, HashChain, Digest;
    var state := new State(compress, iv);
    ghost var v := state.Now();
    UpdateStreams(compress, iv, v, [], input);
    assert [] + input == input;
    state.Update(input);
    digest := state.FinalH(pa, pb, iv, input);
  }

  // blake256_hash
  method Hash256(compress: Compression, input: seq<Byte>) returns (digest: seq<Byte>)
    requires 8 * |input| < TWO64
    ensures digest == Digest(HashChain(compress, IV256, input, 0x81, 0x01))
  {
    digest := Hash(compress, IV256, 0x81, 0x01, input);
  }

  // blake224_hash
  method Hash224(compress: Compression, input: seq<Byte>) returns (digest: seq<Byte>)
    requires 8 * |input| < TWO64
    ensures digest == Digest(HashChain(compress, IV224, input, 0x80, 0x00))
  {
    digest := Hash(compress, IV224, 0x80, 0x00, input);
  }
}
