// The sponge over Keccak-f[1600]: whole blocks are absorbed straight from the input, the last
// one from a padded copy.
module Sponge {
  import opened Words
  import opened Collections
  import opened Bytes
  import opened Keccak
  import WordBits

  const STATE_BYTES := 200
  const TEMP_BYTES := 144

  // ---------------------------------------------------------------- bytes and bits

  // Byte i of the state, its lanes laid out least significant byte first.
  function StateByte(a: Lanes, i: nat): u8
    requires i < STATE_BYTES
  {
    ByteAt(a[i / 8], i % 8)
  }

  function StateBytes(a: Lanes): (b: seq<u8>)
    ensures |b| == STATE_BYTES
  {
    seq(STATE_BYTES, i requires 0 <= i < STATE_BYTES => StateByte(a, i))
  }

  // The bits of a byte string, least significant bit of each byte first.
  function Bits(s: seq<u8>): (r: seq<bool>)
    ensures |r| == 8 * |s|
  {
    seq(8 * |s|, i requires 0 <= i < 8 * |s| => BitOfByte(s[i / 8], i % 8))
  }

  // Reading the bytes of a state as words gives its lanes: what a caller that asks for the whole
  // state reads back.
  lemma LanesFromBytes(a: Lanes, i: nat)
    requires i < 25
    ensures Word(StateBytes(a)[8 * i..8 * i + 8]) == a[i]
  {
    hide ByteAt, Word;
    var b, c := StateBytes(a)[8 * i..8 * i + 8], WordBytes(a[i]);
    forall k | 0 <= k < 8
      ensures b[k] == c[k]
    {
      assert b[k] == StateBytes(a)[8 * i + k] == StateByte(a, 8 * i + k);
      DivModUnique(8 * i + k, 8, i, k);
      assert c[k] == ByteAt(a[i], k);
    }
    assert b == c;
    BytesRoundTrip(a[i]);
  }

  // ---------------------------------------------------------------- the specification

  // The rate in bytes: 136 when the whole state is wanted, else 200 - 2 * mdlen.
  function Rate(mdlen: nat): int {
    if mdlen == STATE_BYTES then 136 else 200 - 2 * mdlen
  }

  // A whole number of words that fits the padding buffer.
  predicate RateFits(r: int) {
    8 <= r <= TEMP_BYTES && r % 8 == 0
  }

  // The bytes that complete a tail of q < r bytes to a block.
  function Padding(q: nat, r: nat): (p: seq<u8>)
    requires q < r
    ensures |p| == r - q
  {
    if q == r - 1 then [0x81] else [0x01] + Copies<u8>(r - q - 2, 0) + [0x80]
  }

  function Padded(m: seq<u8>, r: nat): (p: seq<u8>)
    requires r > 0
    ensures |p| == |m| - |m| % r + r
  {
    m + Padding(|m| % r, r)
  }

  function XorBlock(a: Lanes, block: seq<u8>): Lanes
    requires |block| % 8 == 0 && |block| <= STATE_BYTES
  {
    var s: seq<u64> := seq(25, i requires 0 <= i < 25 =>
      if i < |block| / 8 then WordBits.Xor(a[i], Word(block[8 * i..8 * i + 8])) else a[i]);
    s
  }

  function EmptyState(): Lanes {
    var s: seq<u64> := seq(25, _ => 0);
    s
  }

  // Fold over the blocks of p from state a: xor the block in, then permute.
  function Absorb(a: Lanes, p: seq<u8>, r: nat): Lanes
    requires RateFits(r)
    decreases |p|
  {
    if |p| < r then a else Absorb(Rounds(XorBlock(a, p[..r]), 24), p[r..], r)
  }

  // The state for message m at rate r.
  function SpongeState(m: seq<u8>, r: nat): Lanes
    requires RateFits(r)
  {
    Absorb(EmptyState(), Padded(m, r), r)
  }

  // ---------------------------------------------------------------- the padding is pad10*1

  lemma BitsOfPieces(s: seq<u8>, t: seq<u8>)
    ensures Bits(s + t) == Bits(s) + Bits(t)
  {
    forall i | 0 <= i < 8 * |s + t|
      ensures Bits(s + t)[i] == (Bits(s) + Bits(t))[i]
    {
      if i >= 8 * |s| {
        assert i / 8 == (i - 8 * |s|) / 8 + |s| && i % 8 == (i - 8 * |s|) % 8;
      }
    }
  }

  lemma BitsOfByte(b: u8)
    ensures Bits([b]) == [BitOfByte(b, 0), BitOfByte(b, 1), BitOfByte(b, 2), BitOfByte(b, 3),
                          BitOfByte(b, 4), BitOfByte(b, 5), BitOfByte(b, 6), BitOfByte(b, 7)]
  {
    forall i | 0 <= i < 8
      ensures Bits([b])[i] == BitOfByte(b, i)
    {
      assert i / 8 == 0 && i % 8 == i;
    }
  }

  lemma BitsOfZeros(n: nat)
    ensures Bits(Copies<u8>(n, 0)) == Copies(8 * n, false)
  {
    forall i | 0 <= i < 8 * n
      ensures !Bits(Copies<u8>(n, 0))[i]
    {
      NoBits(i % 8);
    }
  }

  lemma NoBits(k: nat)
    requires k < 8
    ensures !BitOfByte(0, k)
  {
  }

  lemma MarkBits()
    ensures Bits([0x01]) == [true] + Copies(7, false)
    ensures Bits([0x80]) == Copies(7, false) + [true]
    ensures Bits([0x81]) == [true] + Copies(6, false) + [true]
  {
    BitsOfByte(0x01);
    BitsOfByte(0x80);
    BitsOfByte(0x81);
  }

  lemma PaddingBits(q: nat, r: nat)
    requires q < r
    ensures Bits(Padding(q, r)) == [true] + Copies(8 * (r - q) - 2, false) + [true]
  {
    hide Bits;
    MarkBits();
    if q < r - 1 {
      BitsOfPieces([0x01] + Copies<u8>(r - q - 2, 0), [0x80]);
      BitsOfPieces([0x01], Copies<u8>(r - q - 2, 0));
      BitsOfZeros(r - q - 2);
    }
  }

  // As bits, the padding is a one, the fewest zeros that complete a block, and a one; there is
  // no domain suffix before it.
  lemma PaddingIsTenStarOne(m: seq<u8>, r: nat)
    requires r > 0
    ensures exists zeros: nat :: zeros < 8 * r && Bits(Padded(m, r)) == Bits(m) + [true] + Copies(zeros, false) + [true]
    ensures |Padded(m, r)| % r == 0
  {
    hide Bits, Padding, Padded;
    var q := |m| % r;
    PaddedIs(m, r, q);
    BitsOfPieces(m, Padding(q, r));
    PaddingBits(q, r);
    ThreePieces(Bits(m), Copies(8 * (r - q) - 2, false));
  }

  lemma PaddedIs(m: seq<u8>, r: nat, q: nat)
    requires r > 0 && q == |m| % r
    ensures q < r && Padded(m, r) == m + Padding(q, r) && |Padded(m, r)| % r == 0
  {
    hide Padding;
    MultipleMod(r, |m| / r + 1);
  }

  lemma ThreePieces(a: seq<bool>, z: seq<bool>)
    ensures a + ([true] + z + [true]) == a + [true] + z + [true]
  {
  }

  // ---------------------------------------------------------------- keccak

  method XorIn(st: array<u64>, block: seq<u8>)
    requires st.Length == 25 && |block| % 8 == 0 && |block| <= STATE_BYTES
    modifies st
    ensures st[..] == XorBlock(old(st[..]), block)
  {
    hide Word, WordBits.Xor;
    for i := 0 to |block| / 8
      invariant forall j | i <= j < 25 :: st[j] == old(st[j])
      invariant forall j | 0 <= j < i :: st[j] == XorBlock(old(st[..]), block)[j]
    {
      st[i] := WordBits.Xor(st[i], Word(block[8 * i..8 * i + 8]));
    }
  }

  // The tail copied, a one byte, zeros, and the top bit of the last byte.
  method PadTail(temp: array<u8>, tail: seq<u8>, rsiz: nat)
    requires temp.Length == TEMP_BYTES && |tail| < rsiz && RateFits(rsiz)
    modifies temp
    ensures temp[..rsiz] == tail + Padding(|tail|, rsiz)
  {
    for i := 0 to |tail|
      invariant temp[..i] == tail[..i]
    {
      temp[i] := tail[i];
    }
    var inlen := |tail|;
    temp[inlen] := 1;
    inlen := inlen + 1;
    for i := inlen to rsiz
      invariant temp[..inlen] == tail + [1]
      invariant forall j | inlen <= j < i :: temp[j] == 0
    {
      temp[i] := 0;
    }
    ghost var before := temp[..rsiz];
    assert before == tail + [1] + Copies<u8>(rsiz - inlen, 0);
    temp[rsiz - 1] := temp[rsiz - 1] | 0x80;
    assert temp[..rsiz] == before[rsiz - 1 := before[rsiz - 1] | 0x80];
    LastBit(tail, rsiz);
  }

  // Setting the top bit of the last byte completes the padding, also when it is the one byte.
  lemma LastBit(tail: seq<u8>, r: nat)
    requires |tail| < r
    ensures var s := tail + [1] + Copies<u8>(r - |tail| - 1, 0);
            s[r - 1 := s[r - 1] | 0x80] == tail + Padding(|tail|, r)
  {
    assert (0 as u8) | 0x80 == 0x80 && (1 as u8) | 0x80 == 0x81;
    if |tail| == r - 1 {
      assert (tail + [1] + Copies<u8>(0, 0))[r - 1] == 1;
    }
  }

  // One block absorbed.
  method AbsorbBlock(st: array<u64>, block: seq<u8>)
    requires st.Length == 25 && RateFits(|block|)
    modifies st
    ensures st[..] == Rounds(XorBlock(old(st[..]), block), 24)
  {
    hide Rounds, XorBlock;
    XorIn(st, block);
    Keccakf(st, 24);
  }

  // Taking a block off the message takes it off the padded message.
  lemma PaddedBlock(m: seq<u8>, r: nat)
    requires 0 < r <= |m|
    ensures Padded(m, r)[..r] == m[..r] && Padded(m, r)[r..] == Padded(m[r..], r)
  {
    DivModUnique(|m|, r, |m[r..]| / r + 1, |m[r..]| % r);
  }

  lemma PaddedTail(m: seq<u8>, r: nat)
    requires |m| < r
    ensures Padded(m, r) == m + Padding(|m|, r)
  {
    DivModUnique(|m|, r, 0, |m|);
  }

  lemma AbsorbStep(a: Lanes, p: seq<u8>, r: nat)
    requires RateFits(r) && r <= |p|
    ensures Absorb(a, p, r) == Absorb(Rounds(XorBlock(a, p[..r]), 24), p[r..], r)
  {
  }

  lemma AbsorbLast(a: Lanes, p: seq<u8>, r: nat)
    requires RateFits(r) && r == |p|
    ensures Absorb(a, p, r) == Rounds(XorBlock(a, p), 24)
  {
    hide Rounds, XorBlock;
    assert p[..r] == p;
  }

  // The state after the whole padded input.
  method Run(st: array<u64>, input: seq<u8>, rsiz: nat)
    requires st.Length == 25 && RateFits(rsiz) && st[..] == EmptyState()
    modifies st
    ensures st[..] == SpongeState(input, rsiz)
  {
    hide Rounds, XorBlock, Padded, Padding, Absorb;
    var rest := input;
    while |rest| >= rsiz
      invariant Absorb(st[..], Padded(rest, rsiz), rsiz) == SpongeState(input, rsiz)
      decreases |rest|
    {
      PaddedBlock(rest, rsiz);
      AbsorbStep(st[..], Padded(rest, rsiz), rsiz);
      AbsorbBlock(st, rest[..rsiz]);
      rest := rest[rsiz..];
    }
    var temp := new u8[TEMP_BYTES];
    PadTail(temp, rest, rsiz);
    PaddedTail(rest, rsiz);
    AbsorbLast(st[..], Padded(rest, rsiz), rsiz);
    AbsorbBlock(st, temp[..rsiz]);
  }

  // The first bytes of the state.
  method CopyOut(st: array<u64>, md: array<u8>, mdlen: nat)
    requires st.Length == 25 && st as object != md && mdlen <= md.Length && mdlen <= STATE_BYTES
    modifies md
    ensures md[..mdlen] == StateBytes(st[..])[..mdlen]
    ensures forall i | mdlen <= i < md.Length :: md[i] == old(md[i])
  {
    hide StateByte;
    ghost var final: Lanes := st[..];
    for i := 0 to mdlen
      invariant st[..] == final
      invariant forall j | 0 <= j < i :: md[j] == StateByte(final, j)
      invariant forall j | mdlen <= j < md.Length :: md[j] == old(md[j])
    {
      md[i] := StateByte(st[..], i);
    }
  }

  // keccak: the first mdlen bytes of md become the start of the sponge state.
  method Hash(input: seq<u8>, md: array<u8>, mdlen: nat)
    requires RateFits(Rate(mdlen)) && mdlen <= md.Length
    modifies md
    ensures md[..mdlen] == StateBytes(SpongeState(input, Rate(mdlen)))[..mdlen]
    ensures forall i | mdlen <= i < md.Length :: md[i] == old(md[i])
  {
    hide SpongeState, StateBytes;
    var st := new u64[25](_ => 0);
    assert st[..] == EmptyState();
    Run(st, input, Rate(mdlen));
    CopyOut(st, md, mdlen);
  }
}
