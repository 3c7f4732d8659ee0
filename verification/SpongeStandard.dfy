// The sponge on bit strings, as sections 4 and 5.1 of FIPS 202 define it, and a proof that the hash on
// bytes and words is the same.
module SpongeStandard {
  import opened Words
  import opened Collections
  import opened Bytes
  import opened Sponge
  import opened WordBits
  import Keccak
  import OnBits = KeccakStandard

  // S xored with P followed by zeros.
  function XorBits(s: OnBits.Bits, p: seq<bool>): OnBits.Bits
    requires |p| <= 1600
  {
    var r: seq<bool> := seq(1600, i requires 0 <= i < 1600 => if i < |p| then s[i] != p[i] else s[i]);
    r
  }

  // Algorithm 8: the string taken in, r bits at a time.
  function Absorbed(s: OnBits.Bits, p: seq<bool>, r: nat): OnBits.Bits
    requires 0 < r <= 1600
    decreases |p|
  {
    if |p| < r then s else Absorbed(OnBits.RoundsOnBits(XorBits(s, p[..r]), 24), p[r..], r)
  }

  // Algorithm 9: what completes a string of m bits to a multiple of x, with -m - 2 modulo x zeros.
  function Pad(x: nat, m: nat): seq<bool>
    requires x > 0
  {
    [true] + Copies(x - 1 - (m + 1) % x, false) + [true]
  }

  // ---------------------------------------------------------------- bytes as bits

  lemma BytePlace(i: nat)
    ensures i / 8 / 8 == i / 64 && 8 * (i / 8 % 8) + i % 8 == i % 64 && i / 8 == 8 * (i / 64) + i % 64 / 8
    ensures i % 64 % 8 == i % 8 && i % 64 == 8 * (i % 64 / 8) + i % 8 && i % 64 / 8 == i / 8 % 8
  {
    var q, k, j := i / 8 / 8, i / 8 % 8, i % 8;
    DivModUnique(i, 64, q, 8 * k + j);
    DivModUnique(8 * k + j, 8, k, j);
  }

  lemma LaneBit(a: Keccak.Lanes, i: nat)
    requires i < 1600
    ensures OnBits.StateBits(a)[i] == Bit(a[i / 64], i % 64)
  {
    hide Bit, OnBits.StateBits;
    OnBits.Places(i);
    OnBits.StateBit(a, i / 64 % 5, i / 320, i % 64);
    OnBits.Place(i / 64 % 5, i / 320, i % 64);
  }

  lemma ByteOfState(a: Keccak.Lanes, n: nat, q: nat, k: nat)
    requires n < STATE_BYTES && q == n / 8 && k == n % 8
    ensures StateBytes(a)[n] == ByteAt(a[q], k)
  {
    hide ByteAt;
  }

  lemma ByteOfLaneBit(a: Keccak.Lanes, i: nat)
    requires i < 1600
    ensures Bits(StateBytes(a))[i] == Bit(a[i / 64], i % 64)
  {
    hide Bit, BitOfByte, ByteAt, StateBytes;
    var n, k := i / 8, i / 8 % 8;
    BytePlace(i);
    ByteOfState(a, n, i / 64, k);
    ByteBit(a[i / 64], k, i % 8);
  }

  // The bits of the standard are those of the bytes of the state.
  lemma StateBitsAreBytes(a: Keccak.Lanes)
    ensures OnBits.StateBits(a) == Bits(StateBytes(a))
  {
    hide Bit, Bits, StateBytes, OnBits.StateBits;
    forall i: nat | i < 1600
      ensures OnBits.StateBits(a)[i] == Bits(StateBytes(a))[i]
    {
      LaneBit(a, i);
      ByteOfLaneBit(a, i);
    }
  }

  lemma BlockBit(block: seq<u8>, i: nat)
    requires |block| % 8 == 0 && i < 8 * |block|
    ensures 8 * (i / 64) + 8 <= |block| && Bit(Word(block[8 * (i / 64)..8 * (i / 64) + 8]), i % 64) == Bits(block)[i]
  {
    hide Bit, BitOfByte, Word, Bits;
    var q, k, j := i / 64, i % 64 / 8, i % 8;
    BytePlace(i);
    BitsAt(block, i, 8 * q + k, j);
    WordBit(block[8 * q..8 * q + 8], k, j);
  }

  lemma BitsAt(s: seq<u8>, i: nat, n: nat, j: nat)
    requires i < 8 * |s| && n == i / 8 && j == i % 8
    ensures Bits(s)[i] == BitOfByte(s[n], j)
  {
    hide BitOfByte;
  }

  lemma XorBlockOnBits(a: Keccak.Lanes, block: seq<u8>)
    requires |block| % 8 == 0 && |block| <= STATE_BYTES
    ensures OnBits.StateBits(XorBlock(a, block)) == XorBits(OnBits.StateBits(a), Bits(block))
  {
    hide Bit, Bits, Word, WordBits.Xor, OnBits.StateBits;
    forall i: nat | i < 1600
      ensures OnBits.StateBits(XorBlock(a, block))[i] == XorBits(OnBits.StateBits(a), Bits(block))[i]
    {
      LaneBit(XorBlock(a, block), i);
      LaneBit(a, i);
      if i < 8 * |block| {
        BlockBit(block, i);
        OpBits(a[i / 64], Word(block[8 * (i / 64)..8 * (i / 64) + 8]), i % 64);
      }
    }
  }

  // ---------------------------------------------------------------- the hash

  lemma {:induction false} AbsorbOnBits(a: Keccak.Lanes, p: seq<u8>, r: nat)
    requires RateFits(r)
    ensures OnBits.StateBits(Absorb(a, p, r)) == Absorbed(OnBits.StateBits(a), Bits(p), 8 * r)
    decreases |p|
  {
    hide Bits, OnBits.StateBits, XorBlock, XorBits, Keccak.Rounds, OnBits.RoundsOnBits;
    if |p| >= r {
      var b := XorBlock(a, p[..r]);
      XorBlockOnBits(a, p[..r]);
      OnBits.RoundsAreStandard(b, 24);
      AbsorbOnBits(Keccak.Rounds(b, 24), p[r..], r);
      assert p == p[..r] + p[r..];
      BitsOfPieces(p[..r], p[r..]);
      assert Bits(p)[..8 * r] == Bits(p[..r]) && Bits(p)[8 * r..] == Bits(p[r..]);
    }
  }

  lemma PaddingIsStandard(m: seq<u8>, r: nat)
    requires r > 0
    ensures Bits(Padded(m, r)) == Bits(m) + Pad(8 * r, 8 * |m|)
  {
    hide Bits, Padding;
    var q := |m| % r;
    BitsOfPieces(m, Padding(q, r));
    PaddingBits(q, r);
    assert r * (|m| / r) == |m| - q;
    assert (8 * r) * (|m| / r) == 8 * (r * (|m| / r));
    DivModUnique(8 * |m| + 1, 8 * r, |m| / r, 8 * q + 1);
  }

  // The digest of a message on bits: the start of what the sponge holds after the padded message. The
  // capacity is twice the length of the digest, and 512 bits if the whole state is wanted.
  lemma SpongeIsStandard(m: seq<u8>, mdlen: nat)
    requires RateFits(Rate(mdlen))
    ensures 8 * Rate(mdlen) == if mdlen == 200 then 1088 else 1600 - 2 * (8 * mdlen)
    ensures var r := Rate(mdlen);
            Bits(StateBytes(SpongeState(m, r)))
            == Absorbed(Copies(1600, false), Bits(m) + Pad(8 * r, 8 * |m|), 8 * r)
  {
    hide Bits, Padded, Absorb, Absorbed, StateBytes, OnBits.StateBits;
    var r := Rate(mdlen);
    AbsorbOnBits(EmptyState(), Padded(m, r), r);
    StateBitsAreBytes(SpongeState(m, r));
    PaddingIsStandard(m, r);
    EmptyBits();
  }

  lemma EmptyBits()
    ensures OnBits.StateBits(EmptyState()) == Copies(1600, false)
  {
    hide Bit, OnBits.StateBits;
    forall i: nat | i < 1600
      ensures !OnBits.StateBits(EmptyState())[i]
    {
      LaneBit(EmptyState(), i);
      OnBits.ZeroBit(i % 64);
    }
  }
}
