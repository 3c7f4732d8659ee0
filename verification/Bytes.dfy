// Little-endian 64-bit words as strings of eight bytes, and both as strings of bits.
module Bytes {
  import opened Words
  import opened WordBits

  function Pack(b0: u8, b1: u8, b2: u8, b3: u8, b4: u8, b5: u8, b6: u8, b7: u8): u64 {
    b0 as u64 | (b1 as u64 << 8) | (b2 as u64 << 16) | (b3 as u64 << 24)
    | (b4 as u64 << 32) | (b5 as u64 << 40) | (b6 as u64 << 48) | (b7 as u64 << 56)
  }

  function Word(b: seq<u8>): u64
    requires |b| == 8
  {
    Pack(b[0], b[1], b[2], b[3], b[4], b[5], b[6], b[7])
  }

  // The word without its lowest k bytes.
  function Above(w: u64, k: nat): u64
    requires k < 8
  {
    if k == 0 then w else if k == 1 then w >> 8 else if k == 2 then w >> 16 else if k == 3 then w >> 24
    else if k == 4 then w >> 32 else if k == 5 then w >> 40 else if k == 6 then w >> 48 else w >> 56
  }

  function ByteAt(w: u64, k: nat): u8
    requires k < 8
  {
    (Above(w, k) & 0xFF) as u8
  }

  function WordBytes(w: u64): (b: seq<u8>)
    ensures |b| == 8
  {
    [ByteAt(w, 0), ByteAt(w, 1), ByteAt(w, 2), ByteAt(w, 3), ByteAt(w, 4), ByteAt(w, 5), ByteAt(w, 6), ByteAt(w, 7)]
  }

  lemma PackedLow(b0: u8, b1: u8, b2: u8, b3: u8, b4: u8, b5: u8, b6: u8, b7: u8)
    ensures var w := Pack(b0, b1, b2, b3, b4, b5, b6, b7);
            ByteAt(w, 0) == b0 && ByteAt(w, 1) == b1 && ByteAt(w, 2) == b2 && ByteAt(w, 3) == b3
  {
  }

  lemma PackedHigh(b0: u8, b1: u8, b2: u8, b3: u8, b4: u8, b5: u8, b6: u8, b7: u8)
    ensures var w := Pack(b0, b1, b2, b3, b4, b5, b6, b7);
            ByteAt(w, 4) == b4 && ByteAt(w, 5) == b5 && ByteAt(w, 6) == b6 && ByteAt(w, 7) == b7
  {
  }

  lemma PackedBytes(b0: u8, b1: u8, b2: u8, b3: u8, b4: u8, b5: u8, b6: u8, b7: u8)
    ensures WordBytes(Pack(b0, b1, b2, b3, b4, b5, b6, b7)) == [b0, b1, b2, b3, b4, b5, b6, b7]
  {
    hide Pack, ByteAt;
    PackedLow(b0, b1, b2, b3, b4, b5, b6, b7);
    PackedHigh(b0, b1, b2, b3, b4, b5, b6, b7);
  }

  // Reading a word and laying it out again are inverse.
  lemma WordRoundTrip(b: seq<u8>)
    requires |b| == 8
    ensures WordBytes(Word(b)) == b
  {
    hide Pack, ByteAt;
    PackedBytes(b[0], b[1], b[2], b[3], b[4], b[5], b[6], b[7]);
  }

  lemma LowByte(w: u64)
    ensures (w & 0xFF) as u8 as u64 == w & 0xFF
  {
  }

  lemma BytesAssemble(w: u64)
    ensures (w & 0xFF) | (((w >> 8) & 0xFF) << 8) | (((w >> 16) & 0xFF) << 16) | (((w >> 24) & 0xFF) << 24)
            | (((w >> 32) & 0xFF) << 32) | (((w >> 40) & 0xFF) << 40) | (((w >> 48) & 0xFF) << 48)
            | (((w >> 56) & 0xFF) << 56) == w
  {
  }

  // And so are laying a word out and reading it back.
  lemma BytesRoundTrip(w: u64)
    ensures Word(WordBytes(w)) == w
  {
    LowByte(w);
    LowByte(w >> 8);
    LowByte(w >> 16);
    LowByte(w >> 24);
    LowByte(w >> 32);
    LowByte(w >> 40);
    LowByte(w >> 48);
    LowByte(w >> 56);
    BytesAssemble(w);
  }

  // ---------------------------------------------------------------- bits

  // Bit k of a byte, the least significant first.
  predicate BitOfByte(b: u8, k: nat)
    requires k < 8
  {
    var mask: u8 :=
      if k == 0 then 0x01 else if k == 1 then 0x02 else if k == 2 then 0x04 else if k == 3 then 0x08
      else if k == 4 then 0x10 else if k == 5 then 0x20 else if k == 6 then 0x40 else 0x80;
    b & mask != 0
  }

  lemma ShiftsMeet(w: u64)
    ensures Shift8(Shift16(w)) == w >> 24 && Shift8(Shift32(w)) == w >> 40 && Shift16(Shift32(w)) == w >> 48
    ensures Shift8(Shift16(Shift32(w))) == w >> 56
  {
  }

  lemma AboveHalves(w: u64, k: nat)
    requires k < 8
    ensures Halves(w, 8 * k) == Above(w, k)
  {
    hide Halves;
    ShiftsMeet(w);
    NoHalves(w);
    EightHalves(w);
    SixteenHalves(w);
    HalvesAdd(w, 16, 8);
    EightHalves(Shift16(w));
    ThirtyTwoHalves(w);
    HalvesAdd(w, 32, 8);
    EightHalves(Shift32(w));
    HalvesAdd(w, 32, 16);
    SixteenHalves(Shift32(w));
    HalvesAdd(w, 48, 8);
    EightHalves(Shift16(Shift32(w)));
  }

  lemma LowestBit(w: u64)
    ensures BitOfByte((w & 0xFF) as u8, 0) == Odd(w)
  {
  }

  lemma LowByteHalf(w: u64, j: nat)
    requires 0 < j < 8
    ensures BitOfByte((w & 0xFF) as u8, j) == BitOfByte((Half(w) & 0xFF) as u8, j - 1)
  {
  }

  lemma {:induction false} LowByteBit(w: u64, j: nat)
    requires j < 8
    ensures BitOfByte((w & 0xFF) as u8, j) == Bit(w, j)
    decreases j
  {
    hide BitOfByte, Half, Odd;
    if j == 0 {
      LowestBit(w);
    } else {
      LowByteHalf(w, j);
      LowByteBit(Half(w), j - 1);
    }
  }

  // Bit j of byte k is bit 8k + j of the word.
  lemma ByteBit(w: u64, k: nat, j: nat)
    requires k < 8 && j < 8
    ensures BitOfByte(ByteAt(w, k), j) == Bit(w, 8 * k + j)
  {
    hide BitOfByte, Bit, Above;
    AboveHalves(w, k);
    LowByteBit(Above(w, k), j);
    LaterBit(w, 8 * k, j);
  }

  lemma WordBit(b: seq<u8>, k: nat, j: nat)
    requires |b| == 8 && k < 8 && j < 8
    ensures Bit(Word(b), 8 * k + j) == BitOfByte(b[k], j)
  {
    hide BitOfByte, Bit, ByteAt, Word;
    WordRoundTrip(b);
    ByteBit(Word(b), k, j);
  }
}
