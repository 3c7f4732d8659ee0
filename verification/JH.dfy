// JH: the bitsliced permutation E8 and the compression F8.
module JH {
  import Words
  import opened Bytes
  import opened WordBits

  type u8 = Words.u8
  type u64 = Words.u64

  // ---------------------------------------------------------------- the S-box layer

  // Four words that hold sixty-four nibbles, one bit of each nibble to a word, w0 the highest.
  datatype Quad = Quad(w0: u64, w1: u64, w2: u64, w3: u64)

  function Weight(b: bool, w: nat): nat { if b then w else 0 }

  function NibbleAt(q: Quad, k: nat): (n: nat)
    requires k < 64
    ensures n < 16
  {
    Weight(Bit(q.w0, k), 8) + Weight(Bit(q.w1, k), 4) + Weight(Bit(q.w2, k), 2) + Weight(Bit(q.w3, k), 1)
  }

  type Table = t: seq<nat> | |t| == 16 && forall i | 0 <= i < 16 :: t[i] < 16
    witness seq(16, _ => 0)

  // The two S-boxes of JH and their inverses.
  const S0: Table := [9, 0, 4, 11, 13, 12, 3, 15, 1, 10, 2, 6, 7, 5, 8, 14]
  const S1: Table := [3, 12, 6, 13, 5, 7, 1, 9, 15, 2, 0, 4, 11, 10, 14, 8]
  const INV0: Table := [1, 8, 10, 6, 2, 13, 11, 12, 14, 0, 9, 3, 5, 4, 15, 7]
  const INV1: Table := [10, 6, 9, 0, 11, 4, 2, 5, 15, 7, 13, 12, 1, 3, 14, 8]

  // The S-box macro for one of the two halves it works on: cc selects S0 or S1 bit by bit.
  function Sbox(q: Quad, cc: u64): Quad {
    var m3 := Not(q.w3);
    var m0 := Xor(q.w0, And(Not(q.w2), cc));
    var temp := Xor(cc, And(m0, q.w1));
    var m0 := Xor(m0, And(q.w2, m3));
    var m3 := Xor(m3, And(Not(q.w1), q.w2));
    var m1 := Xor(q.w1, And(m0, q.w2));
    var m2 := Xor(q.w2, And(m0, Not(m3)));
    var m0 := Xor(m0, Or(m1, m3));
    var m3 := Xor(m3, And(m1, m2));
    var m1 := Xor(m1, And(temp, m0));
    Quad(m0, m1, Xor(m2, temp), m3)
  }

  // The same steps on one nibble.
  function SboxBits(b0: bool, b1: bool, b2: bool, b3: bool, c: bool): (bool, bool, bool, bool) {
    var m3 := !b3;
    var m0 := b0 != (!b2 && c);
    var temp := c != (m0 && b1);
    var m0 := m0 != (b2 && m3);
    var m3 := m3 != (!b1 && b2);
    var m1 := b1 != (m0 && b2);
    var m2 := b2 != (m0 && !m3);
    var m0 := m0 != (m1 || m3);
    var m3 := m3 != (m1 && m2);
    var m1 := m1 != (temp && m0);
    (m0, m1, m2 != temp, m3)
  }

  function BitsAt(q: Quad, k: nat): (bool, bool, bool, bool)
    requires k < 64
  {
    (Bit(q.w0, k), Bit(q.w1, k), Bit(q.w2, k), Bit(q.w3, k))
  }

  lemma SboxBitwise(q: Quad, cc: u64, k: nat)
    requires k < 64
    ensures BitsAt(Sbox(q, cc), k) == SboxBits(Bit(q.w0, k), Bit(q.w1, k), Bit(q.w2, k), Bit(q.w3, k), Bit(cc, k))
  {
    hide Bit, Xor, And, Or, Not;
    forall a: u64, b: u64
      ensures Bit(Xor(a, b), k) == (Bit(a, k) != Bit(b, k))
      ensures Bit(And(a, b), k) == (Bit(a, k) && Bit(b, k))
      ensures Bit(Or(a, b), k) == (Bit(a, k) || Bit(b, k))
    {
      OpBits(a, b, k);
    }
    forall a: u64
      ensures Bit(Not(a), k) == !Bit(a, k)
    {
      NotBit(a, k);
    }
  }

  function Chosen(c: bool, t0: Table, t1: Table): Table { if c then t1 else t0 }

  // Every nibble of the S-box layer is looked up in the table its constant bit selects.
  lemma SboxIsLookup(q: Quad, cc: u64, k: nat)
    requires k < 64
    ensures NibbleAt(Sbox(q, cc), k) == Chosen(Bit(cc, k), S0, S1)[NibbleAt(q, k)]
  {
    hide Bit, Sbox;
    SboxBitwise(q, cc, k);
  }

  // ---------------------------------------------------------------- bitsliced tables

  predicate HasWeight(n: nat, w: nat)
    requires w > 0
  {
    n / w % 2 == 1
  }

  // Ones where the nibble equals v.
  function Minterm(q: Quad, v: nat): u64 {
    And(And(Literal(q.w0, HasWeight(v, 8)), Literal(q.w1, HasWeight(v, 4))),
        And(Literal(q.w2, HasWeight(v, 2)), Literal(q.w3, HasWeight(v, 1))))
  }

  function Literal(w: u64, positive: bool): u64 { if positive then w else Not(w) }

  // One output word of a table, restricted to the first n entries.
  function Column(q: Quad, cc: u64, t0: Table, t1: Table, weight: nat, n: nat): u64
    requires n <= 16 && weight > 0
  {
    if n == 0 then 0
    else Or(Column(q, cc, t0, t1, weight, n - 1),
            And(Minterm(q, n - 1), Pick(cc, HasWeight(t0[n - 1], weight), HasWeight(t1[n - 1], weight))))
  }

  // Ones where the table bit selected by cc is set.
  function Pick(cc: u64, bit0: bool, bit1: bool): u64 {
    if bit0 then (if bit1 then ALL_ONES else Not(cc)) else if bit1 then cc else 0
  }

  // All sixty-four nibbles looked up, in t0 or t1 as cc selects.
  function Lookup(q: Quad, cc: u64, t0: Table, t1: Table): Quad {
    Quad(
      Column(q, cc, t0, t1, 8, 16), Column(q, cc, t0, t1, 4, 16),
      Column(q, cc, t0, t1, 2, 16), Column(q, cc, t0, t1, 1, 16))
  }

  lemma LiteralBit(w: u64, positive: bool, k: nat)
    requires k < 64
    ensures Bit(Literal(w, positive), k) == (Bit(w, k) == positive)
  {
    NotBit(w, k);
  }

  // A number below sixteen is its four bits.
  lemma WeightsMatch(b0: bool, b1: bool, b2: bool, b3: bool, v: nat)
    requires v < 16
    ensures (Weight(b0, 8) + Weight(b1, 4) + Weight(b2, 2) + Weight(b3, 1) == v)
        <==> b0 == HasWeight(v, 8) && b1 == HasWeight(v, 4) && b2 == HasWeight(v, 2) && b3 == HasWeight(v, 1)
  {
  }

  lemma MintermBit(q: Quad, v: nat, k: nat)
    requires k < 64 && v < 16
    ensures Bit(Minterm(q, v), k) == (NibbleAt(q, k) == v)
  {
    hide Bit, And, Literal, HasWeight;
    WeightsMatch(Bit(q.w0, k), Bit(q.w1, k), Bit(q.w2, k), Bit(q.w3, k), v);
    var a, b := Literal(q.w0, HasWeight(v, 8)), Literal(q.w1, HasWeight(v, 4));
    var c, d := Literal(q.w2, HasWeight(v, 2)), Literal(q.w3, HasWeight(v, 1));
    LiteralBit(q.w0, HasWeight(v, 8), k);
    LiteralBit(q.w1, HasWeight(v, 4), k);
    LiteralBit(q.w2, HasWeight(v, 2), k);
    LiteralBit(q.w3, HasWeight(v, 1), k);
    OpBits(a, b, k);
    OpBits(c, d, k);
    OpBits(And(a, b), And(c, d), k);
  }

  lemma ZeroBit(k: nat)
    ensures !Bit(0, k)
  {
    HalvesOfZero(k);
  }

  lemma PickBit(cc: u64, bit0: bool, bit1: bool, k: nat)
    requires k < 64
    ensures Bit(Pick(cc, bit0, bit1), k) == if Bit(cc, k) then bit1 else bit0
  {
    hide Bit;
    NotBit(cc, k);
    OnesBit(k);
    ZeroBit(k);
  }

  lemma {:induction false} ColumnBit(q: Quad, cc: u64, t0: Table, t1: Table, weight: nat, n: nat, k: nat)
    requires n <= 16 && weight > 0 && k < 64
    ensures var v := NibbleAt(q, k);
            Bit(Column(q, cc, t0, t1, weight, n), k) == (v < n && HasWeight(Chosen(Bit(cc, k), t0, t1)[v], weight))
    decreases n
  {
    hide Bit, And, Or, Minterm, Pick, NibbleAt, HasWeight;
    if n == 0 {
      ZeroBit(k);
    } else {
      ColumnBit(q, cc, t0, t1, weight, n - 1, k);
      MintermBit(q, n - 1, k);
      var p := Pick(cc, HasWeight(t0[n - 1], weight), HasWeight(t1[n - 1], weight));
      PickBit(cc, HasWeight(t0[n - 1], weight), HasWeight(t1[n - 1], weight), k);
      OpBits(Minterm(q, n - 1), p, k);
      OpBits(Column(q, cc, t0, t1, weight, n - 1), And(Minterm(q, n - 1), p), k);
    }
  }

  lemma LookupNibble(q: Quad, cc: u64, t0: Table, t1: Table, k: nat)
    requires k < 64
    ensures NibbleAt(Lookup(q, cc, t0, t1), k) == Chosen(Bit(cc, k), t0, t1)[NibbleAt(q, k)]
  {
    hide Bit, Column, NibbleAt;
    var v := Chosen(Bit(cc, k), t0, t1)[NibbleAt(q, k)];
    ColumnBit(q, cc, t0, t1, 8, 16, k);
    ColumnBit(q, cc, t0, t1, 4, 16, k);
    ColumnBit(q, cc, t0, t1, 2, 16, k);
    ColumnBit(q, cc, t0, t1, 1, 16, k);
    NibbleOfWeights(Lookup(q, cc, t0, t1), k, v);
  }

  lemma NibbleOfWeights(q: Quad, k: nat, v: nat)
    requires k < 64 && v < 16
    requires Bit(q.w0, k) == HasWeight(v, 8) && Bit(q.w1, k) == HasWeight(v, 4)
    requires Bit(q.w2, k) == HasWeight(v, 2) && Bit(q.w3, k) == HasWeight(v, 1)
    ensures NibbleAt(q, k) == v
  {
    hide Bit;
  }

  // Four words are their sixty-four nibbles.
  lemma SameNibbles(p: Quad, q: Quad)
    requires forall k: nat | k < 64 :: NibbleAt(p, k) == NibbleAt(q, k)
    ensures p == q
  {
    hide Bit, NibbleAt;
    forall k: nat | k < 64
      ensures BitsAt(p, k) == BitsAt(q, k)
    {
      assert NibbleAt(p, k) == NibbleAt(q, k);
      NibbleBits(p, q, k);
    }
    forall k: nat | k < 64
      ensures Bit(p.w0, k) == Bit(q.w0, k) && Bit(p.w1, k) == Bit(q.w1, k)
      ensures Bit(p.w2, k) == Bit(q.w2, k) && Bit(p.w3, k) == Bit(q.w3, k)
    {
      assert BitsAt(p, k) == BitsAt(q, k);
    }
    SameBits(p.w0, q.w0);
    SameBits(p.w1, q.w1);
    SameBits(p.w2, q.w2);
    SameBits(p.w3, q.w3);
  }

  lemma NibbleBits(p: Quad, q: Quad, k: nat)
    requires k < 64 && NibbleAt(p, k) == NibbleAt(q, k)
    ensures BitsAt(p, k) == BitsAt(q, k)
  {
    hide Bit;
  }

  function InvSbox(q: Quad, cc: u64): Quad {
    Lookup(q, cc, INV0, INV1)
  }

  lemma Invert0(v: nat)
    requires v < 16
    ensures INV0[S0[v]] == v && S0[INV0[v]] == v
  {
    if v < 4 {
      assert v == 0 || v == 1 || v == 2 || v == 3;
    } else if v < 8 {
      assert v == 4 || v == 5 || v == 6 || v == 7;
    } else if v < 12 {
      assert v == 8 || v == 9 || v == 10 || v == 11;
    } else {
      assert v == 12 || v == 13 || v == 14 || v == 15;
    }
  }

  lemma Invert1(v: nat)
    requires v < 16
    ensures INV1[S1[v]] == v && S1[INV1[v]] == v
  {
    if v < 4 {
      assert v == 0 || v == 1 || v == 2 || v == 3;
    } else if v < 8 {
      assert v == 4 || v == 5 || v == 6 || v == 7;
    } else if v < 12 {
      assert v == 8 || v == 9 || v == 10 || v == 11;
    } else {
      assert v == 12 || v == 13 || v == 14 || v == 15;
    }
  }

  lemma ChosenInvert(c: bool, v: nat)
    requires v < 16
    ensures Chosen(c, INV0, INV1)[Chosen(c, S0, S1)[v]] == v
    ensures Chosen(c, S0, S1)[Chosen(c, INV0, INV1)[v]] == v
  {
    Invert0(v);
    Invert1(v);
  }

  // The S-box layer is a bijection for every round constant.
  lemma SboxInverse(q: Quad, cc: u64)
    ensures InvSbox(Sbox(q, cc), cc) == q && Sbox(InvSbox(q, cc), cc) == q
  {
    hide Bit, Sbox, Lookup, NibbleAt, Chosen;
    forall k: nat | k < 64
      ensures NibbleAt(InvSbox(Sbox(q, cc), cc), k) == NibbleAt(q, k)
      ensures NibbleAt(Sbox(InvSbox(q, cc), cc), k) == NibbleAt(q, k)
    {
      SboxIsLookup(q, cc, k);
      LookupNibble(Sbox(q, cc), cc, INV0, INV1, k);
      LookupNibble(q, cc, INV0, INV1, k);
      SboxIsLookup(InvSbox(q, cc), cc, k);
      ChosenInvert(Bit(cc, k), NibbleAt(q, k));
    }
    SameNibbles(InvSbox(Sbox(q, cc), cc), q);
    SameNibbles(Sbox(InvSbox(q, cc), cc), q);
  }

  // ---------------------------------------------------------------- the linear layer

  lemma XorLaws(a: u64, b: u64)
    ensures Xor(Xor(a, b), b) == a && Xor(a, b) == Xor(b, a)
  {
  }

  function XorQuad(p: Quad, q: Quad): Quad {
    Quad(Xor(p.w0, q.w0), Xor(p.w1, q.w1), Xor(p.w2, q.w2), Xor(p.w3, q.w3))
  }

  // Every nibble times two in GF(2^4) modulo x^4 + x + 1.
  function Double(q: Quad): Quad {
    Quad(q.w1, q.w2, Xor(q.w0, q.w3), q.w0)
  }

  // Twice n modulo x^4 + x + 1: when a bit is carried out, the two lowest bits are flipped.
  function TwiceNibble(n: nat): nat
    requires n < 16
  {
    if n < 8 then 2 * n
    else
      var m := 2 * n - 16;
      if m % 4 == 0 then m + 3 else m - 1
  }

  // Doubling a quad doubles each of its nibbles in the field.
  lemma DoubleNibbles(q: Quad, k: nat)
    requires k < 64
    ensures NibbleAt(Double(q), k) == TwiceNibble(NibbleAt(q, k))
  {
    hide Bit, Xor, TwiceNibble;
    OpBits(q.w0, q.w3, k);
    TwiceWeights(Bit(q.w0, k), Bit(q.w1, k), Bit(q.w2, k), Bit(q.w3, k));
  }

  lemma TwiceWeights(b0: bool, b1: bool, b2: bool, b3: bool)
    ensures TwiceNibble(Weight(b0, 8) + Weight(b1, 4) + Weight(b2, 2) + Weight(b3, 1))
         == Weight(b1, 8) + Weight(b2, 4) + Weight(b0 != b3, 2) + Weight(b0, 1)
  {
  }

  lemma XorQuadCancels(p: Quad, q: Quad)
    ensures XorQuad(XorQuad(p, q), q) == p
  {
    hide Xor;
    XorLaws(p.w0, q.w0);
    XorLaws(p.w1, q.w1);
    XorLaws(p.w2, q.w2);
    XorLaws(p.w3, q.w3);
  }

  // The even rows and the odd rows of one 64-bit column of the state.
  datatype Side = Side(even: Quad, odd: Quad)

  // The MDS code: (5a + 2b, 2a + b) for nibbles a and b.
  function Mds(s: Side): Side {
    var odd := XorQuad(s.odd, Double(s.even));
    Side(XorQuad(s.even, Double(odd)), odd)
  }

  function InvMds(s: Side): Side {
    var even := XorQuad(s.even, Double(s.odd));
    Side(even, XorQuad(s.odd, Double(even)))
  }

  lemma MdsInverse(s: Side)
    ensures InvMds(Mds(s)) == s && Mds(InvMds(s)) == s
  {
    hide XorQuad, Double;
    XorQuadCancels(s.even, Double(Mds(s).odd));
    XorQuadCancels(s.odd, Double(s.even));
    XorQuadCancels(s.even, Double(s.odd));
    XorQuadCancels(s.odd, Double(InvMds(s).even));
  }

  // ---------------------------------------------------------------- the swapping layer

  function Swap1(x: u64): u64 { ((x & 0x5555_5555_5555_5555) << 1) | ((x & 0xAAAA_AAAA_AAAA_AAAA) >> 1) }
  function Swap2(x: u64): u64 { ((x & 0x3333_3333_3333_3333) << 2) | ((x & 0xCCCC_CCCC_CCCC_CCCC) >> 2) }
  function Swap4(x: u64): u64 { ((x & 0x0F0F_0F0F_0F0F_0F0F) << 4) | ((x & 0xF0F0_F0F0_F0F0_F0F0) >> 4) }
  function Swap8(x: u64): u64 { ((x & 0x00FF_00FF_00FF_00FF) << 8) | ((x & 0xFF00_FF00_FF00_FF00) >> 8) }
  function Swap16(x: u64): u64 { ((x & 0x0000_FFFF_0000_FFFF) << 16) | ((x & 0xFFFF_0000_FFFF_0000) >> 16) }
  function Swap32(x: u64): u64 { (x << 32) | (x >> 32) }

  // SWAP1, SWAP2, SWAP4, SWAP8, SWAP16 and SWAP32, for r from 0 to 5.
  function Swap(x: u64, r: nat): u64 {
    if r == 0 then Swap1(x) else if r == 1 then Swap2(x) else if r == 2 then Swap4(x)
    else if r == 3 then Swap8(x) else if r == 4 then Swap16(x) else Swap32(x)
  }

  // The width of the groups swapped.
  function Span(r: nat): nat {
    if r == 0 then 1 else if r == 1 then 2 else if r == 2 then 4 else if r == 3 then 8 else if r == 4 then 16 else 32
  }

  // The lowest Span(r) bits.
  function LowGroup(r: nat): u64 {
    if r == 0 then 0x1 else if r == 1 then 0x3 else if r == 2 then 0xF
    else if r == 3 then 0xFF else if r == 4 then 0xFFFF else 0xFFFF_FFFF
  }

  lemma Twice1(x: u64)
    ensures Swap1(Swap1(x)) == x
  {
  }

  lemma Groups1(x: u64)
    ensures And(Swap1(x), 0x1) == And(Half(x), 0x1)
    ensures And(Half(Swap1(x)), 0x1) == And(x, 0x1)
    ensures Shift2(Swap1(x)) == Swap1(Shift2(x))
  {
  }

  lemma Twice2(x: u64)
    ensures Swap2(Swap2(x)) == x
  {
  }

  lemma Groups2(x: u64)
    ensures And(Swap2(x), 0x3) == And(Shift2(x), 0x3)
    ensures And(Shift2(Swap2(x)), 0x3) == And(x, 0x3)
    ensures Shift4(Swap2(x)) == Swap2(Shift4(x))
  {
  }

  lemma Twice4(x: u64)
    ensures Swap4(Swap4(x)) == x
  {
  }

  lemma Groups4(x: u64)
    ensures And(Swap4(x), 0xF) == And(Shift4(x), 0xF)
    ensures And(Shift4(Swap4(x)), 0xF) == And(x, 0xF)
    ensures Shift8(Swap4(x)) == Swap4(Shift8(x))
  {
  }

  lemma Twice8(x: u64)
    ensures Swap8(Swap8(x)) == x
  {
  }

  lemma Groups8(x: u64)
    ensures And(Swap8(x), 0xFF) == And(Shift8(x), 0xFF)
    ensures And(Shift8(Swap8(x)), 0xFF) == And(x, 0xFF)
    ensures Shift16(Swap8(x)) == Swap8(Shift16(x))
  {
  }

  lemma Twice16(x: u64)
    ensures Swap16(Swap16(x)) == x
  {
  }

  lemma Groups16(x: u64)
    ensures And(Swap16(x), 0xFFFF) == And(Shift16(x), 0xFFFF)
    ensures And(Shift16(Swap16(x)), 0xFFFF) == And(x, 0xFFFF)
    ensures Shift32(Swap16(x)) == Swap16(Shift32(x))
  {
  }

  lemma Twice32(x: u64)
    ensures Swap32(Swap32(x)) == x
  {
  }

  lemma Groups32(x: u64)
    ensures And(Swap32(x), 0xFFFF_FFFF) == And(Shift32(x), 0xFFFF_FFFF)
    ensures And(Shift32(Swap32(x)), 0xFFFF_FFFF) == And(x, 0xFFFF_FFFF)
  {
  }

  lemma SwapTwice(x: u64, r: nat)
    ensures Swap(Swap(x, r), r) == x
  {
    hide Swap1, Swap2, Swap4, Swap8, Swap16, Swap32;
    Twice1(x);
    Twice2(x);
    Twice4(x);
    Twice8(x);
    Twice16(x);
    Twice32(x);
  }

  // y holds the lowest two groups of x exchanged, and above them what x's upper bits swap to.
  predicate Exchanged(x: u64, y: u64, r: nat) {
    && And(y, LowGroup(r)) == And(Halves(x, Span(r)), LowGroup(r))
    && And(Halves(y, Span(r)), LowGroup(r)) == And(x, LowGroup(r))
    && (r < 5 ==> Halves(y, 2 * Span(r)) == Swap(Halves(x, 2 * Span(r)), r))
  }

  lemma Exchange1(x: u64)
    ensures Exchanged(x, Swap1(x), 0)
  {
    hide Swap1, And, Half, Shift2, Shift4, Shift8, Shift16, Shift32, Halves;
    TwoHalves(x);
    TwoHalves(Swap1(x));
    Groups1(x);
  }

  lemma Exchange2(x: u64)
    ensures Exchanged(x, Swap2(x), 1)
  {
    hide Swap2, And, Half, Shift2, Shift4, Shift8, Shift16, Shift32, Halves;
    TwoHalves(x);
    TwoHalves(Swap2(x));
    FourHalves(x);
    FourHalves(Swap2(x));
    Groups2(x);
  }

  lemma Exchange4(x: u64)
    ensures Exchanged(x, Swap4(x), 2)
  {
    hide Swap4, And, Half, Shift2, Shift4, Shift8, Shift16, Shift32, Halves;
    FourHalves(x);
    FourHalves(Swap4(x));
    EightHalves(x);
    EightHalves(Swap4(x));
    Groups4(x);
  }

  lemma Exchange8(x: u64)
    ensures Exchanged(x, Swap8(x), 3)
  {
    hide Swap8, And, Half, Shift2, Shift4, Shift8, Shift16, Shift32, Halves;
    EightHalves(x);
    EightHalves(Swap8(x));
    SixteenHalves(x);
    SixteenHalves(Swap8(x));
    Groups8(x);
  }

  lemma Exchange16(x: u64)
    ensures Exchanged(x, Swap16(x), 4)
  {
    hide Swap16, And, Half, Shift2, Shift4, Shift8, Shift16, Shift32, Halves;
    SixteenHalves(x);
    SixteenHalves(Swap16(x));
    ThirtyTwoHalves(x);
    ThirtyTwoHalves(Swap16(x));
    Groups16(x);
  }

  lemma Exchange32(x: u64)
    ensures Exchanged(x, Swap32(x), 5)
  {
    hide Swap32, And, Half, Shift2, Shift4, Shift8, Shift16, Shift32, Halves;
    ThirtyTwoHalves(x);
    ThirtyTwoHalves(Swap32(x));
    Groups32(x);
  }

  lemma SwapExchanges(x: u64, r: nat)
    requires r < 6
    ensures Exchanged(x, Swap(x, r), r)
  {
    hide Exchanged, Swap1, Swap2, Swap4, Swap8, Swap16, Swap32;
    Exchange1(x);
    Exchange2(x);
    Exchange4(x);
    Exchange8(x);
    Exchange16(x);
    Exchange32(x);
  }

  lemma LowGroupBits(r: nat, k: nat)
    requires r < 6 && k < Span(r)
    ensures Bit(LowGroup(r), k)
  {
    hide Bit, Half, Halves;
    LowGroupLength(r);
    LowGroupRun(r);
    RunBits(LowGroup(r), Span(r) - 1, k);
  }

  lemma LowGroupRun(r: nat)
    ensures LowGroup(r) & (LowGroup(r) + 1) == 0
  {
  }

  lemma LowGroupLength(r: nat)
    requires r < 6
    ensures Halves(LowGroup(r), Span(r) - 1) == 1
  {
    hide Halves;
    LastHalves();
    SixteenHalves(0xFFFF_FFFF);
    HalvesAdd(0xFFFF_FFFF, 16, 15);
  }

  // The bit exchanged with bit k.
  function Partner(k: nat, s: nat): int
    requires s > 0
  {
    if k / s % 2 == 0 then k + s else k - s
  }

  lemma LowGroupsExchanged(x: u64, y: u64, r: nat)
    requires r < 6 && Exchanged(x, y, r)
    ensures And(y, LowGroup(r)) == And(Halves(x, Span(r)), LowGroup(r))
    ensures And(Halves(y, Span(r)), LowGroup(r)) == And(x, LowGroup(r))
  {
    hide And, Halves, Span, LowGroup, Swap;
  }

  lemma LowestExchanged(x: u64, y: u64, r: nat, k: nat)
    requires r < 6 && k < 2 * Span(r) && Exchanged(x, y, r)
    ensures Bit(y, k) == Bit(x, if k < Span(r) then k + Span(r) else k - Span(r))
  {
    hide *;
    var s, low := Span(r), LowGroup(r);
    LowGroupsExchanged(x, y, r);
    if k < s {
      LowGroupBits(r, k);
      OpBits(y, low, k);
      OpBits(Halves(x, s), low, k);
      LaterBit(x, s, k);
    } else {
      LowGroupBits(r, k - s);
      LaterBit(y, s, k - s);
      OpBits(Halves(y, s), low, k - s);
      OpBits(x, low, k - s);
    }
  }

  // SWAP exchanges neighbouring groups of Span(r) bits.
  lemma {:induction false} SwapMoves(x: u64, r: nat, k: nat)
    requires r < 6 && k < 64
    ensures 0 <= Partner(k, Span(r)) < 64 && Bit(Swap(x, r), k) == Bit(x, Partner(k, Span(r)))
    decreases k
  {
    hide Bit, Halves, Swap, LowGroup, And, Partner;
    var s := Span(r);
    SwapExchanges(x, r);
    PartnerIs(k, r);
    if k < 2 * s {
      LowestExchanged(x, Swap(x, r), r, k);
    } else {
      LaterBit(Swap(x, r), 2 * s, k - 2 * s);
      SwapMoves(Halves(x, 2 * s), r, k - 2 * s);
      LaterBit(x, 2 * s, Partner(k - 2 * s, s));
      PartnerRepeats(k, s);
    }
  }

  lemma PartnerIs(k: nat, r: nat)
    requires r < 6 && k < 64
    ensures 0 <= Partner(k, Span(r)) < 64
    ensures k < 2 * Span(r) ==> Partner(k, Span(r)) == if k < Span(r) then k + Span(r) else k - Span(r)
  {
    var s := Span(r);
    if k < s {
      Words.DivModUnique(k, s, 0, k);
    } else if k < 2 * s {
      Words.DivModUnique(k, s, 1, k - s);
    }
  }

  lemma PartnerRepeats(k: nat, s: nat)
    requires s > 0 && k >= 2 * s
    ensures Partner(k, s) == Partner(k - 2 * s, s) + 2 * s
  {
    Words.DivModUnique(k, s, (k - 2 * s) / s + 2, (k - 2 * s) % s);
  }

  function SwapQuad(q: Quad, r: nat): Quad {
    Quad(Swap(q.w0, r), Swap(q.w1, r), Swap(q.w2, r), Swap(q.w3, r))
  }

  lemma SwapQuadTwice(q: Quad, r: nat)
    ensures SwapQuad(SwapQuad(q, r), r) == q
  {
    hide Swap;
    SwapTwice(q.w0, r);
    SwapTwice(q.w1, r);
    SwapTwice(q.w2, r);
    SwapTwice(q.w3, r);
  }

  // ---------------------------------------------------------------- the permutation E8

  // The 1024-bit state: column 0 and column 1 of the array x.
  datatype State = State(left: Side, right: Side)

  const ROUNDS := 42

  // Four constant words to a round.
  type Constants = rc: seq<u64> | |rc| == 4 * ROUNDS witness seq(4 * ROUNDS, _ => 0)

  function SideRound(s: Side, cc0: u64, cc1: u64): Side {
    Mds(Side(Sbox(s.even, cc0), Sbox(s.odd, cc1)))
  }

  function InvSideRound(s: Side, cc0: u64, cc1: u64): Side {
    var t := InvMds(s);
    Side(InvSbox(t.even, cc0), InvSbox(t.odd, cc1))
  }

  lemma SideRoundInverse(s: Side, cc0: u64, cc1: u64)
    ensures InvSideRound(SideRound(s, cc0, cc1), cc0, cc1) == s
    ensures SideRound(InvSideRound(s, cc0, cc1), cc0, cc1) == s
  {
    hide Sbox, InvSbox, Mds, InvMds;
    MdsInverse(Side(Sbox(s.even, cc0), Sbox(s.odd, cc1)));
    SboxInverse(s.even, cc0);
    SboxInverse(s.odd, cc1);
    MdsInverse(s);
    var t := InvMds(s);
    SboxInverse(t.even, cc0);
    SboxInverse(t.odd, cc1);
  }

  // The odd rows swapped in groups of 1, 2, 4, 8, 16, 32 and 64 bits in turn.
  function SwapLayer(st: State, r: nat): State {
    if r < 6 then
      State(st.left.(odd := SwapQuad(st.left.odd, r)), st.right.(odd := SwapQuad(st.right.odd, r)))
    else
      State(st.left.(odd := st.right.odd), st.right.(odd := st.left.odd))
  }

  lemma SwapLayerTwice(st: State, r: nat)
    ensures SwapLayer(SwapLayer(st, r), r) == st
  {
    hide SwapQuad;
    SwapQuadTwice(st.left.odd, r);
    SwapQuadTwice(st.right.odd, r);
  }

  function Round(st: State, rc: Constants, n: nat): State
    requires n < ROUNDS
  {
    SwapLayer(
      State(SideRound(st.left, rc[4 * n], rc[4 * n + 2]), SideRound(st.right, rc[4 * n + 1], rc[4 * n + 3])),
      n % 7)
  }

  function InvRound(st: State, rc: Constants, n: nat): State
    requires n < ROUNDS
  {
    var t := SwapLayer(st, n % 7);
    State(InvSideRound(t.left, rc[4 * n], rc[4 * n + 2]), InvSideRound(t.right, rc[4 * n + 1], rc[4 * n + 3]))
  }

  lemma RoundInverse(st: State, rc: Constants, n: nat)
    requires n < ROUNDS
    ensures InvRound(Round(st, rc, n), rc, n) == st && Round(InvRound(st, rc, n), rc, n) == st
  {
    hide SideRound, InvSideRound, SwapLayer;
    var u := State(SideRound(st.left, rc[4 * n], rc[4 * n + 2]), SideRound(st.right, rc[4 * n + 1], rc[4 * n + 3]));
    SwapLayerTwice(u, n % 7);
    SideRoundInverse(st.left, rc[4 * n], rc[4 * n + 2]);
    SideRoundInverse(st.right, rc[4 * n + 1], rc[4 * n + 3]);
    SwapLayerTwice(st, n % 7);
    var t := SwapLayer(st, n % 7);
    SideRoundInverse(t.left, rc[4 * n], rc[4 * n + 2]);
    SideRoundInverse(t.right, rc[4 * n + 1], rc[4 * n + 3]);
  }

  // The first n rounds of E8, and their inverse, last round first.
  function Permuted(st: State, rc: Constants, n: nat): State
    requires n <= ROUNDS
  {
    if n == 0 then st else Round(Permuted(st, rc, n - 1), rc, n - 1)
  }

  function Restored(st: State, rc: Constants, n: nat): State
    requires n <= ROUNDS
    decreases n
  {
    hide InvRound;
    if n == 0 then st else Restored(InvRound(st, rc, n - 1), rc, n - 1)
  }

  // E8 is a bijection on the state, whatever the round constants.
  lemma {:induction false} E8Inverse(st: State, rc: Constants, n: nat)
    requires n <= ROUNDS
    ensures Restored(Permuted(st, rc, n), rc, n) == st && Permuted(Restored(st, rc, n), rc, n) == st
    decreases n
  {
    hide Round, InvRound;
    if n > 0 {
      RoundInverse(Permuted(st, rc, n - 1), rc, n - 1);
      E8Inverse(st, rc, n - 1);
      E8Inverse(InvRound(st, rc, n - 1), rc, n - 1);
      RoundInverse(st, rc, n - 1);
    }
  }

  // ---------------------------------------------------------------- the compression F8

  // The array x[8][2], row by row.
  type Rows = s: seq<u64> | |s| == 16 witness seq(16, _ => 0)
  type Message = m: seq<u64> | |m| == 8 witness seq(8, _ => 0)

  // Every fourth word: the even rows (base i) or the odd rows (base 2 + i) of column i.
  function QuadOf(s: Rows, base: nat): Quad
    requires base < 4
  {
    Quad(s[base], s[4 + base], s[8 + base], s[12 + base])
  }

  function SideOf(s: Rows, i: nat): Side
    requires i < 2
  {
    Side(QuadOf(s, i), QuadOf(s, 2 + i))
  }

  function StateOf(s: Rows): State {
    State(SideOf(s, 0), SideOf(s, 1))
  }

  function RowsOf(st: State): Rows {
    [st.left.even.w0, st.right.even.w0, st.left.odd.w0, st.right.odd.w0,
     st.left.even.w1, st.right.even.w1, st.left.odd.w1, st.right.odd.w1,
     st.left.even.w2, st.right.even.w2, st.left.odd.w2, st.right.odd.w2,
     st.left.even.w3, st.right.even.w3, st.left.odd.w3, st.right.odd.w3]
  }

  lemma RowsOfState(s: Rows)
    ensures RowsOf(StateOf(s)) == s
  {
  }

  lemma StateOfRows(st: State)
    ensures StateOf(RowsOf(st)) == st
  {
  }

  // The message added to the eight words from `from` on.
  function XorInto(s: Rows, m: Message, from: nat): Rows
    requires from <= 8
  {
    var r: seq<u64> := seq(16, i requires 0 <= i < 16 => if from <= i < from + 8 then Xor(s[i], m[i - from]) else s[i]);
    r
  }

  lemma XorIntoTwice(s: Rows, m: Message, from: nat)
    requires from <= 8
    ensures XorInto(XorInto(s, m, from), m, from) == s
  {
    hide Xor;
    forall i | 0 <= i < 16
      ensures XorInto(XorInto(s, m, from), m, from)[i] == s[i]
    {
      if from <= i < from + 8 {
        XorLaws(s[i], m[i - from]);
      }
    }
  }

  function E8(s: Rows, rc: Constants): Rows {
    RowsOf(Permuted(StateOf(s), rc, ROUNDS))
  }

  function InvE8(s: Rows, rc: Constants): Rows {
    RowsOf(Restored(StateOf(s), rc, ROUNDS))
  }

  lemma E8RowsInverse(s: Rows, rc: Constants)
    ensures InvE8(E8(s, rc), rc) == s && E8(InvE8(s, rc), rc) == s
  {
    hide Permuted, Restored, RowsOf, StateOf;
    E8Inverse(StateOf(s), rc, ROUNDS);
    RowsOfState(s);
    StateOfRows(Permuted(StateOf(s), rc, ROUNDS));
    StateOfRows(Restored(StateOf(s), rc, ROUNDS));
  }

  function F8(s: Rows, m: Message, rc: Constants): Rows {
    XorInto(E8(XorInto(s, m, 0), rc), m, 8)
  }

  function InvF8(s: Rows, m: Message, rc: Constants): Rows {
    XorInto(InvE8(XorInto(s, m, 8), rc), m, 0)
  }

  // For every message block, the compression is a bijection on the chaining state.
  lemma F8Inverse(s: Rows, m: Message, rc: Constants)
    ensures InvF8(F8(s, m, rc), m, rc) == s && F8(InvF8(s, m, rc), m, rc) == s
  {
    hide E8, InvE8, XorInto;
    XorIntoTwice(E8(XorInto(s, m, 0), rc), m, 8);
    E8RowsInverse(XorInto(s, m, 0), rc);
    XorIntoTwice(s, m, 0);
    XorIntoTwice(InvE8(XorInto(s, m, 8), rc), m, 0);
    E8RowsInverse(XorInto(s, m, 8), rc);
    XorIntoTwice(s, m, 8);
  }

  // ---------------------------------------------------------------- in place

  // The S-box macro: two halves at once, one word after the other.
  method SS(m: Side, cc0: u64, cc1: u64) returns (r: Side)
    ensures r == Side(Sbox(m.even, cc0), Sbox(m.odd, cc1))
  {
    hide Xor, And, Or, Not;
    var m0, m1, m2, m3 := m.even.w0, m.even.w1, m.even.w2, m.even.w3;
    var m4, m5, m6, m7 := m.odd.w0, m.odd.w1, m.odd.w2, m.odd.w3;
    m3 := Not(m3);
    m7 := Not(m7);
    m0 := Xor(m0, And(Not(m2), cc0));
    m4 := Xor(m4, And(Not(m6), cc1));
    var temp0 := Xor(cc0, And(m0, m1));
    var temp1 := Xor(cc1, And(m4, m5));
    m0 := Xor(m0, And(m2, m3));
    m4 := Xor(m4, And(m6, m7));
    m3 := Xor(m3, And(Not(m1), m2));
    m7 := Xor(m7, And(Not(m5), m6));
    m1 := Xor(m1, And(m0, m2));
    m5 := Xor(m5, And(m4, m6));
    m2 := Xor(m2, And(m0, Not(m3)));
    m6 := Xor(m6, And(m4, Not(m7)));
    m0 := Xor(m0, Or(m1, m3));
    m4 := Xor(m4, Or(m5, m7));
    m3 := Xor(m3, And(m1, m2));
    m7 := Xor(m7, And(m5, m6));
    m1 := Xor(m1, And(temp0, m0));
    m5 := Xor(m5, And(temp1, m4));
    m2 := Xor(m2, temp0);
    m6 := Xor(m6, temp1);
    r := Side(Quad(m0, m1, m2, m3), Quad(m4, m5, m6, m7));
  }

  // The MDS macro.
  method L(m: Side) returns (r: Side)
    ensures r == Mds(m)
  {
    hide Xor;
    var m0, m1, m2, m3 := m.even.w0, m.even.w1, m.even.w2, m.even.w3;
    var m4, m5, m6, m7 := m.odd.w0, m.odd.w1, m.odd.w2, m.odd.w3;
    m4 := Xor(m4, m1);
    m5 := Xor(m5, m2);
    m6 := Xor(m6, Xor(m0, m3));
    m7 := Xor(m7, m0);
    m0 := Xor(m0, m5);
    m1 := Xor(m1, m6);
    m2 := Xor(m2, Xor(m4, m7));
    m3 := Xor(m3, m4);
    r := Side(Quad(m0, m1, m2, m3), Quad(m4, m5, m6, m7));
  }

  function WithSide(st: State, i: nat, side: Side): State {
    if i == 0 then st.(left := side) else st.(right := side)
  }

  method StoreQuad(x: array<u64>, base: nat, q: Quad)
    requires x.Length == 16 && base < 4
    modifies x
    ensures QuadOf(x[..], base) == q
    ensures forall b: nat | b < 4 && b != base :: QuadOf(x[..], b) == old(QuadOf(x[..], b))
  {
    x[base] := q.w0;
    x[4 + base] := q.w1;
    x[8 + base] := q.w2;
    x[12 + base] := q.w3;
  }

  method StoreSide(x: array<u64>, i: nat, side: Side)
    requires x.Length == 16 && i < 2
    modifies x
    ensures StateOf(x[..]) == WithSide(old(StateOf(x[..])), i, side)
  {
    hide QuadOf;
    StoreQuad(x, i, side.even);
    StoreQuad(x, 2 + i, side.odd);
  }

  // S-box, MDS code and, in all rounds but every seventh, the swaps of one column.
  function ColumnRound(s: Side, cc0: u64, cc1: u64, r: nat): Side {
    var t := SideRound(s, cc0, cc1);
    if r < 6 then t.(odd := SwapQuad(t.odd, r)) else t
  }

  method ColumnInPlace(x: array<u64>, i: nat, cc0: u64, cc1: u64, r: nat)
    requires x.Length == 16 && i < 2
    modifies x
    ensures StateOf(x[..]) == WithSide(old(StateOf(x[..])), i, ColumnRound(old(SideOf(x[..], i)), cc0, cc1, r))
  {
    hide Sbox, Mds, SwapQuad;
    var side := SS(SideOf(x[..], i), cc0, cc1);
    side := L(side);
    if r < 6 {
      side := side.(odd := SwapQuad(side.odd, r));
    }
    StoreSide(x, i, side);
  }

  predicate RowSwapped(s: Rows, t: Rows, j: nat)
    requires j < 8
  {
    t[2 * j] == s[2 * j + 1] && t[2 * j + 1] == s[2 * j]
  }

  predicate RowKept(s: Rows, t: Rows, j: nat)
    requires j < 8
  {
    t[2 * j] == s[2 * j] && t[2 * j + 1] == s[2 * j + 1]
  }

  lemma RowChain(s: Rows, u: Rows, t: Rows, j: nat)
    requires j < 8
    ensures RowKept(s, u, j) && RowKept(u, t, j) ==> RowKept(s, t, j)
    ensures RowSwapped(s, u, j) && RowKept(u, t, j) ==> RowSwapped(s, t, j)
    ensures RowKept(s, u, j) && RowSwapped(u, t, j) ==> RowSwapped(s, t, j)
  {
  }

  method SwapRow(x: array<u64>, i: nat)
    requires x.Length == 16 && i < 8
    modifies x
    ensures RowSwapped(old(x[..]), x[..], i)
    ensures forall j: nat | j < 8 && j != i :: RowKept(old(x[..]), x[..], j)
  {
    var temp0 := x[2 * i];
    x[2 * i] := x[2 * i + 1];
    x[2 * i + 1] := temp0;
  }

  // The odd rows with their two words exchanged.
  method SwapColumns(x: array<u64>)
    requires x.Length == 16
    modifies x
    ensures StateOf(x[..]) == SwapLayer(old(StateOf(x[..])), 6)
  {
    hide RowKept, RowSwapped, StateOf;
    ghost var s: Rows := x[..];
    RowsKept(s);
    var i := 1;
    while i < 8
      invariant i % 2 == 1 && i <= 9
      invariant forall j: nat | j < 8 :: if j % 2 == 0 || j >= i then RowKept(s, x[..], j) else RowSwapped(s, x[..], j)
    {
      ghost var u: Rows := x[..];
      SwapRow(x, i);
      forall j: nat | j < 8
        ensures if j % 2 == 0 || j >= i + 2 then RowKept(s, x[..], j) else RowSwapped(s, x[..], j)
      {
        assert if j % 2 == 0 || j >= i then RowKept(s, u, j) else RowSwapped(s, u, j);
        RowChain(s, u, x[..], j);
      }
      i := i + 2;
    }
    RowsSwapped(s, x[..]);
  }

  lemma RowsKept(s: Rows)
    ensures forall j: nat | j < 8 :: RowKept(s, s, j)
  {
  }

  lemma RowsSwapped(s: Rows, t: Rows)
    requires forall j: nat | j < 8 :: if j % 2 == 0 then RowKept(s, t, j) else RowSwapped(s, t, j)
    ensures StateOf(t) == SwapLayer(StateOf(s), 6)
  {
    assert RowKept(s, t, 0) && RowKept(s, t, 2) && RowKept(s, t, 4) && RowKept(s, t, 6);
    assert RowSwapped(s, t, 1) && RowSwapped(s, t, 3) && RowSwapped(s, t, 5) && RowSwapped(s, t, 7);
  }

  // Round n, the r-th of its group of seven.
  method RoundInPlace(x: array<u64>, rc: Constants, n: nat, r: nat)
    requires x.Length == 16 && n < ROUNDS && r == n % 7
    modifies x
    ensures StateOf(x[..]) == Round(old(StateOf(x[..])), rc, n)
  {
    hide SideRound, SwapQuad, SideOf;
    for i := 0 to 2
      invariant i == 0 ==> StateOf(x[..]) == old(StateOf(x[..]))
      invariant i >= 1 ==> StateOf(x[..]).left == ColumnRound(old(StateOf(x[..])).left, rc[4 * n], rc[4 * n + 2], r)
      invariant i == 1 ==> StateOf(x[..]).right == old(StateOf(x[..])).right
      invariant i == 2 ==>
                  StateOf(x[..]).right == ColumnRound(old(StateOf(x[..])).right, rc[4 * n + 1], rc[4 * n + 3], r)
    {
      ColumnInPlace(x, i, rc[4 * n + i], rc[4 * n + i + 2], r);
    }
    if r == 6 {
      SwapColumns(x);
    }
  }

  method E8InPlace(x: array<u64>, rc: Constants)
    requires x.Length == 16
    modifies x
    ensures x[..] == E8(old(x[..]), rc)
  {
    hide Round, StateOf, RowsOf;
    ghost var st := StateOf(x[..]);
    var roundnumber := 0;
    while roundnumber < ROUNDS
      invariant roundnumber <= ROUNDS && roundnumber % 7 == 0 && StateOf(x[..]) == Permuted(st, rc, roundnumber)
      decreases ROUNDS - roundnumber
    {
      for j := 0 to 7
        invariant StateOf(x[..]) == Permuted(st, rc, roundnumber + j)
      {
        RoundInPlace(x, rc, roundnumber + j, j);
      }
      roundnumber := roundnumber + 7;
    }
    RowsOfState(x[..]);
  }

  function MessageWords(buffer: seq<u8>): Message
    requires |buffer| == 64
  {
    var m: seq<u64> := seq(8, i requires 0 <= i < 8 => Word(buffer[8 * i..8 * i + 8]));
    m
  }

  lemma MessageWordAt(buffer: seq<u8>, i: nat)
    requires |buffer| == 64 && i < 8
    ensures MessageWords(buffer)[i] == Word(buffer[8 * i..8 * i + 8])
  {
    hide Word;
  }

  method XorBuffer(x: array<u64>, buffer: array<u8>, from: nat)
    requires x.Length == 16 && buffer.Length == 64 && x as object != buffer && from <= 8
    modifies x
    ensures x[..] == XorInto(old(x[..]), MessageWords(buffer[..]), from)
  {
    hide Xor, Word, MessageWords;
    ghost var m := MessageWords(buffer[..]);
    for i := 0 to 8
      invariant forall j | 0 <= j < from || from + i <= j < 16 :: x[j] == old(x[j])
      invariant forall j | from <= j < from + i :: x[j] == Xor(old(x[j]), m[j - from])
      invariant MessageWords(buffer[..]) == m
    {
      MessageWordAt(buffer[..], i);
      assert buffer[..][8 * i..8 * i + 8] == buffer[8 * i..8 * i + 8];
      x[from + i] := Xor(x[from + i], Word(buffer[8 * i..8 * i + 8]));
    }
  }

  method F8InPlace(x: array<u64>, buffer: array<u8>, rc: Constants)
    requires x.Length == 16 && buffer.Length == 64 && x as object != buffer
    modifies x
    ensures x[..] == F8(old(x[..]), MessageWords(buffer[..]), rc)
  {
    hide E8, XorInto, MessageWords;
    ghost var bytes := buffer[..];
    XorBuffer(x, buffer, 0);
    E8InPlace(x, rc);
    assert buffer[..] == bytes;
    XorBuffer(x, buffer, 8);
  }
}
