// Keccak-f[1600] on bits, as section 3.2 of FIPS 202 defines it, and proofs that the step mappings
// on words are the same.
module KeccakStandard {
  import Words
  import opened WordBits
  import opened Keccak

  // ---------------------------------------------------------------- rotations, bit by bit

  const BELOW_TOP: u64 := 0x7FFF_FFFF_FFFF_FFFF

  function Top(w: u64): u64 { w >> 63 }

  lemma TurnHalf(w: u64)
    ensures Half(TurnOne(w)) == And(w, BELOW_TOP)
  {
  }

  lemma TurnOdd(w: u64)
    ensures Odd(TurnOne(w)) == Odd(Top(w))
  {
  }

  lemma LastShift(w: u64)
    ensures Half(Shift2(Shift4(Shift8(Shift16(Shift32(w)))))) == Top(w)
  {
  }

  lemma TopHalves(w: u64)
    ensures Halves(w, 63) == Top(w)
  {
    hide *;
    HalvesAdd(w, 32, 31);
    ThirtyTwoHalves(w);
    HalvesAdd(Shift32(w), 16, 15);
    SixteenHalves(Shift32(w));
    HalvesAdd(Shift16(Shift32(w)), 8, 7);
    EightHalves(Shift16(Shift32(w)));
    HalvesAdd(Shift8(Shift16(Shift32(w))), 4, 3);
    FourHalves(Shift8(Shift16(Shift32(w))));
    HalvesAdd(Shift4(Shift8(Shift16(Shift32(w)))), 2, 1);
    TwoHalves(Shift4(Shift8(Shift16(Shift32(w)))));
    TwoHalves(Shift2(Shift4(Shift8(Shift16(Shift32(w))))));
    LastShift(w);
  }

  lemma BelowTopBit(k: nat)
    requires k < 63
    ensures Bit(BELOW_TOP, k)
  {
    WordLength();
    assert Half(ALL_ONES) == BELOW_TOP;
    assert Halves(ALL_ONES, 63) == Halves(Half(ALL_ONES), 62);
    RunBits(BELOW_TOP, 62, k);
  }

  lemma LowBit(w: u64)
    ensures Bit(w, 0) == Odd(w)
  {
    hide Odd;
  }

  lemma HigherBit(w: u64, k: nat)
    requires k > 0
    ensures Bit(w, k) == Bit(Half(w), k - 1)
  {
    hide Odd, Half;
  }

  lemma BitIs(w: u64, k: nat)
    ensures Bit(w, k) == Odd(Halves(w, k))
  {
    hide Odd, Halves;
  }

  lemma TurnBit(w: u64, k: nat)
    requires k < 64
    ensures Bit(TurnOne(w), k) == Bit(w, if k == 0 then 63 else k - 1)
  {
    hide *;
    if k == 0 {
      LowBit(TurnOne(w));
      TurnOdd(w);
      TopHalves(w);
      BitIs(w, 63);
    } else {
      HigherBit(TurnOne(w), k);
      TurnHalf(w);
      OpBits(w, BELOW_TOP, k - 1);
      BelowTopBit(k - 1);
    }
  }

  // A rotation moves bit k - n to bit k.
  lemma {:induction false} RotBit(w: u64, n: nat, k: nat)
    requires n < 64 && k < 64
    ensures Bit(Rot(w, n), k) == Bit(w, (k + 64 - n) % 64)
    decreases n
  {
    hide TurnOne, Bit;
    if n > 0 {
      TurnBit(Rot(w, n - 1), k);
      RotBit(w, n - 1, if k == 0 then 63 else k - 1);
    }
  }

  // ---------------------------------------------------------------- the state as bits, section 3.1

  type Bits = s: seq<bool> | |s| == 1600 witness seq(1600, _ => false)

  // A[x, y, z]
  function A(s: Bits, x: nat, y: nat, z: nat): bool
    requires x < 5 && y < 5 && z < 64
  {
    s[64 * (5 * y + x) + z]
  }

  function FromBits(f: (nat, nat, nat) --> bool): Bits
    requires forall x, y, z | x < 5 && y < 5 && z < 64 :: f.requires(x, y, z)
  {
    var s: seq<bool> := seq(1600, i requires 0 <= i < 1600 => f(i / 64 % 5, i / 320, i % 64));
    s
  }

  lemma Place(x: nat, y: nat, z: nat)
    requires x < 5 && y < 5 && z < 64
    ensures var i := 64 * (5 * y + x) + z;
            i < 1600 && i / 64 % 5 == x && i / 320 == y && i % 64 == z && i / 64 == 5 * y + x
  {
    var i := 64 * (5 * y + x) + z;
    Words.DivModUnique(i, 64, 5 * y + x, z);
    Words.DivModUnique(5 * y + x, 5, y, x);
    Words.DivModUnique(i, 320, y, 64 * x + z);
  }

  lemma Places(i: nat)
    requires i < 1600
    ensures i == 64 * (5 * (i / 320) + i / 64 % 5) + i % 64 && i / 320 < 5
  {
    var j := i / 64;
    Words.DivModUnique(i, 320, j / 5, 64 * (j % 5) + i % 64);
  }

  // The state of the code as a bit string.
  function StateBits(a: Lanes): Bits {
    FromBits((x: nat, y: nat, z: nat) requires x < 5 && y < 5 && z < 64 => Bit(Lane(a, x, y), z))
  }

  lemma StateBit(a: Lanes, x: nat, y: nat, z: nat)
    requires x < 5 && y < 5 && z < 64
    ensures A(StateBits(a), x, y, z) == Bit(Lane(a, x, y), z)
  {
    hide Bit, Lane;
    Place(x, y, z);
  }

  // Two states with the same bits in every place are the same.
  lemma SamePlaces(s: Bits, t: Bits)
    requires forall x: nat, y: nat, z: nat | x < 5 && y < 5 && z < 64 :: A(s, x, y, z) == A(t, x, y, z)
    ensures s == t
  {
    forall i: nat | i < 1600
      ensures s[i] == t[i]
    {
      Places(i);
      assert A(s, i / 64 % 5, i / 320, i % 64) == A(t, i / 64 % 5, i / 320, i % 64);
    }
  }

  // ---------------------------------------------------------------- the step mappings on bits, section 3.2

  // C[x, z]
  function C(s: Bits, x: nat, z: nat): bool
    requires x < 5 && z < 64
  {
    (((A(s, x, 0, z) != A(s, x, 1, z)) != A(s, x, 2, z)) != A(s, x, 3, z)) != A(s, x, 4, z)
  }

  function ThetaBits(s: Bits): Bits {
    FromBits((x: nat, y: nat, z: nat) requires x < 5 && y < 5 && z < 64 =>
      A(s, x, y, z) != (C(s, (x + 4) % 5, z) != C(s, (x + 1) % 5, (z + 63) % 64)))
  }

  function RhoBits(s: Bits): Bits {
    FromBits((x: nat, y: nat, z: nat) requires x < 5 && y < 5 && z < 64 =>
      A(s, x, y, (z + 64 - RhoOffset(x, y)) % 64))
  }

  function PiBits(s: Bits): Bits {
    FromBits((x: nat, y: nat, z: nat) requires x < 5 && y < 5 && z < 64 => A(s, (x + 3 * y) % 5, x, z))
  }

  predicate ChiBit(s: Bits, x: nat, y: nat, z: nat)
    requires x < 5 && y < 5 && z < 64
  {
    A(s, x, y, z) != (!A(s, (x + 1) % 5, y, z) && A(s, (x + 2) % 5, y, z))
  }

  function ChiBits(s: Bits): Bits {
    FromBits((x: nat, y: nat, z: nat) requires x < 5 && y < 5 && z < 64 => ChiBit(s, x, y, z))
  }

  lemma FromBitsAt(f: (nat, nat, nat) --> bool, x: nat, y: nat, z: nat)
    requires forall x, y, z | x < 5 && y < 5 && z < 64 :: f.requires(x, y, z)
    requires x < 5 && y < 5 && z < 64
    ensures A(FromBits(f), x, y, z) == f(x, y, z)
  {
    Place(x, y, z);
  }

  lemma LaneAt(x: nat, y: nat)
    requires x < 5 && y < 5
    ensures (x + 5 * y) % 5 == x && (x + 5 * y) / 5 == y
  {
    Words.DivModUnique(x + 5 * y, 5, y, x);
  }

  lemma FiveXored(l0: u64, l1: u64, l2: u64, l3: u64, l4: u64, z: nat)
    ensures Bit(Xor(Xor(Xor(Xor(l0, l1), l2), l3), l4), z)
         == ((((Bit(l0, z) != Bit(l1, z)) != Bit(l2, z)) != Bit(l3, z)) != Bit(l4, z))
  {
    hide *;
    OpBits(l0, l1, z);
    OpBits(Xor(l0, l1), l2, z);
    OpBits(Xor(Xor(l0, l1), l2), l3, z);
    OpBits(Xor(Xor(Xor(l0, l1), l2), l3), l4, z);
  }

  lemma ParityBit(a: Lanes, x: nat, z: nat)
    requires x < 5 && z < 64
    ensures Bit(Parity(a, x), z) == C(StateBits(a), x, z)
  {
    hide Xor, Bit, A, StateBits, Lane;
    FiveXored(Lane(a, x, 0), Lane(a, x, 1), Lane(a, x, 2), Lane(a, x, 3), Lane(a, x, 4), z);
    StateBit(a, x, 0, z);
    StateBit(a, x, 1, z);
    StateBit(a, x, 2, z);
    StateBit(a, x, 3, z);
    StateBit(a, x, 4, z);
  }

  lemma ThetaOnBits(a: Lanes)
    ensures StateBits(Theta(a)) == ThetaBits(StateBits(a))
  {
    hide Theta, Xor, Rot, Bit, Parity, C;
    var s := StateBits(a);
    forall x: nat, y: nat, z: nat | x < 5 && y < 5 && z < 64
      ensures A(StateBits(Theta(a)), x, y, z) == A(ThetaBits(s), x, y, z)
    {
      ThetaBitAt(a, x, y, z);
    }
    SamePlaces(StateBits(Theta(a)), ThetaBits(s));
  }

  lemma ThetaBitAt(a: Lanes, x: nat, y: nat, z: nat)
    requires x < 5 && y < 5 && z < 64
    ensures A(StateBits(Theta(a)), x, y, z) == A(ThetaBits(StateBits(a)), x, y, z)
  {
    hide Theta, Xor, Rot, Bit, Parity, C, StateBits, A;
    var s := StateBits(a);
    FromBitsAt((x: nat, y: nat, z: nat) requires x < 5 && y < 5 && z < 64 =>
      A(s, x, y, z) != (C(s, (x + 4) % 5, z) != C(s, (x + 1) % 5, (z + 63) % 64)), x, y, z);
    LaneAt(x, y);
    StateBit(Theta(a), x, y, z);
    StateBit(a, x, y, z);
    ThetaAt(a, x + 5 * y);
    var left, right := Parity(a, (x + 4) % 5), Parity(a, (x + 1) % 5);
    OpBits(Lane(a, x, y), Xor(left, Rot(right, 1)), z);
    OpBits(left, Rot(right, 1), z);
    RotBit(right, 1, z);
    ParityBit(a, (x + 4) % 5, z);
    ParityBit(a, (x + 1) % 5, (z + 63) % 64);
  }

  lemma RhoOnBits(a: Lanes)
    ensures StateBits(Rho(a)) == RhoBits(StateBits(a))
  {
    hide *;
    forall x: nat, y: nat, z: nat | x < 5 && y < 5 && z < 64
      ensures A(StateBits(Rho(a)), x, y, z) == A(RhoBits(StateBits(a)), x, y, z)
    {
      RhoBitAt(a, x, y, z);
    }
    SamePlaces(StateBits(Rho(a)), RhoBits(StateBits(a)));
  }

  lemma RhoBitAt(a: Lanes, x: nat, y: nat, z: nat)
    requires x < 5 && y < 5 && z < 64
    ensures A(StateBits(Rho(a)), x, y, z) == A(RhoBits(StateBits(a)), x, y, z)
  {
    hide Rho, Rot, Bit, StateBits, A, RhoOffset;
    var s, n := StateBits(a), RhoOffset(x, y);
    FromBitsAt((x: nat, y: nat, z: nat) requires x < 5 && y < 5 && z < 64 =>
      A(s, x, y, (z + 64 - RhoOffset(x, y)) % 64), x, y, z);
    LaneAt(x, y);
    StateBit(Rho(a), x, y, z);
    RhoAt(a, x + 5 * y);
    RotBit(a[x + 5 * y], n, z);
    StateBit(a, x, y, (z + 64 - n) % 64);
  }

  lemma PiOnBits(a: Lanes)
    ensures StateBits(Pi(a)) == PiBits(StateBits(a))
  {
    hide *;
    forall x: nat, y: nat, z: nat | x < 5 && y < 5 && z < 64
      ensures A(StateBits(Pi(a)), x, y, z) == A(PiBits(StateBits(a)), x, y, z)
    {
      PiBitAt(a, x, y, z);
    }
    SamePlaces(StateBits(Pi(a)), PiBits(StateBits(a)));
  }

  lemma PiBitAt(a: Lanes, x: nat, y: nat, z: nat)
    requires x < 5 && y < 5 && z < 64
    ensures A(StateBits(Pi(a)), x, y, z) == A(PiBits(StateBits(a)), x, y, z)
  {
    hide Pi, Bit, StateBits, A;
    var s := StateBits(a);
    FromBitsAt((x: nat, y: nat, z: nat) requires x < 5 && y < 5 && z < 64 => A(s, (x + 3 * y) % 5, x, z), x, y, z);
    LaneAt(x, y);
    StateBit(Pi(a), x, y, z);
    PiAt(a, x + 5 * y);
    StateBit(a, (x + 3 * y) % 5, x, z);
  }

  lemma ChiOnBits(a: Lanes)
    ensures StateBits(Chi(a)) == ChiBits(StateBits(a))
  {
    hide *;
    forall x: nat, y: nat, z: nat | x < 5 && y < 5 && z < 64
      ensures A(StateBits(Chi(a)), x, y, z) == A(ChiBits(StateBits(a)), x, y, z)
    {
      ChiBitAt(a, x, y, z);
    }
    SamePlaces(StateBits(Chi(a)), ChiBits(StateBits(a)));
  }

  lemma AndNotBit(v: u64, w: u64, z: nat)
    requires z < 64
    ensures Bit(AndNot(v, w), z) == (!Bit(v, z) && Bit(w, z))
  {
    AndNotIs(v, w);
    hide *;
    OpBits(Not(v), w, z);
    NotBit(v, z);
  }

  lemma AndNotIs(v: u64, w: u64)
    ensures AndNot(v, w) == And(Not(v), w)
  {
  }

  lemma ChiAt(a: Lanes, x: nat, y: nat)
    requires x < 5 && y < 5
    ensures Lane(Chi(a), x, y) == Xor(Lane(a, x, y), AndNot(Lane(a, (x + 1) % 5, y), Lane(a, (x + 2) % 5, y)))
  {
    hide Xor, AndNot;
    LaneAt(x, y);
  }

  lemma ChiBitsAt(s: Bits, x: nat, y: nat, z: nat)
    requires x < 5 && y < 5 && z < 64
    ensures A(ChiBits(s), x, y, z) == ChiBit(s, x, y, z)
  {
    hide A, FromBits, ChiBit;
    FromBitsAt((x: nat, y: nat, z: nat) requires x < 5 && y < 5 && z < 64 => ChiBit(s, x, y, z), x, y, z);
  }

  lemma ChiBitAt(a: Lanes, x: nat, y: nat, z: nat)
    requires x < 5 && y < 5 && z < 64
    ensures A(StateBits(Chi(a)), x, y, z) == A(ChiBits(StateBits(a)), x, y, z)
  {
    hide Chi, Bit, StateBits, A, Xor, AndNot, Lane, ChiBits;
    ChiBitsAt(StateBits(a), x, y, z);
    ChiAt(a, x, y);
    var next, last := Lane(a, (x + 1) % 5, y), Lane(a, (x + 2) % 5, y);
    OpBits(Lane(a, x, y), AndNot(next, last), z);
    AndNotBit(next, last, z);
    StateBit(Chi(a), x, y, z);
    StateBit(a, x, y, z);
    StateBit(a, (x + 1) % 5, y, z);
    StateBit(a, (x + 2) % 5, y, z);
  }

  // ---------------------------------------------------------------- the round constants, section 3.2.5

  // The shift register of algorithm 5.
  datatype Register8 = Register8(r0: bool, r1: bool, r2: bool, r3: bool, r4: bool, r5: bool, r6: bool, r7: bool)

  // The bits move up by one, and the last one comes in at positions 0, 4, 5 and 6.
  function Shifted(r: Register8): Register8 {
    Register8(r.r7, r.r0, r.r1, r.r2, r.r3 != r.r7, r.r4 != r.r7, r.r5 != r.r7, r.r6)
  }

  function Register(t: nat): Register8 {
    if t == 0 then Register8(true, false, false, false, false, false, false, false)
    else Shifted(Register(t - 1))
  }

  // rc(t)
  predicate Rc(t: nat) {
    Register(t).r0
  }

  // Bit z of the constant of round n: positions 2^j - 1 hold rc(j + 7n).
  predicate RoundBit(n: nat, z: nat) {
    || (z == 0 && Rc(7 * n)) || (z == 1 && Rc(7 * n + 1)) || (z == 3 && Rc(7 * n + 2)) || (z == 7 && Rc(7 * n + 3))
    || (z == 15 && Rc(7 * n + 4)) || (z == 31 && Rc(7 * n + 5)) || (z == 63 && Rc(7 * n + 6))
  }

  function IotaBits(s: Bits, n: nat): Bits {
    FromBits((x: nat, y: nat, z: nat) requires x < 5 && y < 5 && z < 64 =>
      if x == 0 && y == 0 then A(s, 0, 0, z) != RoundBit(n, z) else A(s, x, y, z))
  }

  // A word with a single bit.
  lemma HalfSingle(w: u64)
    requires w & (w - 1) == 0 && w != 0 && w != 1
    ensures !Odd(w) && Half(w) & (Half(w) - 1) == 0
  {
  }

  lemma {:induction false} SingleBit(w: u64, m: nat, z: nat)
    requires w & (w - 1) == 0 && Halves(w, m) == 1
    ensures Bit(w, z) == (z == m)
    decreases m
  {
    hide Odd, Half;
    if m == 0 {
      assert w == 1;
      OneBit(z);
    } else {
      HalvesOfZero(m);
      OneHalved(m);
      HalfSingle(w);
      if z > 0 {
        SingleBit(Half(w), m - 1, z - 1);
      }
    }
  }

  lemma OneHalved(m: nat)
    requires m > 0
    ensures Halves(1, m) == 0
  {
    assert Half(1) == 0;
    HalvesOfZero(m - 1);
  }

  lemma OneBit(z: nat)
    ensures Bit(1, z) == (z == 0)
  {
    if z > 0 {
      OneHalved(z);
    }
  }

  lemma ZeroBit(z: nat)
    ensures !Bit(0, z)
  {
    HalvesOfZero(z);
  }

  lemma MaskShifts()
    ensures Half(0x2) == 1 && Half(0x8) == 4 && Half(4) == 2 && Shift4(0x80) == 8 && Shift8(0x8000) == 0x80
    ensures Shift16(0x8000_0000) == 0x8000 && Top(0x8000_0000_0000_0000) == 1
  {
  }

  // Where the seven masks have their bit.
  lemma MaskHalves()
    ensures Halves(0x2, 1) == 1 && Halves(0x8, 3) == 1 && Halves(0x80, 7) == 1 && Halves(0x8000, 15) == 1
    ensures Halves(0x8000_0000, 31) == 1 && Halves(0x8000_0000_0000_0000, 63) == 1
  {
    hide *;
    MaskShifts();
    TopHalves(0x8000_0000_0000_0000);
    ThreeHalves(0x8);
    HalvesAdd(0x80, 4, 3);
    FourHalves(0x80);
    HalvesAdd(0x8000, 8, 7);
    EightHalves(0x8000);
    HalvesAdd(0x8000_0000, 16, 15);
    SixteenHalves(0x8000_0000);
    TwoHalves(0x2);
  }

  lemma ThreeHalves(w: u64)
    ensures Halves(w, 3) == Half(Half(Half(w)))
  {
    hide Half;
    TwoHalves(Half(w));
    assert Halves(w, 3) == Halves(Half(w), 2);
    HalfTwice(Half(w));
  }

  function If(b: bool, w: u64): u64 {
    if b then w else 0
  }

  lemma IfBit(b: bool, w: u64, m: nat, z: nat)
    requires w & (w - 1) == 0 && Halves(w, m) == 1
    ensures Bit(If(b, w), z) == (b && z == m)
  {
    hide Bit, Halves;
    if b {
      SingleBit(w, m, z);
    } else {
      ZeroBit(z);
    }
  }

  // The constant with the given bits at positions 0, 1, 3, 7, 15, 31 and 63.
  function Constant(b0: bool, b1: bool, b2: bool, b3: bool, b4: bool, b5: bool, b6: bool): u64 {
    Or(If(b0, 0x1), Or(If(b1, 0x2), Or(If(b2, 0x8), Or(If(b3, 0x80),
      Or(If(b4, 0x8000), Or(If(b5, 0x8000_0000), If(b6, 0x8000_0000_0000_0000)))))))
  }

  lemma SevenOrs(v0: u64, v1: u64, v2: u64, v3: u64, v4: u64, v5: u64, v6: u64, z: nat)
    ensures Bit(Or(v0, Or(v1, Or(v2, Or(v3, Or(v4, Or(v5, v6)))))), z)
         == (Bit(v0, z) || Bit(v1, z) || Bit(v2, z) || Bit(v3, z) || Bit(v4, z) || Bit(v5, z) || Bit(v6, z))
  {
    hide *;
    OpBits(v5, v6, z);
    OpBits(v4, Or(v5, v6), z);
    OpBits(v3, Or(v4, Or(v5, v6)), z);
    OpBits(v2, Or(v3, Or(v4, Or(v5, v6))), z);
    OpBits(v1, Or(v2, Or(v3, Or(v4, Or(v5, v6)))), z);
    OpBits(v0, Or(v1, Or(v2, Or(v3, Or(v4, Or(v5, v6))))), z);
  }

  lemma ConstantBit(b0: bool, b1: bool, b2: bool, b3: bool, b4: bool, b5: bool, b6: bool, z: nat)
    ensures Bit(Constant(b0, b1, b2, b3, b4, b5, b6), z)
         == ((b0 && z == 0) || (b1 && z == 1) || (b2 && z == 3) || (b3 && z == 7) || (b4 && z == 15)
             || (b5 && z == 31) || (b6 && z == 63))
  {
    hide Or, If, Bit, Halves;
    MaskHalves();
    NoHalves(0x1);
    IfBit(b0, 0x1, 0, z);
    IfBit(b1, 0x2, 1, z);
    IfBit(b2, 0x8, 3, z);
    IfBit(b3, 0x80, 7, z);
    IfBit(b4, 0x8000, 15, z);
    IfBit(b5, 0x8000_0000, 31, z);
    IfBit(b6, 0x8000_0000_0000_0000, 63, z);
    SevenOrs(If(b0, 0x1), If(b1, 0x2), If(b2, 0x8), If(b3, 0x80), If(b4, 0x8000), If(b5, 0x8000_0000),
             If(b6, 0x8000_0000_0000_0000), z);
  }

  // The register with these bits, r0 first.
  function R(r0: nat, r1: nat, r2: nat, r3: nat, r4: nat, r5: nat, r6: nat, r7: nat): Register8 {
    Register8(r0 == 1, r1 == 1, r2 == 1, r3 == 1, r4 == 1, r5 == 1, r6 == 1, r7 == 1)
  }

  function Shifts(r: Register8, n: nat): Register8
    decreases n
  {
    if n == 0 then r else Shifts(Shifted(r), n - 1)
  }

  lemma {:induction false} RegisterShifts(t: nat, n: nat)
    ensures Register(t + n) == Shifts(Register(t), n)
    decreases n
  {
    if n > 0 {
      RegisterShifts(t + 1, n - 1);
    }
  }

  // The constant that seven steps of the register from r on make.
  function FromRegister(r: Register8): u64 {
    Constant(r.r0, Shifts(r, 1).r0, Shifts(r, 2).r0, Shifts(r, 3).r0, Shifts(r, 4).r0, Shifts(r, 5).r0, Shifts(r, 6).r0)
  }

  // Seven steps lead from r to next and make the constant w.
  predicate Row(r: Register8, next: Register8, w: u64) {
    Shifts(r, 7) == next && FromRegister(r) == w
  }

  // The bits of w are those of the constant of round n.
  ghost predicate HasRoundBits(w: u64, n: nat) {
    forall z: nat | z < 64 :: Bit(w, z) == RoundBit(n, z)
  }

  lemma SevenSteps(t: nat)
    ensures Register(t + 1) == Shifts(Register(t), 1)
    ensures Register(t + 2) == Shifts(Register(t), 2)
    ensures Register(t + 3) == Shifts(Register(t), 3)
    ensures Register(t + 4) == Shifts(Register(t), 4)
    ensures Register(t + 5) == Shifts(Register(t), 5)
    ensures Register(t + 6) == Shifts(Register(t), 6)
    ensures Register(t + 7) == Shifts(Register(t), 7)
  {
    hide *;
    RegisterShifts(t, 1);
    RegisterShifts(t, 2);
    RegisterShifts(t, 3);
    RegisterShifts(t, 4);
    RegisterShifts(t, 5);
    RegisterShifts(t, 6);
    RegisterShifts(t, 7);
  }

  lemma SevenBits(t: nat)
    ensures FromRegister(Register(t))
         == Constant(Rc(t), Rc(t + 1), Rc(t + 2), Rc(t + 3), Rc(t + 4), Rc(t + 5), Rc(t + 6))
  {
    hide Register, Shifts, Constant;
    SevenSteps(t);
  }

  lemma ConstantOfRound(n: nat, z: nat)
    requires z < 64
    ensures Bit(FromRegister(Register(7 * n)), z) == RoundBit(n, z)
  {
    hide Register, Constant, Bit, FromRegister, Rc;
    var t := 7 * n;
    SevenBits(t);
    ConstantBit(Rc(t), Rc(t + 1), Rc(t + 2), Rc(t + 3), Rc(t + 4), Rc(t + 5), Rc(t + 6), z);
  }

  // The constant of round n, and the register after it.
  lemma RoundMade(n: nat, r: Register8, next: Register8, w: u64)
    requires Register(7 * n) == r && Row(r, next, w)
    ensures HasRoundBits(w, n) && Register(7 * n + 7) == next
  {
    hide Register, Shifts, FromRegister, Bit, RoundBit;
    SevenSteps(7 * n);
    forall z: nat | z < 64
      ensures Bit(w, z) == RoundBit(n, z)
    {
      ConstantOfRound(n, z);
    }
  }

  // The register before every round, and after the last.
  const REGISTERS: seq<Register8> := [
    R(1, 0, 0, 0, 0, 0, 0, 0), R(0, 0, 0, 0, 0, 0, 0, 1),
    R(0, 0, 0, 1, 1, 0, 1, 1), R(0, 1, 0, 1, 1, 0, 0, 0),
    R(1, 1, 1, 1, 1, 0, 1, 1), R(1, 0, 0, 1, 0, 0, 0, 0),
    R(1, 0, 1, 0, 1, 1, 0, 0), R(1, 1, 1, 1, 0, 0, 1, 0),
    R(0, 1, 0, 1, 0, 0, 1, 1), R(0, 0, 0, 0, 1, 1, 1, 0),
    R(1, 0, 0, 0, 0, 0, 1, 0), R(0, 0, 1, 1, 0, 1, 1, 1),
    R(1, 0, 1, 0, 1, 0, 1, 1), R(1, 0, 1, 1, 0, 0, 1, 1),
    R(1, 1, 0, 0, 0, 1, 1, 0), R(1, 1, 0, 1, 0, 1, 0, 1),
    R(0, 1, 0, 1, 0, 1, 0, 1), R(0, 1, 0, 1, 0, 1, 0, 0),
    R(0, 1, 0, 0, 1, 1, 1, 1), R(0, 0, 0, 1, 0, 1, 1, 1),
    R(1, 1, 1, 0, 1, 1, 0, 0), R(0, 1, 1, 1, 1, 1, 0, 0),
    R(1, 1, 0, 1, 0, 0, 0, 0), R(0, 0, 1, 0, 0, 0, 1, 0),
    R(0, 1, 1, 1, 0, 0, 0, 1)]

  predicate RowAt(n: nat) {
    n < 24 && Row(REGISTERS[n], REGISTERS[n + 1], ROUND_CONSTANTS[n])
  }

  lemma Rows0To3()
    ensures Row(R(1, 0, 0, 0, 0, 0, 0, 0), R(0, 0, 0, 0, 0, 0, 0, 1), 0x1)
    ensures Row(R(0, 0, 0, 0, 0, 0, 0, 1), R(0, 0, 0, 1, 1, 0, 1, 1), 0x8082)
    ensures Row(R(0, 0, 0, 1, 1, 0, 1, 1), R(0, 1, 0, 1, 1, 0, 0, 0), 0x800000000000808A)
    ensures Row(R(0, 1, 0, 1, 1, 0, 0, 0), R(1, 1, 1, 1, 1, 0, 1, 1), 0x8000000080008000)
  {
  }

  lemma Rows4To7()
    ensures Row(R(1, 1, 1, 1, 1, 0, 1, 1), R(1, 0, 0, 1, 0, 0, 0, 0), 0x808B)
    ensures Row(R(1, 0, 0, 1, 0, 0, 0, 0), R(1, 0, 1, 0, 1, 1, 0, 0), 0x80000001)
    ensures Row(R(1, 0, 1, 0, 1, 1, 0, 0), R(1, 1, 1, 1, 0, 0, 1, 0), 0x8000000080008081)
    ensures Row(R(1, 1, 1, 1, 0, 0, 1, 0), R(0, 1, 0, 1, 0, 0, 1, 1), 0x8000000000008009)
  {
  }

  lemma Rows8To11()
    ensures Row(R(0, 1, 0, 1, 0, 0, 1, 1), R(0, 0, 0, 0, 1, 1, 1, 0), 0x8A)
    ensures Row(R(0, 0, 0, 0, 1, 1, 1, 0), R(1, 0, 0, 0, 0, 0, 1, 0), 0x88)
    ensures Row(R(1, 0, 0, 0, 0, 0, 1, 0), R(0, 0, 1, 1, 0, 1, 1, 1), 0x80008009)
    ensures Row(R(0, 0, 1, 1, 0, 1, 1, 1), R(1, 0, 1, 0, 1, 0, 1, 1), 0x8000000A)
  {
  }

  lemma Rows12To15()
    ensures Row(R(1, 0, 1, 0, 1, 0, 1, 1), R(1, 0, 1, 1, 0, 0, 1, 1), 0x8000808B)
    ensures Row(R(1, 0, 1, 1, 0, 0, 1, 1), R(1, 1, 0, 0, 0, 1, 1, 0), 0x800000000000008B)
    ensures Row(R(1, 1, 0, 0, 0, 1, 1, 0), R(1, 1, 0, 1, 0, 1, 0, 1), 0x8000000000008089)
    ensures Row(R(1, 1, 0, 1, 0, 1, 0, 1), R(0, 1, 0, 1, 0, 1, 0, 1), 0x8000000000008003)
  {
  }

  lemma Rows16To19()
    ensures Row(R(0, 1, 0, 1, 0, 1, 0, 1), R(0, 1, 0, 1, 0, 1, 0, 0), 0x8000000000008002)
    ensures Row(R(0, 1, 0, 1, 0, 1, 0, 0), R(0, 1, 0, 0, 1, 1, 1, 1), 0x8000000000000080)
    ensures Row(R(0, 1, 0, 0, 1, 1, 1, 1), R(0, 0, 0, 1, 0, 1, 1, 1), 0x800A)
    ensures Row(R(0, 0, 0, 1, 0, 1, 1, 1), R(1, 1, 1, 0, 1, 1, 0, 0), 0x800000008000000A)
  {
  }

  lemma Rows20To23()
    ensures Row(R(1, 1, 1, 0, 1, 1, 0, 0), R(0, 1, 1, 1, 1, 1, 0, 0), 0x8000000080008081)
    ensures Row(R(0, 1, 1, 1, 1, 1, 0, 0), R(1, 1, 0, 1, 0, 0, 0, 0), 0x8000000000008080)
    ensures Row(R(1, 1, 0, 1, 0, 0, 0, 0), R(0, 0, 1, 0, 0, 0, 1, 0), 0x80000001)
    ensures Row(R(0, 0, 1, 0, 0, 0, 1, 0), R(0, 1, 1, 1, 0, 0, 0, 1), 0x8000000080008008)
  {
  }

  lemma RowsAt0To3()
    ensures RowAt(0)
    ensures RowAt(1)
    ensures RowAt(2)
    ensures RowAt(3)
  {
    hide Row, R;
    Rows0To3();
  }

  lemma RowsAt4To7()
    ensures RowAt(4)
    ensures RowAt(5)
    ensures RowAt(6)
    ensures RowAt(7)
  {
    hide Row, R;
    Rows4To7();
  }

  lemma RowsAt8To11()
    ensures RowAt(8)
    ensures RowAt(9)
    ensures RowAt(10)
    ensures RowAt(11)
  {
    hide Row, R;
    Rows8To11();
  }

  lemma RowsAt12To15()
    ensures RowAt(12)
    ensures RowAt(13)
    ensures RowAt(14)
    ensures RowAt(15)
  {
    hide Row, R;
    Rows12To15();
  }

  lemma RowsAt16To19()
    ensures RowAt(16)
    ensures RowAt(17)
    ensures RowAt(18)
    ensures RowAt(19)
  {
    hide Row, R;
    Rows16To19();
  }

  lemma RowsAt20To23()
    ensures RowAt(20)
    ensures RowAt(21)
    ensures RowAt(22)
    ensures RowAt(23)
  {
    hide Row, R;
    Rows20To23();
  }

  lemma EveryRow(n: nat)
    requires n < 24
    ensures RowAt(n)
  {
    hide *;
    RowsAt0To3();
    RowsAt4To7();
    RowsAt8To11();
    RowsAt12To15();
    RowsAt16To19();
    RowsAt20To23();
  }

  lemma {:induction false} RegisterReached(n: nat)
    requires n <= 24
    ensures Register(7 * n) == REGISTERS[n]
  {
    hide Row;
    if n > 0 {
      hide R;
      assert 7 * (n - 1) + 7 == 7 * n;
      RegisterReached(n - 1);
      EveryRow(n - 1);
      RoundMade(n - 1, REGISTERS[n - 1], REGISTERS[n], ROUND_CONSTANTS[n - 1]);
    }
  }

  // Every constant of the table is the one that the shift register makes.
  lemma RoundConstants(n: nat, z: nat)
    requires n < 24 && z < 64
    ensures Bit(ROUND_CONSTANTS[n], z) == RoundBit(n, z)
  {
    hide Bit, RoundBit, Register, Row, R;
    RegisterReached(n);
    EveryRow(n);
    RoundMade(n, REGISTERS[n], REGISTERS[n + 1], ROUND_CONSTANTS[n]);
  }

  lemma IotaOnBits(a: Lanes, n: nat)
    requires n < 24
    ensures StateBits(Iota(a, n)) == IotaBits(StateBits(a), n)
  {
    hide *;
    forall x: nat, y: nat, z: nat | x < 5 && y < 5 && z < 64
      ensures A(StateBits(Iota(a, n)), x, y, z) == A(IotaBits(StateBits(a), n), x, y, z)
    {
      IotaBitAt(a, n, x, y, z);
    }
    SamePlaces(StateBits(Iota(a, n)), IotaBits(StateBits(a), n));
  }

  lemma IotaBitAt(a: Lanes, n: nat, x: nat, y: nat, z: nat)
    requires n < 24 && x < 5 && y < 5 && z < 64
    ensures A(StateBits(Iota(a, n)), x, y, z) == A(IotaBits(StateBits(a), n), x, y, z)
  {
    hide Bit, StateBits, A, Xor, RoundBit;
    var s := StateBits(a);
    FromBitsAt((x: nat, y: nat, z: nat) requires x < 5 && y < 5 && z < 64 =>
      if x == 0 && y == 0 then A(s, 0, 0, z) != RoundBit(n, z) else A(s, x, y, z), x, y, z);
    StateBit(Iota(a, n), x, y, z);
    StateBit(a, x, y, z);
    OpBits(a[0], ROUND_CONSTANTS[n], z);
    RoundConstants(n, z);
  }

  // ---------------------------------------------------------------- whole rounds

  function RoundOnBits(s: Bits, n: nat): Bits {
    IotaBits(ChiBits(PiBits(RhoBits(ThetaBits(s)))), n)
  }

  function RoundsOnBits(s: Bits, n: nat): Bits {
    if n == 0 then s else RoundOnBits(RoundsOnBits(s, n - 1), n - 1)
  }

  // The rounds that the code computes on words are those of the standard on bits.
  lemma {:induction false} RoundsAreStandard(a: Lanes, n: nat)
    requires n <= 24
    ensures StateBits(Rounds(a, n)) == RoundsOnBits(StateBits(a), n)
  {
    hide StateBits, Theta, Rho, Pi, Chi, Iota, ThetaBits, RhoBits, PiBits, ChiBits, IotaBits;
    if n > 0 {
      RoundsAreStandard(a, n - 1);
      var b := Rounds(a, n - 1);
      ThetaOnBits(b);
      RhoOnBits(Theta(b));
      PiOnBits(Rho(Theta(b)));
      ChiOnBits(Pi(Rho(Theta(b))));
      IotaOnBits(Chi(Pi(Rho(Theta(b)))), n - 1);
    }
  }
}
