// 64-bit words as vectors of bits: what the bitwise operators and shifts do to each position.
module WordBits {
  import opened Words

  function Xor(a: u64, b: u64): u64 { a ^ b }
  function And(a: u64, b: u64): u64 { a & b }
  function Or(a: u64, b: u64): u64 { a | b }
  function Not(a: u64): u64 { !a }

  function Half(w: u64): u64 { w >> 1 }
  predicate Odd(w: u64) { w & 1 == 1 }

  function Halves(w: u64, n: nat): u64 {
    if n == 0 then w else Halves(Half(w), n - 1)
  }

  predicate Bit(w: u64, k: nat) {
    Odd(Halves(w, k))
  }

  lemma XorHalf(a: u64, b: u64)
    ensures Half(Xor(a, b)) == Xor(Half(a), Half(b))
  {
  }

  lemma AndHalf(a: u64, b: u64)
    ensures Half(And(a, b)) == And(Half(a), Half(b))
  {
  }

  lemma OrHalf(a: u64, b: u64)
    ensures Half(Or(a, b)) == Or(Half(a), Half(b))
  {
  }

  lemma XorOdd(a: u64, b: u64)
    ensures Odd(Xor(a, b)) == (Odd(a) != Odd(b))
  {
  }

  lemma AndOdd(a: u64, b: u64)
    ensures Odd(And(a, b)) == (Odd(a) && Odd(b))
  {
  }

  lemma OrOdd(a: u64, b: u64)
    ensures Odd(Or(a, b)) == (Odd(a) || Odd(b))
  {
  }

  lemma HalfOps(a: u64, b: u64)
    ensures Half(Xor(a, b)) == Xor(Half(a), Half(b)) && Odd(Xor(a, b)) == (Odd(a) != Odd(b))
    ensures Half(And(a, b)) == And(Half(a), Half(b)) && Odd(And(a, b)) == (Odd(a) && Odd(b))
    ensures Half(Or(a, b)) == Or(Half(a), Half(b)) && Odd(Or(a, b)) == (Odd(a) || Odd(b))
  {
    hide Half, Odd, Xor, And, Or;
    XorHalf(a, b);
    AndHalf(a, b);
    OrHalf(a, b);
    XorOdd(a, b);
    AndOdd(a, b);
    OrOdd(a, b);
  }

  lemma {:induction false} OpBits(a: u64, b: u64, k: nat)
    ensures Bit(Xor(a, b), k) == (Bit(a, k) != Bit(b, k))
    ensures Bit(And(a, b), k) == (Bit(a, k) && Bit(b, k))
    ensures Bit(Or(a, b), k) == (Bit(a, k) || Bit(b, k))
    decreases k
  {
    hide Half, Odd, Xor, And, Or;
    HalfOps(a, b);
    if k > 0 {
      OpBits(Half(a), Half(b), k - 1);
    }
  }

  const ALL_ONES: u64 := 0xFFFF_FFFF_FFFF_FFFF

  lemma {:induction false} HalvesAdd(w: u64, m: nat, n: nat)
    ensures Halves(w, m + n) == Halves(Halves(w, m), n)
    decreases m
  {
    hide Half;
    if m > 0 {
      HalvesAdd(Half(w), m - 1, n);
    }
  }

  function Shift2(w: u64): u64 { w >> 2 }
  function Shift4(w: u64): u64 { w >> 4 }
  function Shift8(w: u64): u64 { w >> 8 }
  function Shift16(w: u64): u64 { w >> 16 }
  function Shift32(w: u64): u64 { w >> 32 }

  lemma FourHalves(w: u64)
    ensures Halves(w, 4) == Shift4(w)
  {
    var h := Half(Half(w));
    assert Halves(w, 4) == Halves(Half(w), 3) == Halves(h, 2) == Halves(Half(h), 1) == Half(Half(h));
  }

  lemma NextHalves(n: nat, r: u64)
    requires Halves(ALL_ONES, n) == r
    ensures Halves(ALL_ONES, n + 16) == Shift4(Shift4(Shift4(Shift4(r))))
  {
    hide Halves, Shift4, ALL_ONES;
    HalvesAdd(ALL_ONES, n, 4);
    FourHalves(r);
    HalvesAdd(ALL_ONES, n + 4, 4);
    FourHalves(Shift4(r));
    HalvesAdd(ALL_ONES, n + 8, 4);
    FourHalves(Shift4(Shift4(r)));
    HalvesAdd(ALL_ONES, n + 12, 4);
    FourHalves(Shift4(Shift4(Shift4(r))));
  }

  lemma NoHalves(w: u64)
    ensures Halves(w, 0) == w
  {
  }

  // A word has sixty-four bits.
  lemma WordLength()
    ensures Halves(ALL_ONES, 63) == 1 && Halves(ALL_ONES, 64) == 0
  {
    hide Halves;
    NoHalves(ALL_ONES);
    NextHalves(0, ALL_ONES);
    NextHalves(16, 0xFFFF_FFFF_FFFF);
    NextHalves(32, 0xFFFF_FFFF);
    NextHalves(48, 0xFFFF);
    HalvesAdd(ALL_ONES, 48, 15);
    LastHalves();
  }

  lemma LastHalves()
    ensures Halves(0x1, 0) == 1 && Halves(0x3, 1) == 1 && Halves(0xF, 3) == 1 && Halves(0xFF, 7) == 1
    ensures Halves(0xFFFF, 15) == 1
  {
    FourHalves(0xFFFF);
    HalvesAdd(0xFFFF, 4, 11);
    FourHalves(0xFFF);
    HalvesAdd(0xFFF, 4, 7);
    FourHalves(0xFF);
    HalvesAdd(0xFF, 4, 3);
    assert Halves(0xF, 3) == Halves(0x7, 2) == Halves(0x3, 1) == Half(0x3);
  }

  predicate AtMost(v: u64, w: u64) { v <= w }

  lemma HalfFalls(v: u64, w: u64)
    requires AtMost(v, w)
    ensures AtMost(Half(v), Half(w))
  {
  }

  lemma HalfRun(w: u64)
    requires w & (w + 1) == 0
    ensures Half(w) & (Half(w) + 1) == 0
  {
  }

  lemma RunOdd(w: u64)
    requires w & (w + 1) == 0 && w != 0
    ensures Odd(w)
  {
  }

  lemma HalfZero()
    ensures Half(0) == 0
  {
  }

  lemma SameHalf(v: u64, w: u64)
    requires Odd(v) == Odd(w) && Half(v) == Half(w)
    ensures v == w
  {
  }

  lemma {:induction false} HalvesFall(v: u64, w: u64, n: nat)
    requires AtMost(v, w)
    ensures AtMost(Halves(v, n), Halves(w, n))
    decreases n
  {
    hide Half, AtMost;
    if n > 0 {
      HalfFalls(v, w);
      HalvesFall(Half(v), Half(w), n - 1);
    }
  }

  lemma {:induction false} HalvesOfZero(n: nat)
    ensures Halves(0, n) == 0
  {
    hide Half;
    HalfZero();
    if n > 0 {
      HalvesOfZero(n - 1);
    }
  }

  lemma {:induction false} RunStays(w: u64, n: nat)
    requires w & (w + 1) == 0
    ensures Halves(w, n) & (Halves(w, n) + 1) == 0
    decreases n
  {
    hide Half;
    HalfRun(w);
    if n > 0 {
      RunStays(Half(w), n - 1);
    }
  }

  // A word of the form 2^m - 1 that is not used up after n halvings has its first bits set.
  lemma RunBits(w: u64, n: nat, k: nat)
    requires w & (w + 1) == 0 && Halves(w, n) != 0 && k <= n
    ensures Bit(w, k)
  {
    hide Half, Odd, Halves;
    HalvesAdd(w, k, n - k);
    HalvesOfZero(n - k);
    RunStays(w, k);
    RunOdd(Halves(w, k));
  }

  lemma OnesBit(k: nat)
    requires k < 64
    ensures Bit(ALL_ONES, k)
  {
    hide Half, Odd, Halves;
    WordLength();
    RunBits(ALL_ONES, 63, k);
  }

  lemma NotBit(a: u64, k: nat)
    requires k < 64
    ensures Bit(Not(a), k) == !Bit(a, k)
  {
    assert Not(a) == Xor(a, ALL_ONES);
    hide *;
    OpBits(a, ALL_ONES, k);
    OnesBit(k);
  }

  lemma {:induction false} SameBitsUpTo(a: u64, b: u64, n: nat)
    requires forall k: nat | k < n :: Bit(a, k) == Bit(b, k)
    requires Halves(a, n) == Halves(b, n)
    ensures a == b
    decreases n
  {
    hide Half, Odd;
    if n > 0 {
      assert Bit(a, 0) == Bit(b, 0);
      forall k: nat | k < n - 1
        ensures Bit(Half(a), k) == Bit(Half(b), k)
      {
        assert Bit(a, k + 1) == Bit(b, k + 1);
      }
      SameBitsUpTo(Half(a), Half(b), n - 1);
      SameHalf(a, b);
    }
  }

  // A word is its bits.
  lemma SameBits(a: u64, b: u64)
    requires forall k: nat | k < 64 :: Bit(a, k) == Bit(b, k)
    ensures a == b
  {
    hide Half, Bit, Halves;
    WordLength();
    HalvesFall(a, ALL_ONES, 64);
    HalvesFall(b, ALL_ONES, 64);
    SameBitsUpTo(a, b, 64);
  }

  lemma HalfTwice(w: u64)
    ensures Half(Half(w)) == Shift2(w)
  {
  }

  lemma Shift4Twice(w: u64)
    ensures Shift4(Shift4(w)) == Shift8(w)
  {
  }

  lemma Shift8Twice(w: u64)
    ensures Shift8(Shift8(w)) == Shift16(w)
  {
  }

  lemma Shift16Twice(w: u64)
    ensures Shift16(Shift16(w)) == Shift32(w)
  {
  }

  lemma TwoHalves(w: u64)
    ensures Halves(w, 1) == Half(w) && Halves(w, 2) == Shift2(w)
  {
    hide Half, Shift2;
    HalfTwice(w);
    assert Halves(w, 1) == Halves(Half(w), 0);
    assert Halves(w, 2) == Halves(Half(w), 1) == Halves(Half(Half(w)), 0);
  }

  lemma EightHalves(w: u64)
    ensures Halves(w, 8) == Shift8(w)
  {
    hide Halves, Shift4, Shift8;
    HalvesAdd(w, 4, 4);
    FourHalves(w);
    FourHalves(Shift4(w));
    Shift4Twice(w);
  }

  lemma SixteenHalves(w: u64)
    ensures Halves(w, 16) == Shift16(w)
  {
    hide Halves, Shift8, Shift16;
    HalvesAdd(w, 8, 8);
    EightHalves(w);
    EightHalves(Shift8(w));
    Shift8Twice(w);
  }

  lemma ThirtyTwoHalves(w: u64)
    ensures Halves(w, 32) == Shift32(w)
  {
    hide Halves, Shift16, Shift32;
    HalvesAdd(w, 16, 16);
    SixteenHalves(w);
    SixteenHalves(Shift16(w));
    Shift16Twice(w);
  }

  lemma LaterBit(w: u64, n: nat, k: nat)
    ensures Bit(Halves(w, n), k) == Bit(w, n + k)
  {
    HalvesAdd(w, n, k);
  }
}
