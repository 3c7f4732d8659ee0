// Machine words shared by the models. Fixed-width values that are only shifted, masked
// and combined bitwise are bit-vectors; lengths and counters are integers and their
// wrap-around is written out where the code relies on it.
module Words {
  type u8 = bv8
  type u32 = bv32
  type u64 = bv64

  const TWO31: int := 0x8000_0000
  const TWO32: nat := 0x1_0000_0000
  const TWO64: nat := 0x1_0000_0000_0000_0000

  // Bytes and 32- and 64-bit words as numbers, for code that multiplies or counts with them.
  type Byte = x: nat | x < 256
  type Word32 = x: nat | x < TWO32
  type Word64 = x: nat | x < TWO64

  // Bitwise exclusive or of two natural numbers, bit by bit.
  function Xor(x: nat, y: nat): nat
    decreases x + y
  {
    if x == 0 && y == 0 then 0 else 2 * Xor(x / 2, y / 2) + (x + y) % 2
  }

  lemma {:induction false} XorBound(x: nat, y: nat, b: nat)
    requires x < Pow2(b) && y < Pow2(b)
    ensures Xor(x, y) < Pow2(b)
  {
    if b > 0 && (x != 0 || y != 0) {
      XorBound(x / 2, y / 2, b - 1);
    }
  }

  function Pow2(k: nat): (p: nat)
    ensures p > 0
  {
    if k == 0 then 1 else 2 * Pow2(k - 1)
  }

  lemma Pow64()
    ensures Pow2(64) == TWO64
  {
    assert Pow2(8) == 0x100;
    assert Pow2(16) == 0x1_0000;
    assert Pow2(24) == 0x100_0000;
    assert Pow2(32) == TWO32;
    assert Pow2(40) == 0x100_0000_0000;
    assert Pow2(48) == 0x1_0000_0000_0000;
    assert Pow2(56) == 0x100_0000_0000_0000;
  }

  // The 64-bit exclusive or.
  function Xor64(x: Word64, y: Word64): Word64 {
    Pow64();
    XorBound(x, y, 64);
    Xor(x, y)
  }

  // Halves and last bit of an exclusive or.
  lemma XorParts(x: nat, y: nat)
    ensures Xor(x, y) / 2 == Xor(x / 2, y / 2) && Xor(x, y) % 2 == (x + y) % 2
  {
  }

  lemma {:induction false} XorCancels(x: nat, y: nat)
    ensures Xor(Xor(x, y), y) == x
    decreases x + y
  {
    hide Xor;
    if x != 0 || y != 0 {
      XorCancels(x / 2, y / 2);
      XorParts(x, y);
      XorParts(Xor(x, y), y);
    } else {
      XorZero();
    }
  }

  lemma XorZero()
    ensures Xor(0, 0) == 0
  {
  }

  lemma {:induction false} PowAdds(a: nat, b: nat)
    ensures Pow2(a + b) == Pow2(a) * Pow2(b)
  {
    if a > 0 {
      PowAdds(a - 1, b);
    }
  }

  // Moving the low digit of a number in front of its high digit, in a two-digit numeral whose
  // digits are below p (low) and q (high).
  function Rotate(x: nat, p: nat, q: nat): nat
    requires p > 0
  {
    q * (x % p) + x / p
  }

  lemma QuotientBound(x: nat, p: nat, q: nat)
    requires p > 0 && x < p * q
    ensures x / p < q
  {
    var d := x / p;
    assert x >= p * d;
    if d >= q {
      MulMonotone(p, q, d);
    }
  }

  lemma MulMonotone(a: nat, b: nat, c: nat)
    requires b <= c
    ensures a * b <= a * c
  {
  }

  lemma RotateBound(x: nat, p: nat, q: nat)
    requires p > 0 && q > 0 && x < p * q
    ensures Rotate(x, p, q) < p * q && x / p < q
  {
    QuotientBound(x, p, q);
    MulMonotone(q, x % p, p - 1);
    assert q * (p - 1) == p * q - q;
  }

  lemma RotateBack(x: nat, p: nat, q: nat)
    requires p > 0 && q > 0 && x < p * q
    ensures Rotate(Rotate(x, p, q), q, p) == x
  {
    RotateBound(x, p, q);
    DivModUnique(Rotate(x, p, q), q, x % p, x / p);
  }

  lemma RotationWeights(n: nat)
    requires n <= 64
    ensures Pow2(64 - n) * Pow2(n) == TWO64 && Pow2(n) * Pow2(64 - n) == TWO64
  {
    PowAdds(64 - n, n);
    Pow64();
  }

  // The 64-bit rotation: x << n and x >> (64 - n) share no bits, so their bitwise or is a sum.
  function RotL(x: Word64, n: nat): Word64
    requires n <= 64
  {
    RotationWeights(n);
    RotateBound(x, Pow2(64 - n), Pow2(n));
    Rotate(x, Pow2(64 - n), Pow2(n))
  }

  function RotR(x: Word64, n: nat): Word64
    requires n <= 64
  {
    RotL(x, 64 - n)
  }

  lemma RotCancels(x: Word64, n: nat)
    requires n <= 64
    ensures RotR(RotL(x, n), n) == x && RotL(RotR(x, n), n) == x
  {
    RotationWeights(n);
    RotateBack(x, Pow2(64 - n), Pow2(n));
    RotateBack(x, Pow2(n), Pow2(64 - n));
  }

  // The 64-bit wrapping sum and difference.
  function Add64(x: Word64, y: Word64): Word64 {
    (x + y) % TWO64
  }

  function Sub64(x: Word64, y: Word64): Word64 {
    (x + TWO64 - y) % TWO64
  }

  lemma AddCancels(x: Word64, y: Word64)
    ensures Sub64(Add64(x, y), y) == x && Add64(Sub64(x, y), y) == x
  {
  }

  // Bitwise AND of two natural numbers, bit by bit.
  function And(x: nat, m: nat): nat
    decreases m
  {
    if m == 0 then 0 else 2 * And(x / 2, m / 2) + (if x % 2 == 1 && m % 2 == 1 then 1 else 0)
  }

  // Binary digit k of x.
  predicate BitOf(x: nat, k: nat) {
    if k == 0 then x % 2 == 1 else BitOf(x / 2, k - 1)
  }

  // The bitwise operations work digit by digit.
  lemma {:induction false} XorBits(x: nat, y: nat, k: nat)
    ensures BitOf(Xor(x, y), k) == (BitOf(x, k) != BitOf(y, k))
    decreases k
  {
    hide Xor;
    XorParts(x, y);
    if k > 0 {
      XorBits(x / 2, y / 2, k - 1);
    }
  }

  lemma {:induction false} AndBits(x: nat, m: nat, k: nat)
    ensures BitOf(And(x, m), k) == (BitOf(x, k) && BitOf(m, k))
    decreases k
  {
    if k > 0 {
      AndBits(x / 2, m / 2, k - 1);
    }
  }

  // A masked value never exceeds its mask.
  lemma {:induction false} AndBound(x: nat, m: nat)
    ensures And(x, m) <= m
    decreases m
  {
    if m != 0 {
      AndBound(x / 2, m / 2);
    }
  }

  // The lowest k bits of m are clear.
  predicate LowBitsClear(m: nat, k: nat)
    decreases k
  {
    k == 0 || (m % 2 == 0 && LowBitsClear(m / 2, k - 1))
  }

  lemma NoLowBits(m: nat)
    ensures LowBitsClear(m, 0)
  {
  }

  lemma Double(h: nat, k: nat)
    requires LowBitsClear(h, k)
    ensures LowBitsClear(2 * h, k + 1)
  {
  }

  lemma Halve(m: nat, k: nat) returns (h: nat)
    requires k > 0 && LowBitsClear(m, k)
    ensures m == 2 * h && LowBitsClear(h, k - 1)
  {
    h := m / 2;
  }

  lemma {:induction false} AndLowBits(x: nat, m: nat, k: nat)
    requires LowBitsClear(m, k)
    ensures LowBitsClear(And(x, m), k)
    decreases k
  {
    if k != 0 && m != 0 {
      AndLowBits(x / 2, m / 2, k - 1);
      assert And(x, m) == 2 * And(x / 2, m / 2);
    }
  }

  // A mask whose low four bits are clear selects a multiple of sixteen.
  lemma AndSixteen(x: nat, m: nat)
    requires m % 16 == 0
    ensures And(x, m) % 16 == 0
  {
    hide And, LowBitsClear;
    var q := m / 16;
    assert LowBitsClear(q, 0) by { NoLowBits(q); }
    var q2 := 2 * q;
    Double(q, 0);
    var q4 := 2 * q2;
    Double(q2, 1);
    var q8 := 2 * q4;
    Double(q4, 2);
    Double(q8, 3);
    assert 2 * q8 == m;
    AndLowBits(x, m, 4);
    var h := Halve(And(x, m), 4);
    h := Halve(h, 3);
    h := Halve(h, 2);
    h := Halve(h, 1);
    MultipleMod(16, h);
    assert And(x, m) == 16 * h;
  }

  lemma MulStrictlyGrows(b: int, q: int)
    requires b > 0 && q >= 1
    ensures b * q >= b
  {
  }

  // Division with remainder is unique.
  lemma DivModUnique(a: int, b: int, q: int, r: int)
    requires b > 0 && 0 <= r < b && a == b * q + r
    ensures a / b == q && a % b == r
  {
    var q', r' := a / b, a % b;
    assert a == b * q' + r';
    if q > q' {
      MulStrictlyGrows(b, q - q');
    } else if q < q' {
      MulStrictlyGrows(b, q' - q);
    }
  }

  lemma MultipleMod(b: int, q: int)
    requires b > 0
    ensures (b * q) % b == 0
  {
    DivModUnique(b * q, b, q, 0);
  }
}
