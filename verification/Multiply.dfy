// The 64x64 -> 128 bit multiplication of the hashing loop: the product it must deliver
// and the four-limb form used where no 128-bit integer type exists.
module Multiply {
  import opened Words

  // The native form: low and high 64-bit halves of the exact product.
  function UMul128(a: Word64, b: Word64): (r: (Word64, Word64))
    ensures r.1 * TWO64 + r.0 == a * b
  {
    MulBounds(a, b, TWO64 - 1, TWO64 - 1);
    var p := a * b;
    (p % TWO64, p / TWO64)
  }

  // hi and lo are the halves of the product.
  predicate IsProduct(hi: Word64, lo: Word64, a: Word64, b: Word64) {
    hi * TWO64 + lo == a * b
  }

  // There is one such pair.
  lemma OneProduct(a: Word64, b: Word64)
    ensures forall hi: Word64, lo: Word64 | IsProduct(hi, lo, a, b) :: UMul128(a, b) == (lo, hi)
  {
    forall hi: Word64, lo: Word64 | IsProduct(hi, lo, a, b)
      ensures UMul128(a, b) == (lo, hi)
    {
      DivModUnique(a * b, TWO64, hi, lo);
    }
  }

  lemma MulBounds(a: int, b: int, m: int, n: int)
    requires 0 <= a <= m && 0 <= b <= n
    ensures 0 <= a * b <= m * n
  {
    assert a * b <= m * b <= m * n;
  }

  // The carry out of a 64-bit sum is visible as a wrapped result below an operand.
  lemma CarryRecovered(x: Word64, y: Word64)
    ensures x + y == (if (x + y) % TWO64 < x then TWO64 else 0) + (x + y) % TWO64
  {
  }

  // The product of two 64-bit numbers, spelt out in 32-bit limbs.
  lemma LimbProduct(a: int, b: int, c: int, d: int)
    ensures (a * TWO32 + b) * (c * TWO32 + d) == (a * c) * TWO64 + (a * d + b * c) * TWO32 + b * d
  {
    var x, y := a * TWO32, c * TWO32;
    assert (x + b) * (y + d) == x * y + x * d + b * y + b * d;
    assert x * d == (a * d) * TWO32;
    assert b * y == (b * c) * TWO32;
    assert x * y == (a * c) * TWO64 by {
      assert x * y == (a * y) * TWO32;
      assert a * y == (a * c) * TWO32;
    }
  }

  // The limb form. Every intermediate sum is reduced modulo 2^64 as the hardware does; each
  // carry is recovered by comparing a wrapped sum with one of its operands.
  method UMul128Limbs(multiplier: Word64, multiplicand: Word64) returns (productLo: Word64, productHi: Word64)
    ensures productHi * TWO64 + productLo == multiplier * multiplicand
  {
    var a, b := multiplier / TWO32, multiplier % TWO32;
    var c, d := multiplicand / TWO32, multiplicand % TWO32;
    MulBounds(a, d, TWO32 - 1, TWO32 - 1);
    MulBounds(b, c, TWO32 - 1, TWO32 - 1);
    MulBounds(b, d, TWO32 - 1, TWO32 - 1);
    MulBounds(a, c, TWO32 - 1, TWO32 - 1);
    MulBounds(multiplier, multiplicand, TWO64 - 1, TWO64 - 1);
    LimbProduct(a, b, c, d);
    productLo, productHi := Combine(a * c, a * d, b * c, b * d, multiplier * multiplicand);
  }

  // Lines 92 to 98 of the limb form, on the four partial products.
  method Combine(ac: Word64, ad: Word64, bc: Word64, bd: Word64, ghost product: nat)
    returns (productLo: Word64, productHi: Word64)
    requires product == ac * TWO64 + (ad + bc) * TWO32 + bd < TWO64 * TWO64
    ensures productHi * TWO64 + productLo == product
  {
    var adbc := (ad + bc) % TWO64;
    var adbcCarry := if adbc < ad then 1 else 0;
    CarryRecovered(ad, bc);
    var shifted := (adbc * TWO32) % TWO64;
    productLo := (bd + shifted) % TWO64;
    var productLoCarry := if productLo < bd then 1 else 0;
    CarryRecovered(bd, shifted);
    var sum := ac + adbc / TWO32 + (adbcCarry * TWO32) % TWO64 + productLoCarry;
    assert adbc * TWO32 == (adbc / TWO32) * TWO64 + shifted;
    assert sum * TWO64 + productLo == product;
    productHi := sum % TWO64;
  }
}
