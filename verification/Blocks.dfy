// What the hashes with 64-byte blocks share: byte strings cut into blocks, zero padding, and
// counters split into two 32-bit words.
module Blocks {
  import opened Words
  import opened Collections

  const BLOCK_BYTES := 64

  function Zeros(n: nat): (z: seq<Byte>)
    ensures |z| == n
  {
    Copies(n, 0)
  }

  // Block k of p.
  function Block(p: seq<Byte>, k: nat): (b: seq<Byte>)
    requires BLOCK_BYTES * k + BLOCK_BYTES <= |p|
    ensures |b| == BLOCK_BYTES
  {
    p[BLOCK_BYTES * k..BLOCK_BYTES * k + BLOCK_BYTES]
  }

  // The two words of a counter.
  function Low(x: nat): Word32 { x % TWO32 }
  function High(x: nat): Word32 { x / TWO32 % TWO32 }

  lemma WordsOf(x: nat, high: nat, low: Word32)
    requires x == TWO32 * high + low
    ensures Low(x) == low && High(x) == high % TWO32
  {
    DivModUnique(x, TWO32, high, low);
  }

  // A word, most significant byte first.
  function Put32(w: Word32): (b: seq<Byte>)
    ensures |b| == 4
  {
    [w / 0x100_0000, w / 0x1_0000 % 0x100, w / 0x100 % 0x100, w % 0x100]
  }

  // ---------------------------------------------------------------- byte strings as bits

  // The last n binary digits of x, most significant first.
  function Digits(x: nat, n: nat): (r: seq<bool>)
    ensures |r| == n
    decreases n
  {
    if n == 0 then [] else Digits(x / 2, n - 1) + [x % 2 == 1]
  }

  function ByteBits(b: Byte): (r: seq<bool>)
    ensures |r| == 8
  {
    Digits(b, 8)
  }

  // The bits of a byte string in the order in which a hash takes them.
  function Bits(s: seq<Byte>): (r: seq<bool>)
    ensures |r| == 8 * |s|
  {
    if s == [] then [] else ByteBits(s[0]) + Bits(s[1..])
  }

  function Falses(n: nat): (r: seq<bool>)
    ensures |r| == n
  {
    Copies(n, false)
  }

  // The number that bits spell, the most significant first.
  function Number(b: seq<bool>): nat {
    if b == [] then 0
    else
      var n := |b| - 1;
      2 * Number(b[..n]) + if b[n] then 1 else 0
  }

  lemma {:induction false} BitsConcat(s: seq<Byte>, t: seq<Byte>)
    ensures Bits(s + t) == Bits(s) + Bits(t)
  {
    hide ByteBits;
    if s == [] {
      assert s + t == t;
    } else {
      assert (s + t)[1..] == s[1..] + t;
      BitsConcat(s[1..], t);
    }
  }

  lemma {:induction false} ZeroBits(n: nat)
    ensures Bits(Zeros(n)) == Falses(8 * n)
  {
    if n > 0 {
      assert Zeros(n)[1..] == Zeros(n - 1);
      ZeroBits(n - 1);
    }
  }

  lemma {:induction false} ZeroDigits(n: nat)
    ensures Digits(0, n) == Falses(n)
  {
    if n > 0 {
      ZeroDigits(n - 1);
    }
  }

  lemma {:induction false} TopDigit(n: nat)
    requires n > 0
    ensures Digits(Pow2(n - 1), n) == [true] + Falses(n - 1)
  {
    if n == 1 {
      assert Digits(1, 1) == Digits(0, 0) + [true];
    } else {
      TopDigit(n - 1);
      assert Pow2(n - 1) == 2 * Pow2(n - 2);
    }
  }

  // The bytes at the ends of a padding.
  lemma EdgeBytes()
    ensures Bits([0x80]) == [true] + Falses(7) && Bits([0x01]) == Falses(7) + [true]
    ensures Bits([0x81]) == [true] + Falses(6) + [true] && Bits([0x00]) == Falses(8)
  {
    hide Bits;
    OneByteBits(0x80);
    OneByteBits(0x00);
    OneByteBits(0x01);
    OneByteBits(0x81);
    ZeroDigits(8);
    ZeroDigits(7);
    SmallPowers();
    TopDigit(8);
    TopDigit(7);
    assert Digits(0x01, 8) == Digits(0, 7) + [true];
    assert Digits(0x81, 8) == Digits(0x40, 7) + [true];
  }

  lemma SmallPowers()
    ensures Pow2(7) == 0x80 && Pow2(6) == 0x40
  {
  }

  lemma OneByteBits(b: Byte)
    ensures Bits([b]) == ByteBits(b)
  {
    assert [b][1..] == [];
    assert Bits([b]) == ByteBits(b) + Bits([]);
  }

  lemma NextDigit(b: seq<bool>, d: bool)
    ensures Number(b + [d]) == 2 * Number(b) + if d then 1 else 0
  {
    assert (b + [d])[..|b|] == b;
  }

  lemma DoubleProduct(a: nat, p: nat)
    ensures a * (2 * p) == 2 * (a * p)
  {
  }

  lemma {:induction false} NumberOfDigits(s: seq<bool>, x: nat, n: nat)
    requires x < Pow2(n)
    ensures Number(s + Digits(x, n)) == Number(s) * Pow2(n) + x
    decreases n
  {
    hide Number;
    if n == 0 {
      assert s + Digits(x, 0) == s;
    } else {
      var a, p := Number(s), Pow2(n - 1);
      assert Pow2(n) == 2 * p;
      NumberOfDigits(s, x / 2, n - 1);
      assert s + Digits(x, n) == (s + Digits(x / 2, n - 1)) + [x % 2 == 1];
      NextDigit(s + Digits(x / 2, n - 1), x % 2 == 1);
      DoubleProduct(a, p);
    }
  }

  lemma NumberOfByte(s: seq<bool>, b: Byte)
    ensures Number(s + ByteBits(b)) == 0x100 * Number(s) + b
  {
    assert Pow2(8) == 0x100;
    NumberOfDigits(s, b, 8);
  }

  // The bits of a byte string spell its bytes as base-256 digits.
  lemma NumberAppend(s: seq<Byte>, b: Byte)
    ensures Number(Bits(s + [b])) == 0x100 * Number(Bits(s)) + b
  {
    hide ByteBits, Number;
    BitsConcat(s, [b]);
    OneByteBits(b);
    NumberOfByte(Bits(s), b);
  }

  lemma NumberOfWord(s: seq<Byte>, w: Word32)
    ensures Number(Bits(s + Put32(w))) == TWO32 * Number(Bits(s)) + w
  {
    hide Bits, Number;
    var p := Put32(w);
    assert s + p == s + [p[0]] + [p[1]] + [p[2]] + [p[3]];
    NumberAppend(s, p[0]);
    NumberAppend(s + [p[0]], p[1]);
    NumberAppend(s + [p[0]] + [p[1]], p[2]);
    NumberAppend(s + [p[0]] + [p[1]] + [p[2]], p[3]);
    WordDigits(w);
  }

  lemma WordDigits(w: Word32)
    ensures var p: seq<int> := Put32(w); ((p[0] * 0x100 + p[1]) * 0x100 + p[2]) * 0x100 + p[3] == w
  {
    var q1, d := w / 0x100, w % 0x100;
    var q2, c := q1 / 0x100, q1 % 0x100;
    var a, b := q2 / 0x100, q2 % 0x100;
    DivModUnique(w, 0x1_0000, q2, 0x100 * c + d);
    DivModUnique(w, 0x100_0000, a, 0x1_0000 * b + 0x100 * c + d);
  }

  // The two words of a counter, laid out high word first, spell it as 64 bits.
  lemma CounterBits(x: nat)
    ensures |Bits(Put32(High(x)) + Put32(Low(x)))| == 64
    ensures Number(Bits(Put32(High(x)) + Put32(Low(x)))) == x % TWO64
  {
    hide Bits, Number, Put32;
    NumberOfWord(Put32(High(x)), Low(x));
    NumberOfWord([], High(x));
    assert [] + Put32(High(x)) == Put32(High(x));
    NoBits();
    HighLow(x);
  }

  lemma NoBits()
    ensures Number(Bits([])) == 0
  {
  }

  lemma HighLow(x: nat)
    ensures TWO32 * High(x) + Low(x) == x % TWO64
  {
    var q, r := x / TWO32, x % TWO32;
    DivModUnique(x, TWO64, q / TWO32, TWO32 * (q % TWO32) + r);
  }
}
