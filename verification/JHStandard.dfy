// E8 and F8 of JH on 256 elements of four bits and on bit strings, as the document The Hash Function JH
// defines them, and proofs that the bitsliced forms are the same.
module JHStandard {
  import Words
  import opened Bytes
  import opened WordBits
  import opened JH

  type Nibble = n: nat | n < 16
  type Nibbles = a: seq<Nibble> | |a| == 256 witness seq(256, _ => 0)
  type HashValue = h: seq<bool> | |h| == 1024 witness seq(1024, _ => false)

  // ---------------------------------------------------------------- the round function R8

  function XorNibble(a: Nibble, b: Nibble): Nibble {
    Words.XorBound(a, b, 4);
    assert Words.Pow2(4) == 16;
    Words.Xor(a, b)
  }

  // A constant bit chooses the S-box of its element.
  function SboxLayer(a: Nibbles, c: seq<bool>): Nibbles
    requires |c| == 256
  {
    var b: seq<Nibble> := seq(256, e requires 0 <= e < 256 => if c[e] then S1[a[e]] else S0[a[e]]);
    b
  }

  // The transformation L of two elements: D = B + 2 A, and C = A + 2 D.
  function Transform(a: Nibble, b: Nibble): (Nibble, Nibble) {
    var d := XorNibble(b, TwiceNibble(a));
    (XorNibble(a, TwiceNibble(d)), d)
  }

  function LinearLayer(b: Nibbles): Nibbles {
    var c: seq<Nibble> := seq(256, e requires 0 <= e < 256 =>
      var t := Transform(b[2 * (e / 2)], b[2 * (e / 2) + 1]);
      if e % 2 == 0 then t.0 else t.1);
    c
  }

  // The last two of every four elements change places.
  function PiLayer(a: Nibbles): Nibbles {
    var b: seq<Nibble> := seq(256, e requires 0 <= e < 256 =>
      if e % 4 == 2 then a[e + 1] else if e % 4 == 3 then a[e - 1] else a[e]);
    b
  }

  // The even elements come first, then the odd ones.
  function PrimeLayer(a: Nibbles): Nibbles {
    var b: seq<Nibble> := seq(256, e requires 0 <= e < 256 => if e < 128 then a[2 * e] else a[2 * (e - 128) + 1]);
    b
  }

  // In the second half, neighbours change places.
  function PhiLayer(a: Nibbles): Nibbles {
    var b: seq<Nibble> := seq(256, e requires 0 <= e < 256 =>
      if e < 128 then a[e] else if e % 2 == 0 then a[e + 1] else a[e - 1]);
    b
  }

  function R8(a: Nibbles, c: seq<bool>): Nibbles
    requires |c| == 256
  {
    PhiLayer(PrimeLayer(PiLayer(LinearLayer(SboxLayer(a, c)))))
  }

  // Which element a permuted one comes from: pair q of the next round, its first or second.
  function Rot7(q: nat): (r: nat)
    requires q < 128
    ensures r < 128
  {
    if q < 64 then 2 * q else 2 * q - 127
  }

  lemma PermutedAt(c: Nibbles, q: nat)
    requires q < 128
    ensures PhiLayer(PrimeLayer(PiLayer(c)))[2 * q] == c[2 * Rot7(q)]
    ensures 0 <= Partner(Rot7(q), 1) < 128
    ensures PhiLayer(PrimeLayer(PiLayer(c)))[2 * q + 1] == c[2 * Partner(Rot7(q), 1) + 1]
  {
  }

  // ---------------------------------------------------------------- one place of the bitsliced state

  // Bit k of a word as a number.
  function Digit(w: u64, k: nat): (d: nat)
    ensures d < 2
  {
    Weight(Bit(w, k), 1)
  }

  predicate Differs(b: nat, c: nat, r: nat) {
    b < 2 && c < 2 && r == (b + c) % 2
  }

  lemma XorDigit(x: nat, y: nat, b: nat, c: nat, r: nat)
    requires Differs(b, c, r)
    ensures Words.Xor(2 * x + b, 2 * y + c) == 2 * Words.Xor(x, y) + r
  {
    hide Words.Xor;
    Words.DivModUnique(2 * x + b, 2, x, b);
    Words.DivModUnique(2 * y + c, 2, y, c);
    Words.DivModUnique(2 * x + b + (2 * y + c), 2, x + y + (b + c) / 2, r);
    XorUnfolded(2 * x + b, 2 * y + c);
  }

  lemma XorUnfolded(x: nat, y: nat)
    ensures Words.Xor(x, y) == 2 * Words.Xor(x / 2, y / 2) + (x + y) % 2
  {
    if x == 0 && y == 0 {
      XorZero();
    }
  }

  lemma XorZero()
    ensures Words.Xor(0, 0) == 0
  {
  }

  lemma XorDigits(b0: nat, b1: nat, b2: nat, b3: nat, c0: nat, c1: nat, c2: nat, c3: nat,
                  r0: nat, r1: nat, r2: nat, r3: nat)
    requires Differs(b0, c0, r0) && Differs(b1, c1, r1) && Differs(b2, c2, r2) && Differs(b3, c3, r3)
    ensures Words.Xor(8 * b0 + 4 * b1 + 2 * b2 + b3, 8 * c0 + 4 * c1 + 2 * c2 + c3) == 8 * r0 + 4 * r1 + 2 * r2 + r3
  {
    hide Words.Xor, Differs;
    XorZero();
    XorDigit(0, 0, b0, c0, r0);
    XorDigit(b0, c0, b1, c1, r1);
    XorDigit(2 * b0 + b1, 2 * c0 + c1, b2, c2, r2);
    XorDigit(4 * b0 + 2 * b1 + b2, 4 * c0 + 2 * c1 + c2, b3, c3, r3);
  }

  lemma NibbleDigits(q: Quad, k: nat)
    requires k < 64
    ensures NibbleAt(q, k) == 8 * Digit(q.w0, k) + 4 * Digit(q.w1, k) + 2 * Digit(q.w2, k) + Digit(q.w3, k)
  {
    hide Bit;
  }

  lemma DigitXored(a: u64, b: u64, k: nat)
    ensures Differs(Digit(a, k), Digit(b, k), Digit(WordBits.Xor(a, b), k))
  {
    hide Bit, WordBits.Xor;
    OpBits(a, b, k);
  }

  lemma QuadXored(p: Quad, q: Quad, k: nat)
    ensures var r := XorQuad(p, q);
            && Differs(Digit(p.w0, k), Digit(q.w0, k), Digit(r.w0, k))
            && Differs(Digit(p.w1, k), Digit(q.w1, k), Digit(r.w1, k))
            && Differs(Digit(p.w2, k), Digit(q.w2, k), Digit(r.w2, k))
            && Differs(Digit(p.w3, k), Digit(q.w3, k), Digit(r.w3, k))
  {
    hide Digit, WordBits.Xor, Differs;
    DigitXored(p.w0, q.w0, k);
    DigitXored(p.w1, q.w1, k);
    DigitXored(p.w2, q.w2, k);
    DigitXored(p.w3, q.w3, k);
  }

  lemma XorNibbleIs(a: Nibble, b: Nibble)
    ensures XorNibble(a, b) == Words.Xor(a, b)
  {
  }

  lemma XorQuadNibble(p: Quad, q: Quad, k: nat)
    requires k < 64
    ensures NibbleAt(XorQuad(p, q), k) == XorNibble(NibbleAt(p, k), NibbleAt(q, k))
  {
    hide *;
    var r := XorQuad(p, q);
    NibbleDigits(p, k);
    NibbleDigits(q, k);
    NibbleDigits(r, k);
    QuadXored(p, q, k);
    XorDigits(Digit(p.w0, k), Digit(p.w1, k), Digit(p.w2, k), Digit(p.w3, k),
              Digit(q.w0, k), Digit(q.w1, k), Digit(q.w2, k), Digit(q.w3, k),
              Digit(r.w0, k), Digit(r.w1, k), Digit(r.w2, k), Digit(r.w3, k));
    XorNibbleIs(NibbleAt(p, k), NibbleAt(q, k));
  }

  // The MDS code of the bitsliced form is L at every bit.
  lemma MdsNibbles(s: Side, k: nat)
    requires k < 64
    ensures (NibbleAt(Mds(s).even, k), NibbleAt(Mds(s).odd, k)) == Transform(NibbleAt(s.even, k), NibbleAt(s.odd, k))
  {
    hide NibbleAt, XorQuad, Double, XorNibble, TwiceNibble;
    var odd := XorQuad(s.odd, Double(s.even));
    XorQuadNibble(s.odd, Double(s.even), k);
    DoubleNibbles(s.even, k);
    XorQuadNibble(s.even, Double(odd), k);
    DoubleNibbles(odd, k);
  }

  // Where bit w of a word stands when the bits of its bytes are counted from the most significant one.
  function Place(w: nat): (k: nat)
    requires w < 64
    ensures k < 64
  {
    8 * (w / 8) + 7 - w % 8
  }

  // The side of the state that holds position s of its rows.
  function SideAt(st: State, s: nat): Side {
    if s < 64 then st.left else st.right
  }

  // The nibble at position s of the even rows, or of the odd ones.
  function Slot(st: State, odd: bool, s: nat): Nibble
    requires s < 128
  {
    var side := SideAt(st, s);
    NibbleAt(if odd then side.odd else side.even, Place(s % 64))
  }

  // The constant bit there in round n.
  predicate SlotConstant(rc: Constants, n: nat, odd: bool, s: nat)
    requires n < ROUNDS && s < 128
  {
    Bit(rc[4 * n + s / 64 + if odd then 2 else 0], Place(s % 64))
  }

  // A round of the code before its swaps.
  function Mixed(st: State, rc: Constants, n: nat): State
    requires n < ROUNDS
  {
    State(SideRound(st.left, rc[4 * n], rc[4 * n + 2]), SideRound(st.right, rc[4 * n + 1], rc[4 * n + 3]))
  }

  lemma SideRoundNibbles(s: Side, cc0: u64, cc1: u64, k: nat)
    requires k < 64
    ensures var t := SideRound(s, cc0, cc1);
            (NibbleAt(t.even, k), NibbleAt(t.odd, k))
            == Transform(Chosen(Bit(cc0, k), S0, S1)[NibbleAt(s.even, k)],
                         Chosen(Bit(cc1, k), S0, S1)[NibbleAt(s.odd, k)])
  {
    hide NibbleAt, Bit, Sbox, Mds, Chosen, Transform;
    MdsNibbles(Side(Sbox(s.even, cc0), Sbox(s.odd, cc1)), k);
    SboxIsLookup(s.even, cc0, k);
    SboxIsLookup(s.odd, cc1, k);
  }

  lemma MixedSlots(st: State, rc: Constants, n: nat, s: nat)
    requires n < ROUNDS && s < 128
    ensures var u := Mixed(st, rc, n);
            (Slot(u, false, s), Slot(u, true, s))
            == Transform(Chosen(SlotConstant(rc, n, false, s), S0, S1)[Slot(st, false, s)],
                         Chosen(SlotConstant(rc, n, true, s), S0, S1)[Slot(st, true, s)])
  {
    hide NibbleAt, Bit, SideRound, Chosen, Transform;
    var side, h := SideAt(st, s), s / 64;
    SideRoundNibbles(side, rc[4 * n + h], rc[4 * n + h + 2], Place(s % 64));
  }

  // ---------------------------------------------------------------- the swaps

  lemma SwappedNibble(q: Quad, r: nat, k: nat)
    requires r < 6 && k < 64
    ensures 0 <= Partner(k, Span(r)) < 64
    ensures NibbleAt(SwapQuad(q, r), k) == NibbleAt(q, Partner(k, Span(r)))
  {
    hide Bit, Swap, Partner, Span;
    SwapMoves(q.w0, r, k);
    SwapMoves(q.w1, r, k);
    SwapMoves(q.w2, r, k);
    SwapMoves(q.w3, r, k);
  }

  // The width of the groups that round r swaps.
  function Width(r: nat): (w: nat)
    ensures w > 0
  {
    if r < 6 then Span(r) else 64
  }

  // Partners of numbers that are f times h and a rest: a group of f is swapped as one.
  lemma PartnerScaled(h: nat, l: nat, f: nat, d: nat)
    requires d > 0 && l < f
    ensures f * d > 0 && Partner(f * h + l, f * d) == f * Partner(h, d) + l
  {
    var q, r := h / d, h % d;
    Scaled(h, l, f, d, q, r);
    Words.DivModUnique(f * h + l, f * d, q, f * r + l);
    assert f * (h + d) == f * h + f * d && f * (h - d) == f * h - f * d;
  }

  lemma Scaled(h: nat, l: nat, f: nat, d: nat, q: nat, r: nat)
    requires d > 0 && l < f && h == d * q + r && r < d
    ensures f * d > 0 && f * h + l == (f * d) * q + (f * r + l) && f * r + l < f * d
  {
    assert f * h == f * (d * q) + f * r;
    assert f * (d * q) == (f * d) * q;
    Words.MulMonotone(f, r + 1, d);
    assert f * (r + 1) == f * r + f;
  }

  // Pairs of groups in front change nothing.
  lemma {:induction false} PartnerShifted(k: nat, d: nat, m: nat, n: nat)
    requires d > 0 && n == (2 * d) * m
    ensures Partner(n + k, d) == n + Partner(k, d)
    decreases m
  {
    hide Partner;
    if m > 0 {
      OneFewer(2 * d, m);
      PartnerRepeats(n + k, d);
      PartnerShifted(k, d, m - 1, n - 2 * d);
    }
  }

  lemma OneFewer(g: nat, m: nat)
    requires m > 0
    ensures g * m == g * (m - 1) + g && g * (m - 1) >= 0
  {
  }

  lemma PartnerInByte(l: nat, d: nat)
    requires l < 8 && (d == 1 || d == 2 || d == 4)
    ensures 0 <= Partner(l, d) < 8 && Partner(7 - l, d) == 7 - Partner(l, d)
  {
    if l < 4 {
      assert l == 0 || l == 1 || l == 2 || l == 3;
    } else {
      assert l == 4 || l == 5 || l == 6 || l == 7;
    }
  }

  lemma PlaceIs(h: nat, l: nat)
    requires h < 8 && l < 8
    ensures Place(8 * h + l) == 8 * h + 7 - l
  {
    Words.DivModUnique(8 * h + l, 8, h, l);
  }

  // Groups of one, two or four bits stay in their byte, and wider ones are whole bytes, so counting the
  // bits of a byte from the other end changes no partner.
  lemma PartnerPlace(w: nat, r: nat)
    requires r < 6 && w < 64
    ensures 0 <= Partner(w, Span(r)) < 64
    ensures Place(Partner(w, Span(r))) == Partner(Place(w), Span(r))
  {
    hide Partner, Place;
    var h, l := w / 8, w % 8;
    PartnerIs(w, r);
    PlaceIs(h, l);
    if r < 3 {
      InnerPartner(h, l, Span(r));
    } else {
      OuterPartner(h, l, Span(r) / 8);
    }
  }

  lemma InnerPartner(h: nat, l: nat, d: nat)
    requires h < 8 && l < 8 && (d == 1 || d == 2 || d == 4)
    ensures Partner(8 * h + l, d) == 8 * h + Partner(l, d) && 0 <= Partner(l, d) < 8
    ensures Place(8 * h + Partner(l, d)) == Partner(8 * h + 7 - l, d)
  {
    hide Partner, Place;
    var m := if d == 1 then 4 * h else if d == 2 then 2 * h else h;
    PartnerShifted(l, d, m, 8 * h);
    PartnerShifted(7 - l, d, m, 8 * h);
    PartnerInByte(l, d);
    PlaceIs(h, Partner(l, d));
  }

  lemma OuterPartner(h: nat, l: nat, d: nat)
    requires h < 8 && l < 8 && (d == 1 || d == 2 || d == 4)
    ensures Partner(8 * h + l, 8 * d) == 8 * Partner(h, d) + l && 0 <= Partner(h, d) < 8
    ensures Place(8 * Partner(h, d) + l) == Partner(8 * h + 7 - l, 8 * d)
  {
    hide Partner, Place;
    PartnerInByte(h, d);
    PartnerScaled(h, l, 8, d);
    PartnerScaled(h, 7 - l, 8, d);
    PlaceIs(Partner(h, d), l);
  }

  lemma SwappedSlots(u: State, r: nat, s: nat)
    requires r < 7 && s < 128
    ensures 0 <= Partner(s, Width(r)) < 128
    ensures Slot(SwapLayer(u, r), false, s) == Slot(u, false, s)
    ensures Slot(SwapLayer(u, r), true, s) == Slot(u, true, Partner(s, Width(r)))
  {
    hide NibbleAt, SwapQuad, Partner, Place, Span;
    PartnerInHalf(s, r);
    if r < 6 {
      PartnerPlace(s % 64, r);
      SwappedNibble(SideAt(u, s).odd, r, Place(s % 64));
    }
  }

  lemma PartnerInHalf(s: nat, r: nat)
    requires r < 7 && s < 128
    ensures r < 6 ==> Partner(s, Width(r)) == s - s % 64 + Partner(s % 64, Span(r))
    ensures r == 6 ==> Partner(s, Width(r)) == if s < 64 then s + 64 else s - 64
  {
    if r < 6 && s >= 64 {
      UpperPartner(s - 64, r);
    }
  }

  lemma UpperPartner(k: nat, r: nat)
    requires r < 6 && k < 64
    ensures Partner(64 + k, Span(r)) == 64 + Partner(k, Span(r))
  {
    hide Partner;
    var d := Span(r);
    var m := if r == 0 then 32 else if r == 1 then 16 else if r == 2 then 8 else if r == 3 then 4
             else if r == 4 then 2 else 1;
    PartnerShifted(k, d, m, 64);
  }

  // ---------------------------------------------------------------- where the elements are

  // The position in the code's rows, r rounds on, of a pair of elements of the standard.
  function Turned(r: nat, q: nat): (s: nat)
    requires q < 128
    ensures s < 128
  {
    if r == 0 then q else Rot7(Turned(r - 1, q))
  }

  lemma {:induction false} TurnedOnce(r: nat, q: nat)
    requires q < 128
    ensures Turned(r, Rot7(q)) == Turned(r + 1, q)
  {
    if r > 0 {
      TurnedOnce(r - 1, q);
    }
  }

  lemma WidthDoubles(r: nat)
    requires r < 7
    ensures Width((r + 1) % 7) == if r < 6 then 2 * Width(r) else 1
    ensures r < 6 ==> Width(r) == Span(r)
  {
  }

  lemma TopPartner(q: nat)
    requires q < 128
    ensures Partner(q, 64) == (if q < 64 then q + 64 else q - 64)
    ensures Partner(Rot7(q), 1) == if q < 64 then 2 * q + 1 else 2 * q - 128
  {
  }

  lemma LowerPartner(k: nat, r: nat)
    requires r < 6 && k < 64
    ensures 0 <= Partner(k, Span(r)) < 64 && Partner(64 + k, Span(r)) == 64 + Partner(k, Span(r))
    ensures Partner(2 * k, 2 * Span(r)) == 2 * Partner(k, Span(r))
    ensures Partner(2 * k + 1, 2 * Span(r)) == 2 * Partner(k, Span(r)) + 1
  {
    hide Partner;
    PartnerIs(k, r);
    UpperPartner(k, r);
    PartnerScaled(k, 0, 2, Span(r));
    PartnerScaled(k, 1, 2, Span(r));
  }

  lemma Rot7Partner(q: nat, r: nat)
    requires q < 128 && r < 7
    ensures 0 <= Partner(q, Width(r)) < 128
    ensures Rot7(Partner(q, Width(r))) == Partner(Rot7(q), Width((r + 1) % 7))
  {
    hide Partner, Width, Span;
    WidthDoubles(r);
    if r == 6 {
      TopPartner(q);
      assert Width(6) == 64 by { WidthOfHalf(); }
    } else {
      LowerPartner(if q < 64 then q else q - 64, r);
    }
  }

  lemma WidthOfHalf()
    ensures Width(6) == 64
  {
  }

  // Neighbouring pairs end up as far apart as the round swaps.
  lemma {:induction false} TurnedPartner(r: nat, q: nat)
    requires q < 128
    ensures 0 <= Partner(q, 1) < 128
    ensures Turned(r, Partner(q, 1)) == Partner(Turned(r, q), Width(r % 7))
  {
    hide Partner, Rot7;
    Rot7Partner(q, 0);
    if r > 0 {
      TurnedPartner(r - 1, q);
      Rot7Partner(Turned(r - 1, q), (r - 1) % 7);
      NextOfSeven(r);
    }
  }

  lemma NextOfSeven(r: nat)
    requires r > 0
    ensures ((r - 1) % 7 + 1) % 7 == r % 7
  {
  }

  // Seven rounds bring everything back.
  lemma SevenTurns(q: nat)
    requires q < 128
    ensures Rot7(Rot7(Rot7(Rot7(Rot7(Rot7(Rot7(q))))))) == q
  {
    hide Rot7;
    var c1 := Carry(q);
    var c2 := Carry(Rot7(q));
    var c3 := Carry(Rot7(Rot7(q)));
    var c4 := Carry(Rot7(Rot7(Rot7(q))));
    var c5 := Carry(Rot7(Rot7(Rot7(Rot7(q)))));
    var c6 := Carry(Rot7(Rot7(Rot7(Rot7(Rot7(q))))));
    var c7 := Carry(Rot7(Rot7(Rot7(Rot7(Rot7(Rot7(q)))))));
    SameRest(Rot7(Rot7(Rot7(Rot7(Rot7(Rot7(Rot7(q))))))), q,
             64 * c1 + 32 * c2 + 16 * c3 + 8 * c4 + 4 * c5 + 2 * c6 + c7);
  }

  // Turning doubles modulo 127.
  lemma Carry(q: nat) returns (c: nat)
    requires q < 128
    ensures Rot7(q) == 2 * q - 127 * c && (q < 127 <==> Rot7(q) < 127)
  {
    c := if q < 64 then 0 else 1;
  }

  lemma SameRest(t: nat, q: nat, c: int)
    requires t == 128 * q - 127 * c && (q < 127 <==> t < 127) && q < 128 && t < 128
    ensures t == q
  {
    if q < c {
      assert false;
    } else if q > c {
      assert false;
    }
  }

  lemma {:induction false} BackInPlace(r: nat, q: nat)
    requires q < 128 && r % 7 == 0
    ensures Turned(r, q) == q
  {
    if r > 0 {
      BackInPlace(r - 7, q);
      SevenTurns(q);
      TurnedSeven(r, q);
    }
  }

  lemma TurnedSeven(r: nat, q: nat)
    requires q < 128 && r >= 7
    ensures Turned(r, q) == Rot7(Rot7(Rot7(Rot7(Rot7(Rot7(Rot7(Turned(r - 7, q))))))))
  {
    hide Rot7;
    assert Turned(r, q) == Rot7(Turned(r - 1, q));
    assert Turned(r - 1, q) == Rot7(Turned(r - 2, q));
    assert Turned(r - 2, q) == Rot7(Turned(r - 3, q));
    assert Turned(r - 3, q) == Rot7(Turned(r - 4, q));
    assert Turned(r - 4, q) == Rot7(Turned(r - 5, q));
    assert Turned(r - 5, q) == Rot7(Turned(r - 6, q));
  }

  // ---------------------------------------------------------------- whole rounds

  // The elements of the standard in the code's state, r rounds on.
  function Elements(st: State, r: nat): Nibbles {
    var a: seq<Nibble> := seq(256, e requires 0 <= e < 256 => Slot(st, e % 2 == 1, Turned(r, e / 2)));
    a
  }

  // The constant of round n, bit for element, as it stands in the code's words.
  function RoundConstant(rc: Constants, n: nat): (c: seq<bool>)
    requires n < ROUNDS
    ensures |c| == 256
  {
    seq(256, e requires 0 <= e < 256 => SlotConstant(rc, n, e % 2 == 1, Turned(n, e / 2)))
  }

  lemma ElementAt(st: State, r: nat, q: nat)
    requires q < 128
    ensures Elements(st, r)[2 * q] == Slot(st, false, Turned(r, q))
    ensures Elements(st, r)[2 * q + 1] == Slot(st, true, Turned(r, q))
  {
    hide Slot, Turned;
    Words.DivModUnique(2 * q, 2, q, 0);
    Words.DivModUnique(2 * q + 1, 2, q, 1);
  }

  lemma ConstantAt(rc: Constants, n: nat, q: nat)
    requires n < ROUNDS && q < 128
    ensures RoundConstant(rc, n)[2 * q] == SlotConstant(rc, n, false, Turned(n, q))
    ensures RoundConstant(rc, n)[2 * q + 1] == SlotConstant(rc, n, true, Turned(n, q))
  {
    hide SlotConstant, Turned;
    Words.DivModUnique(2 * q, 2, q, 0);
    Words.DivModUnique(2 * q + 1, 2, q, 1);
  }

  lemma LinearAt(b: Nibbles, q: nat)
    requires q < 128
    ensures (LinearLayer(b)[2 * q], LinearLayer(b)[2 * q + 1]) == Transform(b[2 * q], b[2 * q + 1])
  {
    hide Transform;
    Words.DivModUnique(2 * q, 2, q, 0);
    Words.DivModUnique(2 * q + 1, 2, q, 1);
  }

  // Before the permutation, the standard has what the code has before its swaps.
  lemma LayersAt(st: State, rc: Constants, n: nat, q: nat)
    requires n < ROUNDS && q < 128
    ensures var c, u := LinearLayer(SboxLayer(Elements(st, n), RoundConstant(rc, n))), Mixed(st, rc, n);
            c[2 * q] == Slot(u, false, Turned(n, q)) && c[2 * q + 1] == Slot(u, true, Turned(n, q))
  {
    hide Slot, SlotConstant, Turned, Elements, RoundConstant, LinearLayer, Transform, Mixed;
    ElementAt(st, n, q);
    ConstantAt(rc, n, q);
    LinearAt(SboxLayer(Elements(st, n), RoundConstant(rc, n)), q);
    MixedSlots(st, rc, n, Turned(n, q));
  }

  lemma RoundAt(st: State, rc: Constants, n: nat, q: nat)
    requires n < ROUNDS && q < 128
    ensures var a, b := R8(Elements(st, n), RoundConstant(rc, n)), Elements(Round(st, rc, n), n + 1);
            a[2 * q] == b[2 * q] && a[2 * q + 1] == b[2 * q + 1]
  {
    hide Slot, Turned, Elements, RoundConstant, LinearLayer, SboxLayer, PiLayer, PrimeLayer, PhiLayer, Mixed, Rot7;
    hide Partner, SwapLayer, Width;
    var u := Mixed(st, rc, n);
    RoundIs(st, rc, n);
    PermutedAt(LinearLayer(SboxLayer(Elements(st, n), RoundConstant(rc, n))), q);
    ElementAt(Round(st, rc, n), n + 1, q);
    TurnedOnce(n, q);
    SwappedSlots(u, n % 7, Turned(n + 1, q));
    LayersAt(st, rc, n, Rot7(q));
    LayersAt(st, rc, n, Partner(Rot7(q), 1));
    TurnedPartner(n, Rot7(q));
  }

  lemma RoundIs(st: State, rc: Constants, n: nat)
    requires n < ROUNDS
    ensures Round(st, rc, n) == SwapLayer(Mixed(st, rc, n), n % 7)
  {
    hide SideRound, SwapLayer;
  }

  // A round of the code is R8 on the elements, which end up one turn further.
  lemma RoundIsStandard(st: State, rc: Constants, n: nat)
    requires n < ROUNDS
    ensures Elements(Round(st, rc, n), n + 1) == R8(Elements(st, n), RoundConstant(rc, n))
  {
    hide Round, Elements, RoundConstant, R8;
    var a, b := R8(Elements(st, n), RoundConstant(rc, n)), Elements(Round(st, rc, n), n + 1);
    forall e: nat | e < 256
      ensures a[e] == b[e]
    {
      RoundAt(st, rc, n, e / 2);
      assert e == 2 * (e / 2) || e == 2 * (e / 2) + 1;
    }
  }

  // The first n rounds of E8 on elements.
  function Rounds8(a: Nibbles, rc: Constants, n: nat): Nibbles
    requires n <= ROUNDS
  {
    if n == 0 then a else R8(Rounds8(a, rc, n - 1), RoundConstant(rc, n - 1))
  }

  lemma {:induction false} RoundsAreStandard(st: State, rc: Constants, n: nat)
    requires n <= ROUNDS
    ensures Elements(Permuted(st, rc, n), n) == Rounds8(Elements(st, 0), rc, n)
  {
    hide Round, Elements, RoundConstant, R8;
    if n > 0 {
      RoundsAreStandard(st, rc, n - 1);
      RoundIsStandard(Permuted(st, rc, n - 1), rc, n - 1);
    }
  }

  lemma ElementsBack(st: State)
    ensures Elements(st, ROUNDS) == Elements(st, 0)
  {
    hide Slot, Turned;
    forall e: nat | e < 256
      ensures Elements(st, ROUNDS)[e] == Elements(st, 0)[e]
    {
      BackInPlace(ROUNDS, e / 2);
      BackInPlace(0, e / 2);
    }
  }

  // ---------------------------------------------------------------- E8 and F8 on bit strings

  // The bits of the state laid out as bytes, the most significant bit of each byte first.
  function HashBits(x: Rows): HashValue {
    var h: seq<bool> := seq(1024, j requires 0 <= j < 1024 => BitOfByte(ByteAt(x[j / 64], j % 64 / 8), 7 - j % 8));
    h
  }

  function MessageBits(buffer: seq<u8>): (m: seq<bool>)
    requires |buffer| == 64
    ensures |m| == 512
  {
    seq(512, j requires 0 <= j < 512 => BitOfByte(buffer[j / 8], 7 - j % 8))
  }

  // Element e takes one bit from each quarter, at e / 2 in the quarter's first or second half.
  function ElementBits(h: HashValue, i: nat): Nibble
    requires i < 256
  {
    Weight(h[i], 8) + Weight(h[i + 256], 4) + Weight(h[i + 512], 2) + Weight(h[i + 768], 1)
  }

  function Group(h: HashValue): Nibbles {
    var a: seq<Nibble> := seq(256, e requires 0 <= e < 256 => ElementBits(h, e / 2 + 128 * (e % 2)));
    a
  }

  function QuarterWeight(j: nat): (w: nat)
    ensures w > 0
  {
    if j < 256 then 8 else if j < 512 then 4 else if j < 768 then 2 else 1
  }

  function Degroup(a: Nibbles): HashValue {
    var h: seq<bool> := seq(1024, j requires 0 <= j < 1024 =>
      HasWeight(a[2 * (j % 128) + j % 256 / 128], QuarterWeight(j)));
    h
  }

  function E8Bits(h: HashValue, rc: Constants): HashValue {
    Degroup(Rounds8(Group(h), rc, ROUNDS))
  }

  // The message added to the first half of the hash value, or to the second.
  function XorHalf(h: HashValue, m: seq<bool>, second: bool): HashValue
    requires |m| == 512
  {
    var from := if second then 512 else 0;
    var r: seq<bool> := seq(1024, j requires 0 <= j < 1024 =>
      if from <= j < from + 512 then h[j] != m[j - from] else h[j]);
    r
  }

  function F8Bits(h: HashValue, m: seq<bool>, rc: Constants): HashValue
    requires |m| == 512
  {
    XorHalf(E8Bits(XorHalf(h, m, false), rc), m, true)
  }

  lemma QuarterBits(h: HashValue, i: nat)
    requires i < 256
    ensures HasWeight(ElementBits(h, i), 8) == h[i] && HasWeight(ElementBits(h, i), 4) == h[i + 256]
    ensures HasWeight(ElementBits(h, i), 2) == h[i + 512] && HasWeight(ElementBits(h, i), 1) == h[i + 768]
  {
    WeightsMatch(h[i], h[i + 256], h[i + 512], h[i + 768], ElementBits(h, i));
  }

  lemma GroupAt(h: HashValue, i: nat)
    requires i < 256
    ensures Group(h)[2 * (i % 128) + i / 128] == ElementBits(h, i)
  {
    hide ElementBits;
    Words.DivModUnique(2 * (i % 128) + i / 128, 2, i % 128, i / 128);
  }

  lemma Degrouped(h: HashValue)
    ensures Degroup(Group(h)) == h
  {
    hide ElementBits, Group, HasWeight;
    forall j: nat | j < 1024
      ensures Degroup(Group(h))[j] == h[j]
    {
      Quarter(j);
      GroupAt(h, j % 256);
      QuarterBits(h, j % 256);
    }
  }

  lemma Quarter(j: nat)
    requires j < 1024
    ensures j % 256 % 128 == j % 128
    ensures j == j % 256 + if j < 256 then 0 else if j < 512 then 256 else if j < 768 then 512 else 768
  {
    Words.DivModUnique(j, 128, 2 * (j / 256) + j % 256 / 128, j % 256 % 128);
  }

  lemma HashBitAt(x: Rows, j: nat)
    requires j < 1024
    ensures HashBits(x)[j] == Bit(x[j / 64], Place(j % 64))
  {
    hide Bit, BitOfByte, ByteAt;
    var w := j % 64;
    Words.DivModUnique(j, 8, 8 * (j / 64) + w / 8, w % 8);
    ByteBit(x[j / 64], w / 8, 7 - j % 8);
  }

  lemma ElementWords(x: Rows, i: nat)
    requires i < 256
    ensures var b, k := i / 64, Place(i % 64);
            ElementBits(HashBits(x), i)
            == Weight(Bit(x[b], k), 8) + Weight(Bit(x[4 + b], k), 4) + Weight(Bit(x[8 + b], k), 2)
               + Weight(Bit(x[12 + b], k), 1)
  {
    hide Bit, HashBits, Place, Weight;
    var b, w := i / 64, i % 64;
    Words.DivModUnique(i + 256, 64, 4 + b, w);
    Words.DivModUnique(i + 512, 64, 8 + b, w);
    Words.DivModUnique(i + 768, 64, 12 + b, w);
    HashBitAt(x, i);
    HashBitAt(x, i + 256);
    HashBitAt(x, i + 512);
    HashBitAt(x, i + 768);
  }

  lemma SlotOfRows(x: Rows, odd: bool, q: nat)
    requires q < 128
    ensures var b, k := q / 64 + (if odd then 2 else 0), Place(q % 64);
            Slot(StateOf(x), odd, q)
            == Weight(Bit(x[b], k), 8) + Weight(Bit(x[4 + b], k), 4) + Weight(Bit(x[8 + b], k), 2)
               + Weight(Bit(x[12 + b], k), 1)
  {
    hide Bit, Place, Weight;
  }

  // At the start and at the end of E8, the elements are the grouped bits.
  lemma GroupIsElements(x: Rows)
    ensures Elements(StateOf(x), 0) == Group(HashBits(x))
  {
    hide Slot, ElementBits, HashBits, StateOf, Bit, Place, Weight;
    forall e: nat | e < 256
      ensures Elements(StateOf(x), 0)[e] == Group(HashBits(x))[e]
    {
      var q, odd := e / 2, e % 2 == 1;
      var i := q + 128 * (e % 2);
      Words.DivModUnique(i, 64, q / 64 + 2 * (e % 2), q % 64);
      SlotOfRows(x, odd, q);
      ElementWords(x, i);
    }
  }

  // The permutation that the code computes on words is E8 on bits.
  lemma E8IsStandard(x: Rows, rc: Constants)
    ensures HashBits(E8(x, rc)) == E8Bits(HashBits(x), rc)
  {
    hide Elements, Group, Degroup, Rounds8, HashBits, StateOf, RowsOf, Permuted;
    var st := Permuted(StateOf(x), rc, ROUNDS);
    RoundsAreStandard(StateOf(x), rc, ROUNDS);
    ElementsBack(st);
    StateOfRows(st);
    GroupIsElements(x);
    GroupIsElements(E8(x, rc));
    Degrouped(HashBits(E8(x, rc)));
  }

  lemma MessageBitAt(buffer: seq<u8>, j: nat)
    requires |buffer| == 64 && j < 512
    ensures MessageBits(buffer)[j] == Bit(MessageWords(buffer)[j / 64], Place(j % 64))
  {
    hide Bit, BitOfByte, Word, MessageWords;
    var q, w := j / 64, j % 64;
    Words.DivModUnique(j, 8, 8 * q + w / 8, w % 8);
    MessageWordAt(buffer, q);
    WordBit(buffer[8 * q..8 * q + 8], w / 8, 7 - w % 8);
  }

  lemma XorIntoOnBits(x: Rows, buffer: seq<u8>, second: bool)
    requires |buffer| == 64
    ensures HashBits(XorInto(x, MessageWords(buffer), if second then 8 else 0))
         == XorHalf(HashBits(x), MessageBits(buffer), second)
  {
    hide Bit, HashBits, MessageBits, MessageWords, Place, WordBits.Xor;
    var m, n := MessageWords(buffer), if second then 8 else 0;
    forall j: nat | j < 1024
      ensures HashBits(XorInto(x, m, n))[j] == XorHalf(HashBits(x), MessageBits(buffer), second)[j]
    {
      HashBitAt(XorInto(x, m, n), j);
      HashBitAt(x, j);
      if 64 * n <= j < 64 * n + 512 {
        var i := j - 64 * n;
        Words.DivModUnique(j, 64, i / 64 + n, i % 64);
        MessageBitAt(buffer, i);
        OpBits(x[j / 64], m[i / 64], Place(j % 64));
      }
    }
  }

  // And the compression is F8 on bits, for every hash value and message block.
  lemma F8IsStandard(x: Rows, buffer: seq<u8>, rc: Constants)
    requires |buffer| == 64
    ensures HashBits(F8(x, MessageWords(buffer), rc)) == F8Bits(HashBits(x), MessageBits(buffer), rc)
  {
    hide E8, E8Bits, XorInto, XorHalf, HashBits, MessageBits, MessageWords;
    var y := XorInto(x, MessageWords(buffer), 0);
    XorIntoOnBits(x, buffer, false);
    E8IsStandard(y, rc);
    XorIntoOnBits(E8(y, rc), buffer, true);
  }
}
