// RapidJSON's UTF-8 and UTF-16 codecs on in-memory streams.
module Utf {
  import opened Words

  // ---------------------------------------------------------------- scalar values and their encodings

  type Unit16 = x: nat | x < 0x1_0000

  predicate Surrogate(cp: nat) { 0xD800 <= cp <= 0xDFFF }

  predicate Scalar(cp: nat) { cp <= 0x10FFFF && !Surrogate(cp) }

  // Section 3 of RFC 3629: the shortest form.
  function Encoded(cp: nat): (b: seq<Byte>)
    requires cp <= 0x10FFFF
    ensures 1 <= |b| <= 4
  {
    if cp <= 0x7F then [cp]
    else if cp <= 0x7FF then [0xC0 + cp / 0x40, 0x80 + cp % 0x40]
    else if cp <= 0xFFFF then [0xE0 + cp / 0x1000, 0x80 + cp / 0x40 % 0x40, 0x80 + cp % 0x40]
    else [0xF0 + cp / 0x4_0000, 0x80 + cp / 0x1000 % 0x40, 0x80 + cp / 0x40 % 0x40, 0x80 + cp % 0x40]
  }

  // Section 2.1 of RFC 2781.
  function Encoded16(cp: nat): (u: seq<Unit16>)
    requires cp <= 0x10FFFF
    ensures 1 <= |u| <= 2
  {
    if cp <= 0xFFFF then [cp] else [0xD800 + (cp - 0x1_0000) / 0x400, 0xDC00 + (cp - 0x1_0000) % 0x400]
  }

  // ---------------------------------------------------------------- streams

  // MemoryStream: past the end it yields the null character and does not move.
  class Stream<T> {
    const src: seq<T>
    const terminator: T
    var pos: nat

    constructor (src: seq<T>, terminator: T)
      ensures this.src == src && this.terminator == terminator && pos == 0
    {
      this.src := src;
      this.terminator := terminator;
      pos := 0;
    }

    ghost predicate Valid()
      reads this
    {
      pos <= |src|
    }

    function Rest(): seq<T>
      requires Valid()
      reads this
    {
      src[pos..]
    }

    method Take() returns (c: T)
      requires Valid()
      modifies this
      ensures Valid()
      ensures if old(pos) == |src| then c == terminator && pos == old(pos)
              else c == src[old(pos)] && pos == old(pos) + 1
    {
      if pos == |src| {
        c := terminator;
      } else {
        c := src[pos];
        pos := pos + 1;
      }
    }
  }

  class Output<T> {
    var data: seq<T>

    constructor ()
      ensures data == []
    {
      data := [];
    }

    method Put(c: T)
      modifies this
      ensures data == old(data) + [c]
    {
      data := data + [c];
    }
  }

  // ---------------------------------------------------------------- UTF-8

  // UTF8::Encode
  method Encode(os: Output<Byte>, codepoint: nat)
    requires codepoint <= 0x10FFFF
    modifies os
    ensures os.data == old(os.data) + Encoded(codepoint)
  {
    if codepoint <= 0x7F {
      os.Put(codepoint);
    } else if codepoint <= 0x7FF {
      os.Put(0xC0 + codepoint / 0x40);
      os.Put(0x80 + codepoint % 0x40);
    } else if codepoint <= 0xFFFF {
      os.Put(0xE0 + codepoint / 0x1000);
      os.Put(0x80 + codepoint / 0x40 % 0x40);
      os.Put(0x80 + codepoint % 0x40);
    } else {
      os.Put(0xF0 + codepoint / 0x4_0000);
      os.Put(0x80 + codepoint / 0x1000 % 0x40);
      os.Put(0x80 + codepoint / 0x40 % 0x40);
      os.Put(0x80 + codepoint % 0x40);
    }
  }

  // UTF8::GetRange, its table as ranges of bytes.
  function GetRange(c: Byte): u8 {
    if c < 0x80 then 0
    else if c < 0x90 then 0x10
    else if c < 0xA0 then 0x40
    else if c < 0xC0 then 0x20
    else if c < 0xC2 then 8
    else if c < 0xE0 then 2
    else if c == 0xE0 then 10
    else if c == 0xED then 4
    else if c < 0xF0 then 3
    else if c == 0xF0 then 11
    else if c < 0xF4 then 6
    else if c == 0xF4 then 5
    else 8
  }

  // The range test of a byte against a mask of range bits.
  predicate InMask(c: Byte, mask: u8) {
    GetRange(c) & mask != 0
  }

  lemma Masks(c: Byte)
    ensures InMask(c, 0x70) <==> 0x80 <= c < 0xC0
    ensures InMask(c, 0x50) <==> 0x80 <= c < 0xA0
    ensures InMask(c, 0x20) <==> 0xA0 <= c < 0xC0
    ensures InMask(c, 0x60) <==> 0x90 <= c < 0xC0
    ensures InMask(c, 0x10) <==> 0x80 <= c < 0x90
  {
  }

  predicate Tail(s: seq<Byte>, i: nat) {
    i < |s| && 0x80 <= s[i] < 0xC0
  }

  // Section 4 of RFC 3629: s starts with a well-formed sequence.
  predicate WellFormed(s: seq<Byte>)
    requires s != []
  {
    var c := s[0];
    || c < 0x80
    || (0xC2 <= c < 0xE0 && Tail(s, 1))
    || (c == 0xE0 && Tail(s, 1) && 0xA0 <= s[1] && Tail(s, 2))
    || (0xE1 <= c < 0xF0 && c != 0xED && Tail(s, 1) && Tail(s, 2))
    || (c == 0xED && Tail(s, 1) && s[1] < 0xA0 && Tail(s, 2))
    || (c == 0xF0 && Tail(s, 1) && 0x90 <= s[1] && Tail(s, 2) && Tail(s, 3))
    || (0xF1 <= c < 0xF4 && Tail(s, 1) && Tail(s, 2) && Tail(s, 3))
    || (c == 0xF4 && Tail(s, 1) && s[1] < 0x90 && Tail(s, 2) && Tail(s, 3))
  }

  // The value of the well-formed sequence at the start of s.
  function Value(s: seq<Byte>): nat
    requires s != [] && WellFormed(s)
  {
    var t: seq<int> := s;
    var c := t[0];
    if c < 0x80 then c
    else if c < 0xE0 then c % 0x20 * 0x40 + t[1] % 0x40
    else if c < 0xF0 then (c % 0x10 * 0x40 + t[1] % 0x40) * 0x40 + t[2] % 0x40
    else ((c % 0x8 * 0x40 + t[1] % 0x40) * 0x40 + t[2] % 0x40) * 0x40 + t[3] % 0x40
  }

  // Four digits in base 64 and back.
  lemma Digits(a: nat, b: nat, d: nat, e: nat)
    requires b < 0x40 && d < 0x40 && e < 0x40
    ensures var cp := ((a * 0x40 + b) * 0x40 + d) * 0x40 + e;
            cp / 0x4_0000 == a && cp / 0x1000 % 0x40 == b && cp / 0x40 % 0x40 == d && cp % 0x40 == e
  {
    var cp := ((a * 0x40 + b) * 0x40 + d) * 0x40 + e;
    DivModUnique(cp, 0x40, (a * 0x40 + b) * 0x40 + d, e);
    DivModUnique((a * 0x40 + b) * 0x40 + d, 0x40, a * 0x40 + b, d);
    DivModUnique(cp, 0x1000, a * 0x40 + b, d * 0x40 + e);
    DivModUnique(a * 0x40 + b, 0x40, a, b);
    DivModUnique(cp, 0x4_0000, a, (b * 0x40 + d) * 0x40 + e);
  }

  lemma TwoBytes(c: Byte, c1: Byte)
    requires 0xC2 <= c < 0xE0 && 0x80 <= c1 < 0xC0
    ensures var cp := c % 0x20 * 0x40 + c1 % 0x40; Scalar(cp) && Encoded(cp) == [c, c1]
  {
  }

  // A number in base 64.
  lemma Sextets(cp: nat)
    ensures cp == ((cp / 0x4_0000 * 0x40 + cp / 0x1000 % 0x40) * 0x40 + cp / 0x40 % 0x40) * 0x40 + cp % 0x40
    ensures cp / 0x1000 == cp / 0x4_0000 * 0x40 + cp / 0x1000 % 0x40
  {
    var q, e := cp / 0x40, cp % 0x40;
    var q', d := q / 0x40, q % 0x40;
    DivModUnique(cp, 0x1000, q', d * 0x40 + e);
    DivModUnique(cp, 0x4_0000, q' / 0x40, (q' % 0x40 * 0x40 + d) * 0x40 + e);
  }

  lemma ThreeBytes(c: Byte, c1: Byte, c2: Byte)
    requires 0xE0 <= c < 0xF0 && 0x80 <= c1 < 0xC0 && 0x80 <= c2 < 0xC0
    requires (c == 0xE0 ==> 0xA0 <= c1) && (c == 0xED ==> c1 < 0xA0)
    ensures var cp := (c % 0x10 * 0x40 + c1 % 0x40) * 0x40 + c2 % 0x40; Scalar(cp) && Encoded(cp) == [c, c1, c2]
  {
    hide Encoded, Scalar;
    var a, b, d := c % 0x10, c1 % 0x40, c2 % 0x40;
    assert c == 0xE0 + a && c1 == 0x80 + b && c2 == 0x80 + d;
    ThreeEncoded(a, b, d, c, c1, c2);
  }

  lemma ThreeEncoded(a: nat, b: nat, d: nat, c: Byte, c1: Byte, c2: Byte)
    requires a < 0x10 && b < 0x40 && d < 0x40 && (a == 0 ==> 0x20 <= b) && (a == 13 ==> b < 0x20)
    requires c == 0xE0 + a && c1 == 0x80 + b && c2 == 0x80 + d
    ensures var cp := (a * 0x40 + b) * 0x40 + d; Scalar(cp) && Encoded(cp) == [c, c1, c2]
  {
    var cp := (a * 0x40 + b) * 0x40 + d;
    DivModUnique(cp, 0x40, a * 0x40 + b, d);
    DivModUnique(a * 0x40 + b, 0x40, a, b);
    DivModUnique(cp, 0x1000, a, b * 0x40 + d);
  }

  lemma FourBytes(c: Byte, c1: Byte, c2: Byte, c3: Byte)
    requires 0xF0 <= c < 0xF5 && 0x80 <= c1 < 0xC0 && 0x80 <= c2 < 0xC0 && 0x80 <= c3 < 0xC0
    requires (c == 0xF0 ==> 0x90 <= c1) && (c == 0xF4 ==> c1 < 0x90)
    ensures var cp := ((c % 0x8 * 0x40 + c1 % 0x40) * 0x40 + c2 % 0x40) * 0x40 + c3 % 0x40;
            Scalar(cp) && Encoded(cp) == [c, c1, c2, c3]
  {
    hide Encoded, Scalar;
    var a, b, d, e := c % 0x8, c1 % 0x40, c2 % 0x40, c3 % 0x40;
    assert c == 0xF0 + a && c1 == 0x80 + b && c2 == 0x80 + d && c3 == 0x80 + e;
    FourEncoded(a, b, d, e, c, c1, c2, c3);
  }

  lemma FourEncoded(a: nat, b: nat, d: nat, e: nat, c: Byte, c1: Byte, c2: Byte, c3: Byte)
    requires a <= 4 && b < 0x40 && d < 0x40 && e < 0x40 && (a == 0 ==> 0x10 <= b) && (a == 4 ==> b < 0x10)
    requires c == 0xF0 + a && c1 == 0x80 + b && c2 == 0x80 + d && c3 == 0x80 + e
    ensures var cp := ((a * 0x40 + b) * 0x40 + d) * 0x40 + e; Scalar(cp) && Encoded(cp) == [c, c1, c2, c3]
  {
    FourBounds(a, b, d, e);
    Digits(a, b, d, e);
  }

  lemma FourBounds(a: nat, b: nat, d: nat, e: nat)
    requires a <= 4 && b < 0x40 && d < 0x40 && e < 0x40 && (a == 0 ==> 0x10 <= b) && (a == 4 ==> b < 0x10)
    ensures 0xFFFF < ((a * 0x40 + b) * 0x40 + d) * 0x40 + e <= 0x10FFFF
  {
  }

  // A well-formed sequence is the encoding of its value, which is a scalar value.
  lemma WellFormedIsEncoding(s: seq<Byte>)
    requires s != [] && WellFormed(s)
    ensures Scalar(Value(s)) && Encoded(Value(s)) <= s
  {
    hide Encoded, Scalar;
    var c := s[0];
    if c < 0x80 {
      OneByte(c);
    } else if c < 0xE0 {
      TwoBytes(c, s[1]);
    } else if c < 0xF0 {
      ThreeBytes(c, s[1], s[2]);
    } else {
      FourBytes(c, s[1], s[2], s[3]);
    }
  }

  lemma OneByte(c: Byte)
    requires c < 0x80
    ensures Scalar(c) && Encoded(c) == [c]
  {
  }

  lemma ShortShape(cp: nat)
    requires cp <= 0x7FF
    ensures WellFormed(Encoded(cp)) && Value(Encoded(cp)) == cp
  {
  }

  lemma ThreeShape(cp: nat)
    requires 0x800 <= cp <= 0xFFFF && Scalar(cp)
    ensures WellFormed(Encoded(cp)) && Value(Encoded(cp)) == cp
  {
    var a, b, d := cp / 0x1000, cp / 0x40 % 0x40, cp % 0x40;
    var s := Encoded(cp);
    assert s == [0xE0 + a, 0x80 + b, 0x80 + d];
    Sextets(cp);
    DivModUnique(cp, 0x4_0000, 0, cp);
    assert cp == (a * 0x40 + b) * 0x40 + d;
    assert s[0] == 0xE0 + a && s[1] == 0x80 + b && s[2] == 0x80 + d && a < 0x10;
  }

  lemma FourShape(cp: nat)
    requires 0x1_0000 <= cp <= 0x10FFFF
    ensures WellFormed(Encoded(cp)) && Value(Encoded(cp)) == cp
  {
    hide WellFormed, Value;
    var a, b, d, e := cp / 0x4_0000, cp / 0x1000 % 0x40, cp / 0x40 % 0x40, cp % 0x40;
    var s := Encoded(cp);
    assert s == [0xF0 + a, 0x80 + b, 0x80 + d, 0x80 + e];
    Sextets(cp);
    FourDigits(s, a, b, d, e);
  }

  lemma FourDigits(s: seq<Byte>, a: nat, b: nat, d: nat, e: nat)
    requires a <= 4 && b < 0x40 && d < 0x40 && e < 0x40 && (a == 0 ==> 0x10 <= b) && (a == 4 ==> b < 0x10)
    requires |s| == 4 && s[0] == 0xF0 + a && s[1] == 0x80 + b && s[2] == 0x80 + d && s[3] == 0x80 + e
    ensures WellFormed(s) && Value(s) == ((a * 0x40 + b) * 0x40 + d) * 0x40 + e
  {
  }

  lemma EncodedShape(cp: nat)
    requires Scalar(cp)
    ensures WellFormed(Encoded(cp)) && Value(Encoded(cp)) == cp
  {
    hide Encoded, WellFormed, Value;
    if cp <= 0x7FF {
      ShortShape(cp);
    } else if cp <= 0xFFFF {
      ThreeShape(cp);
    } else {
      FourShape(cp);
    }
  }

  // What follows a well-formed sequence does not matter.
  lemma WellFormedPrefix(b: seq<Byte>, s: seq<Byte>)
    requires b != [] && WellFormed(b) && b <= s
    ensures WellFormed(s) && Value(s) == Value(b)
  {
    assert forall i | 0 <= i < |b| :: s[i] == b[i];
  }

  // And every encoding of a scalar value is well-formed, with that value.
  lemma EncodingIsWellFormed(cp: nat, s: seq<Byte>)
    requires Scalar(cp) && Encoded(cp) <= s
    ensures WellFormed(s) && Value(s) == cp
  {
    hide WellFormed, Value, Encoded;
    EncodedShape(cp);
    WellFormedPrefix(Encoded(cp), s);
  }

  // s starts with the encoding of a scalar value exactly when it starts with a sequence the
  // grammar allows: no overlong form, no surrogate, nothing above U+10FFFF.
  lemma WellFormedExactly(s: seq<Byte>)
    requires s != []
    ensures WellFormed(s) <==> exists cp | Scalar(cp) :: Encoded(cp) <= s
  {
    hide WellFormed, Value, Encoded;
    if WellFormed(s) {
      WellFormedIsEncoding(s);
    }
    if cp :| Scalar(cp) && Encoded(cp) <= s {
      EncodingIsWellFormed(cp, s);
    }
  }

  // The encoder accepts surrogates, but no decoder accepts what it makes of them.
  lemma SurrogateNotDecoded(cp: nat, rest: seq<Byte>)
    requires Surrogate(cp)
    ensures !WellFormed(Encoded(cp) + rest)
  {
    var s := Encoded(cp) + rest;
    assert s[0] == 0xED && s[1] == 0x80 + cp / 0x40 % 0x40;
  }

  // Of the code points the encoder takes, exactly the scalar values are decoded again.
  lemma ScalarsDecoded(cp: nat, rest: seq<Byte>)
    requires cp <= 0x10FFFF
    ensures WellFormed(Encoded(cp) + rest) <==> Scalar(cp)
  {
    hide WellFormed, Encoded;
    if Scalar(cp) {
      EncodingIsWellFormed(cp, Encoded(cp) + rest);
    } else {
      SurrogateNotDecoded(cp, rest);
    }
  }

  // COPY, TRANS: the next byte's low six bits appended to the code point, and its range tested.
  // At the end of the stream the test fails.
  method Trans(ins: Stream<Byte>, codepoint: nat, mask: u8) returns (next: nat, result: bool)
    requires ins.Valid() && ins.terminator == 0
    modifies ins
    ensures ins.Valid() && old(ins.pos) <= ins.pos <= old(ins.pos) + 1
    ensures result <==> old(ins.pos) < |ins.src| && InMask(ins.src[old(ins.pos)], mask)
    ensures result ==> ins.pos == old(ins.pos) + 1 && next == codepoint * 0x40 + ins.src[old(ins.pos)] % 0x40
  {
    var c := ins.Take();
    next := codepoint * 0x40 + c % 0x40;
    result := InMask(c, mask);
    NullInNoMask(mask);
  }

  lemma NullInNoMask(mask: u8)
    ensures !InMask(0, mask)
  {
  }

  // The kinds of first byte.
  lemma Kinds(c: Byte)
    requires 0x80 <= c
    ensures GetRange(c) == 2 <==> 0xC2 <= c < 0xE0
    ensures GetRange(c) == 3 <==> 0xE1 <= c < 0xF0 && c != 0xED
    ensures GetRange(c) == 4 <==> c == 0xED
    ensures GetRange(c) == 5 <==> c == 0xF4
    ensures GetRange(c) == 6 <==> 0xF1 <= c < 0xF4
    ensures GetRange(c) == 10 <==> c == 0xE0
    ensures GetRange(c) == 11 <==> c == 0xF0
  {
  }

  // Byte i of s is there and in the masked ranges.
  predicate Passes(s: seq<Byte>, i: nat, mask: u8) {
    i < |s| && InMask(s[i], mask)
  }

  function Append1(s: seq<Byte>, start: nat): nat
    requires |s| >= 2
  {
    start * 0x40 + s[1] % 0x40
  }

  function Append2(s: seq<Byte>, start: nat): nat
    requires |s| >= 3
  {
    (start * 0x40 + s[1] % 0x40) * 0x40 + s[2] % 0x40
  }

  // Two bytes after the first of s, the first of them under a mask of its own.
  method TwoMore(ins: Stream<Byte>, start: nat, mask: u8, ghost s: seq<Byte>) returns (result: bool, codepoint: nat)
    requires ins.Valid() && ins.terminator == 0 && 0 < ins.pos && s == ins.src[ins.pos - 1..]
    modifies ins
    ensures ins.Valid() && old(ins.pos) <= ins.pos <= old(ins.pos) + 2
    ensures result <==> Passes(s, 1, mask) && Passes(s, 2, 0x70)
    ensures result ==> codepoint == Append2(s, start) && ins.pos == old(ins.pos) + 2
  {
    hide InMask;
    var r;
    codepoint, result := Trans(ins, start, mask);
    codepoint, r := Trans(ins, codepoint, 0x70);
    result := result && r;
  }

  // And three.
  method ThreeMore(ins: Stream<Byte>, start: nat, mask: u8, ghost s: seq<Byte>) returns (result: bool, codepoint: nat)
    requires ins.Valid() && ins.terminator == 0 && 0 < ins.pos && s == ins.src[ins.pos - 1..]
    modifies ins
    ensures ins.Valid() && old(ins.pos) <= ins.pos <= old(ins.pos) + 3
    ensures result <==> Passes(s, 1, mask) && Passes(s, 2, 0x70) && Passes(s, 3, 0x70)
    ensures result ==> codepoint == Append2(s, start) * 0x40 + s[3] % 0x40 && ins.pos == old(ins.pos) + 3
  {
    hide InMask;
    var r;
    result, codepoint := TwoMore(ins, start, mask, s);
    codepoint, r := Trans(ins, codepoint, 0x70);
    result := result && r;
  }

  lemma PassesMeaning(s: seq<Byte>, i: nat)
    ensures Passes(s, i, 0x70) <==> Tail(s, i)
    ensures Passes(s, i, 0x50) <==> Tail(s, i) && s[i] < 0xA0
    ensures Passes(s, i, 0x20) <==> Tail(s, i) && 0xA0 <= s[i]
    ensures Passes(s, i, 0x60) <==> Tail(s, i) && 0x90 <= s[i]
    ensures Passes(s, i, 0x10) <==> Tail(s, i) && s[i] < 0x90
  {
    hide InMask;
    if i < |s| {
      Masks(s[i]);
    }
  }

  // What the ranges tested and the bits kept come to, kind by kind.
  lemma ThreeByteKinds(s: seq<Byte>)
    requires s != []
    ensures 0xE1 <= s[0] < 0xF0 && s[0] != 0xED ==> ThreeByteKind(s, s[0] % 0x20, 0x70)
    ensures s[0] == 0xED ==> ThreeByteKind(s, s[0] % 0x10, 0x50)
    ensures s[0] == 0xE0 ==> ThreeByteKind(s, 0, 0x20)
  {
    hide Passes;
    PassesMeaning(s, 1);
    PassesMeaning(s, 2);
  }

  predicate ThreeByteKind(s: seq<Byte>, start: nat, mask: u8)
    requires s != []
  {
    && (WellFormed(s) <==> Passes(s, 1, mask) && Passes(s, 2, 0x70))
    && (WellFormed(s) ==> |s| >= 3 && Value(s) == Append2(s, start))
  }

  lemma FourByteKinds(s: seq<Byte>)
    requires s != []
    ensures 0xF1 <= s[0] < 0xF4 ==> FourByteKind(s, s[0] % 0x4, 0x70)
    ensures s[0] == 0xF4 ==> FourByteKind(s, s[0] % 0x8, 0x10)
    ensures s[0] == 0xF0 ==> FourByteKind(s, 0, 0x60)
  {
    hide Passes;
    PassesMeaning(s, 1);
    PassesMeaning(s, 2);
    PassesMeaning(s, 3);
  }

  predicate FourByteKind(s: seq<Byte>, start: nat, mask: u8)
    requires s != []
  {
    && (WellFormed(s) <==> Passes(s, 1, mask) && Passes(s, 2, 0x70) && Passes(s, 3, 0x70))
    && (WellFormed(s) ==> |s| >= 4 && Value(s) == Append2(s, start) * 0x40 + s[3] % 0x40)
  }

  lemma OtherKinds(s: seq<Byte>)
    requires s != [] && 0x80 <= s[0]
    ensures 0xC2 <= s[0] < 0xE0 ==>
              (WellFormed(s) <==> Passes(s, 1, 0x70)) && (WellFormed(s) ==> Value(s) == Append1(s, s[0] % 0x40))
    ensures s[0] < 0xC2 || 0xF4 < s[0] ==> !WellFormed(s)
  {
    hide Passes;
    PassesMeaning(s, 1);
  }

  // The bytes after a first byte that is not ASCII: how many and in which ranges depends on its
  // kind, and the kind also says how many of its own bits count.
  method DecodeTail(ins: Stream<Byte>, c: Byte, ghost s: seq<Byte>) returns (result: bool, codepoint: nat)
    requires ins.Valid() && ins.terminator == 0 && 0 < ins.pos && s == ins.src[ins.pos - 1..] && c == s[0] && 0x80 <= c
    modifies ins
    ensures ins.Valid() && old(ins.pos) <= ins.pos <= old(ins.pos) + 3
    ensures result <==> WellFormed(s)
    ensures result ==> codepoint == Value(s)
    ensures result ==> ins.pos == old(ins.pos) + if c < 0xE0 then 1 else if c < 0xF0 then 2 else 3
  {
    hide InMask, GetRange, Passes, WellFormed, Value, Append1, Append2;
    Kinds(c);
    ThreeByteKinds(s);
    FourByteKinds(s);
    OtherKinds(s);
    var kind := GetRange(c);
    if kind == 2 {
      result, codepoint := OneMore(ins, c % 0x40, s);
    } else if kind == 3 {
      result, codepoint := TwoMore(ins, c % 0x20, 0x70, s);
    } else if kind == 4 {
      result, codepoint := TwoMore(ins, c % 0x10, 0x50, s);
    } else if kind == 5 {
      result, codepoint := ThreeMore(ins, c % 0x8, 0x10, s);
    } else if kind == 6 {
      result, codepoint := ThreeMore(ins, c % 0x4, 0x70, s);
    } else if kind == 10 {
      result, codepoint := TwoMore(ins, 0, 0x20, s);
    } else if kind == 11 {
      result, codepoint := ThreeMore(ins, 0, 0x60, s);
    } else {
      codepoint, result := 0, false;
    }
  }

  method OneMore(ins: Stream<Byte>, start: nat, ghost s: seq<Byte>) returns (result: bool, codepoint: nat)
    requires ins.Valid() && ins.terminator == 0 && 0 < ins.pos && s == ins.src[ins.pos - 1..]
    modifies ins
    ensures ins.Valid() && old(ins.pos) <= ins.pos <= old(ins.pos) + 1
    ensures result <==> Passes(s, 1, 0x70)
    ensures result ==> codepoint == Append1(s, start) && ins.pos == old(ins.pos) + 1
  {
    hide InMask;
    codepoint, result := Trans(ins, start, 0x70);
  }

  // UTF8::Decode: accepts exactly when the stream is at its end (which reads as a null
  // character) or a well-formed sequence follows, and then yields its value and consumes it.
  method Decode(ins: Stream<Byte>) returns (result: bool, codepoint: nat)
    requires ins.Valid() && ins.terminator == 0
    modifies ins
    ensures ins.Valid() && old(ins.pos) <= ins.pos <= old(ins.pos) + 4
    ensures old(ins.pos) == |ins.src| ==> result && codepoint == 0 && ins.pos == old(ins.pos)
    ensures old(ins.pos) < |ins.src| ==> ins.pos > old(ins.pos) && (result <==> WellFormed(old(ins.Rest())))
    ensures old(ins.pos) < |ins.src| && result ==> Decoded(old(ins.Rest()), codepoint, ins.pos - old(ins.pos))
  {
    hide WellFormed, Value, Encoded, Scalar;
    ghost var s := ins.Rest();
    var c := ins.Take();
    if c < 0x80 {
      if s != [] {
        OneByte(c);
        AsciiWellFormed(s);
      }
      return true, c;
    }
    result, codepoint := DecodeTail(ins, c, s);
    if result {
      WellFormedIsEncoding(s);
      EncodedLength(codepoint, c);
    }
  }

  // The first n bytes of s encode codepoint.
  predicate Decoded(s: seq<Byte>, codepoint: nat, n: int) {
    Scalar(codepoint) && 0 <= n <= |s| && s[..n] == Encoded(codepoint)
  }

  lemma AsciiWellFormed(s: seq<Byte>)
    requires s != [] && s[0] < 0x80
    ensures WellFormed(s)
  {
  }

  // The first byte tells the length.
  lemma EncodedLength(cp: nat, c: Byte)
    requires Scalar(cp) && Encoded(cp)[0] == c
    ensures |Encoded(cp)| == if c < 0x80 then 1 else if c < 0xE0 then 2 else if c < 0xF0 then 3 else 4
  {
  }

  // ---------------------------------------------------------------- whole strings

  predicate Scalars(cps: seq<nat>) {
    forall i | 0 <= i < |cps| :: Scalar(cps[i])
  }

  function EncodedAll(cps: seq<nat>): seq<Byte>
    requires Scalars(cps)
  {
    if cps == [] then [] else Encoded(cps[0]) + EncodedAll(cps[1..])
  }

  lemma {:induction false} EncodedAppend(cps: seq<nat>, cp: nat)
    requires Scalars(cps) && Scalar(cp)
    ensures EncodedAll(cps + [cp]) == EncodedAll(cps) + Encoded(cp)
  {
    hide Encoded;
    if cps == [] {
      assert EncodedAll([cp]) == Encoded(cp) + EncodedAll([cp][1..]);
    } else {
      assert (cps + [cp])[1..] == cps[1..] + [cp];
      EncodedAppend(cps[1..], cp);
    }
  }

  // A string of bytes encodes at most one sequence of scalar values.
  lemma {:induction false} UniquelyDecodable(a: seq<nat>, b: seq<nat>)
    requires Scalars(a) && Scalars(b) && EncodedAll(a) == EncodedAll(b)
    ensures a == b
  {
    hide Encoded;
    if a != [] && b != [] {
      var s := EncodedAll(a);
      EncodingIsWellFormed(a[0], s);
      EncodingIsWellFormed(b[0], s);
      assert EncodedAll(a[1..]) == s[|Encoded(a[0])|..] == EncodedAll(b[1..]);
      UniquelyDecodable(a[1..], b[1..]);
    }
  }

  method EncodeAll(os: Output<Byte>, cps: seq<nat>)
    requires Scalars(cps)
    modifies os
    ensures os.data == old(os.data) + EncodedAll(cps)
  {
    hide Encoded;
    for i := 0 to |cps|
      invariant os.data == old(os.data) + EncodedAll(cps[..i])
    {
      Encode(os, cps[i]);
      EncodedAppend(cps[..i], cps[i]);
      assert cps[..i + 1] == cps[..i] + [cps[i]];
    }
    assert cps[..|cps|] == cps;
  }

  // Some sequence of scalar values has this encoding.
  ghost predicate Utf8(s: seq<Byte>) {
    exists cps | Scalars(cps) :: EncodedAll(cps) == s
  }

  // If a string continues an encoding with anything, it is UTF-8 only if more well-formed bytes
  // follow.
  lemma {:induction false} Utf8Continues(cps: seq<nat>, whole: seq<nat>)
    requires Scalars(cps) && Scalars(whole) && EncodedAll(cps) < EncodedAll(whole)
    ensures WellFormed(EncodedAll(whole)[|EncodedAll(cps)|..])
    decreases cps
  {
    hide Encoded, WellFormed;
    assert whole != [];
    var s := EncodedAll(whole);
    if cps == [] {
      EncodingIsWellFormed(whole[0], s);
      assert s[0..] == s;
    } else {
      EncodingIsWellFormed(whole[0], s);
      EncodingIsWellFormed(cps[0], s);
      var n := |Encoded(cps[0])|;
      assert s[n..] == EncodedAll(whole[1..]) && EncodedAll(cps)[n..] == EncodedAll(cps[1..]);
      Utf8Continues(cps[1..], whole[1..]);
      assert s[n..][|EncodedAll(cps[1..])|..] == s[|EncodedAll(cps)|..];
    }
  }

  // Decoding a stream to its end succeeds exactly on UTF-8, and gives the one sequence of scalar
  // values it encodes.
  method DecodeAll(ins: Stream<Byte>) returns (result: bool, cps: seq<nat>)
    requires ins.Valid() && ins.terminator == 0 && ins.pos == 0
    modifies ins
    ensures result <==> Utf8(ins.src)
    ensures result ==> Scalars(cps) && EncodedAll(cps) == ins.src
  {
    hide WellFormed, Encoded, Scalar;
    cps := [];
    while ins.pos < |ins.src|
      invariant ins.Valid() && Scalars(cps) && EncodedAll(cps) == ins.src[..ins.pos]
      decreases |ins.src| - ins.pos
    {
      ghost var before := ins.pos;
      var codepoint;
      result, codepoint := Decode(ins);
      if !result {
        NotUtf8(ins.src, cps, before);
        return;
      }
      EncodedAppend(cps, codepoint);
      cps := cps + [codepoint];
      assert ins.src[..ins.pos] == ins.src[..before] + ins.src[before..][..ins.pos - before];
    }
    result := true;
    assert EncodedAll(cps) == ins.src;
  }

  lemma NotUtf8(s: seq<Byte>, cps: seq<nat>, n: nat)
    requires n < |s| && Scalars(cps) && EncodedAll(cps) == s[..n] && !WellFormed(s[n..])
    ensures !Utf8(s)
  {
    hide WellFormed, Encoded, Scalar;
    if whole :| Scalars(whole) && EncodedAll(whole) == s {
      Utf8Continues(cps, whole);
    }
  }

  // Decoding what was encoded gives it back.
  method RoundTrip(cps: seq<nat>) returns (result: bool, decoded: seq<nat>)
    requires Scalars(cps)
    ensures result && decoded == cps
  {
    hide Encoded, Scalar;
    var os := new Output<Byte>();
    EncodeAll(os, cps);
    assert os.data == EncodedAll(cps);
    var ins := new Stream<Byte>(os.data, 0);
    result, decoded := DecodeAll(ins);
    UniquelyDecodable(decoded, cps);
  }

  // ---------------------------------------------------------------- UTF-16

  // UTF16::Encode
  method Encode16(os: Output<Unit16>, codepoint: nat)
    requires Scalar(codepoint)
    modifies os
    ensures os.data == old(os.data) + Encoded16(codepoint)
  {
    if codepoint <= 0xFFFF {
      os.Put(codepoint);
    } else {
      var v := codepoint - 0x1_0000;
      os.Put(v / 0x400 + 0xD800);
      os.Put(v % 0x400 + 0xDC00);
    }
  }

  // Section 2.2 of RFC 2781: s starts with a unit of its own or with a surrogate pair.
  predicate WellFormed16(s: seq<Unit16>)
    requires s != []
  {
    !Surrogate(s[0]) || (s[0] < 0xDC00 && 1 < |s| && 0xDC00 <= s[1] <= 0xDFFF)
  }

  function Value16(s: seq<Unit16>): nat
    requires s != [] && WellFormed16(s)
  {
    var t: seq<int> := s;
    if !Surrogate(s[0]) then t[0] else t[0] % 0x400 * 0x400 + t[1] % 0x400 + 0x1_0000
  }

  lemma PairIsEncoding(a: Unit16, b: Unit16)
    requires 0xD800 <= a < 0xDC00 && 0xDC00 <= b <= 0xDFFF
    ensures var cp := a % 0x400 * 0x400 + b % 0x400 + 0x1_0000; Scalar(cp) && Encoded16(cp) == [a, b]
  {
    var v := a % 0x400 * 0x400 + b % 0x400;
    DivModUnique(v, 0x400, a % 0x400, b % 0x400);
  }

  // A unit or pair encodes its value.
  lemma WellFormed16IsEncoding(s: seq<Unit16>)
    requires s != [] && WellFormed16(s)
    ensures Scalar(Value16(s)) && Encoded16(Value16(s)) <= s
  {
    if Surrogate(s[0]) {
      PairIsEncoding(s[0], s[1]);
    }
  }

  lemma Encoding16IsWellFormed(cp: nat, s: seq<Unit16>)
    requires Scalar(cp) && Encoded16(cp) <= s
    ensures WellFormed16(s) && Value16(s) == cp
  {
    var u := Encoded16(cp);
    assert forall i | 0 <= i < |u| :: s[i] == u[i];
  }

  // A string starts with the encoding of a scalar value exactly when it starts with no lone
  // surrogate.
  lemma WellFormed16Exactly(s: seq<Unit16>)
    requires s != []
    ensures WellFormed16(s) <==> exists cp | Scalar(cp) :: Encoded16(cp) <= s
  {
    hide WellFormed16, Value16, Encoded16;
    if WellFormed16(s) {
      WellFormed16IsEncoding(s);
    }
    if cp :| Scalar(cp) && Encoded16(cp) <= s {
      Encoding16IsWellFormed(cp, s);
    }
  }

  // UTF16::Decode
  method Decode16(ins: Stream<Unit16>) returns (result: bool, codepoint: nat)
    requires ins.Valid() && ins.terminator == 0
    modifies ins
    ensures ins.Valid() && old(ins.pos) <= ins.pos <= old(ins.pos) + 2
    ensures old(ins.pos) == |ins.src| ==> result && codepoint == 0 && ins.pos == old(ins.pos)
    ensures old(ins.pos) < |ins.src| ==> ins.pos > old(ins.pos) && (result <==> WellFormed16(old(ins.Rest())))
    ensures old(ins.pos) < |ins.src| && result ==> Decoded16(old(ins.Rest()), codepoint, ins.pos - old(ins.pos))
  {
    ghost var s := ins.Rest();
    var c := ins.Take();
    codepoint := 0;
    if c < 0xD800 || c > 0xDFFF {
      codepoint := c;
      result := true;
    } else if c <= 0xDBFF {
      codepoint := c % 0x400 * 0x400;
      var d := ins.Take();
      codepoint := codepoint + d % 0x400 + 0x1_0000;
      result := d >= 0xDC00 && d <= 0xDFFF;
      if result {
        PairIsEncoding(c, d);
      }
    } else {
      result := false;
    }
  }

  // The first n units of s encode codepoint.
  predicate Decoded16(s: seq<Unit16>, codepoint: nat, n: int) {
    Scalar(codepoint) && 0 <= n <= |s| && s[..n] == Encoded16(codepoint)
  }

  function EncodedAll16(cps: seq<nat>): seq<Unit16>
    requires Scalars(cps)
  {
    if cps == [] then [] else Encoded16(cps[0]) + EncodedAll16(cps[1..])
  }

  lemma {:induction false} UniquelyDecodable16(a: seq<nat>, b: seq<nat>)
    requires Scalars(a) && Scalars(b) && EncodedAll16(a) == EncodedAll16(b)
    ensures a == b
  {
    hide Encoded16;
    if a != [] && b != [] {
      var s := EncodedAll16(a);
      Encoding16IsWellFormed(a[0], s);
      Encoding16IsWellFormed(b[0], s);
      assert EncodedAll16(a[1..]) == s[|Encoded16(a[0])|..] == EncodedAll16(b[1..]);
      UniquelyDecodable16(a[1..], b[1..]);
    }
  }

  lemma EncodedAll16Step(cps: seq<nat>, k: nat)
    requires Scalars(cps) && k < |cps|
    ensures EncodedAll16(cps[k..]) == Encoded16(cps[k]) + EncodedAll16(cps[k + 1..])
  {
    assert cps[k..][1..] == cps[k + 1..];
  }

  method EncodeAll16(os: Output<Unit16>, cps: seq<nat>)
    requires Scalars(cps)
    modifies os
    ensures os.data == old(os.data) + EncodedAll16(cps)
  {
    hide Encoded16;
    for i := 0 to |cps|
      invariant os.data + EncodedAll16(cps[i..]) == old(os.data) + EncodedAll16(cps)
    {
      EncodedAll16Step(cps, i);
      Encode16(os, cps[i]);
    }
  }

  // Some sequence of scalar values has this encoding.
  ghost predicate Utf16(s: seq<Unit16>) {
    exists cps | Scalars(cps) :: EncodedAll16(cps) == s
  }

  lemma {:induction false} EncodedAppend16(cps: seq<nat>, cp: nat)
    requires Scalars(cps) && Scalar(cp)
    ensures EncodedAll16(cps + [cp]) == EncodedAll16(cps) + Encoded16(cp)
  {
    hide Encoded16;
    if cps == [] {
      assert EncodedAll16([cp]) == Encoded16(cp) + EncodedAll16([cp][1..]);
    } else {
      assert (cps + [cp])[1..] == cps[1..] + [cp];
      EncodedAppend16(cps[1..], cp);
    }
  }

  lemma {:induction false} Utf16Continues(cps: seq<nat>, whole: seq<nat>)
    requires Scalars(cps) && Scalars(whole) && EncodedAll16(cps) < EncodedAll16(whole)
    ensures WellFormed16(EncodedAll16(whole)[|EncodedAll16(cps)|..])
    decreases cps
  {
    hide Encoded16, WellFormed16;
    assert whole != [];
    var s := EncodedAll16(whole);
    Encoding16IsWellFormed(whole[0], s);
    if cps == [] {
      assert s[0..] == s;
    } else {
      Encoding16IsWellFormed(cps[0], s);
      var n := |Encoded16(cps[0])|;
      assert s[n..] == EncodedAll16(whole[1..]) && EncodedAll16(cps)[n..] == EncodedAll16(cps[1..]);
      Utf16Continues(cps[1..], whole[1..]);
      assert s[n..][|EncodedAll16(cps[1..])|..] == s[|EncodedAll16(cps)|..];
    }
  }

  lemma NotUtf16(s: seq<Unit16>, cps: seq<nat>, n: nat)
    requires n < |s| && Scalars(cps) && EncodedAll16(cps) == s[..n] && !WellFormed16(s[n..])
    ensures !Utf16(s)
  {
    hide WellFormed16, Encoded16, Scalar;
    if whole :| Scalars(whole) && EncodedAll16(whole) == s {
      Utf16Continues(cps, whole);
    }
  }

  // Decoding a stream to its end succeeds exactly on UTF-16, and gives the one sequence of scalar
  // values it encodes.
  method DecodeAll16(ins: Stream<Unit16>) returns (result: bool, cps: seq<nat>)
    requires ins.Valid() && ins.terminator == 0 && ins.pos == 0
    modifies ins
    ensures result <==> Utf16(ins.src)
    ensures result ==> Scalars(cps) && EncodedAll16(cps) == ins.src
  {
    hide WellFormed16, Encoded16, Scalar;
    cps := [];
    while ins.pos < |ins.src|
      invariant ins.Valid() && Scalars(cps) && EncodedAll16(cps) == ins.src[..ins.pos]
      decreases |ins.src| - ins.pos
    {
      ghost var before := ins.pos;
      var codepoint;
      result, codepoint := Decode16(ins);
      if !result {
        NotUtf16(ins.src, cps, before);
        return;
      }
      EncodedAppend16(cps, codepoint);
      cps := cps + [codepoint];
      assert ins.src[..ins.pos] == ins.src[..before] + ins.src[before..][..ins.pos - before];
    }
    result := true;
    assert EncodedAll16(cps) == ins.src;
  }

  // Decoding what was encoded gives it back.
  method RoundTrip16(cps: seq<nat>) returns (result: bool, decoded: seq<nat>)
    requires Scalars(cps)
    ensures result && decoded == cps
  {
    hide Encoded16, Scalar;
    var os := new Output<Unit16>();
    EncodeAll16(os, cps);
    assert os.data == EncodedAll16(cps);
    var ins := new Stream<Unit16>(os.data, 0);
    result, decoded := DecodeAll16(ins);
    UniquelyDecodable16(decoded, cps);
  }
}
