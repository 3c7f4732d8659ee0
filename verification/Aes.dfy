// The table-driven AES round and the AES-256 key schedule of the software path, over any S-box.
module Aes {
  import opened Words

  // ---------------------------------------------------------------- FIPS 197

  // Four bytes of the state or of the key, first byte first.
  datatype Column = Column(b0: u8, b1: u8, b2: u8, b3: u8)

  type Sbox = u8 -> u8

  function Add(a: u8, b: u8): u8 { a ^ b }

  function XorColumn(a: Column, b: Column): Column {
    Column(Add(a.b0, b.b0), Add(a.b1, b.b1), Add(a.b2, b.b2), Add(a.b3, b.b3))
  }

  // Multiplication by two and by three in GF(2^8) modulo x^8 + x^4 + x^3 + x + 1.
  function Twice(b: u8): u8 {
    if b & 0x80 != 0 then (b << 1) ^ 0x1B else b << 1
  }

  lemma ShiftAdds(a: u8, b: u8)
    ensures (a ^ b) << 1 == (a << 1) ^ (b << 1)
  {
  }

  lemma TopAdds(a: u8, b: u8)
    ensures ((a ^ b) & 0x80 != 0) == ((a & 0x80 != 0) != (b & 0x80 != 0))
  {
  }

  lemma Regrouped(x: u8, y: u8, p: u8)
    ensures (x ^ y) ^ p == (x ^ p) ^ y && (x ^ y) ^ p == x ^ (y ^ p) && x ^ y == (x ^ p) ^ (y ^ p)
  {
  }

  // Doubling is linear, and takes the example of section 4.2.1 of FIPS 197 through its powers.
  lemma TwiceIsXtime(a: u8, b: u8)
    ensures Twice(Add(a, b)) == Add(Twice(a), Twice(b))
    ensures Twice(0x57) == 0xAE && Twice(0xAE) == 0x47 && Twice(0x47) == 0x8E && Twice(0x8E) == 0x07
  {
    ShiftAdds(a, b);
    TopAdds(a, b);
    Regrouped(a << 1, b << 1, 0x1B);
  }

  function Thrice(b: u8): u8 {
    Twice(b) ^ b
  }

  // The state column by column: byte r of column c is row r.
  datatype State = State(c0: Column, c1: Column, c2: Column, c3: Column)

  function SubColumn(sbox: Sbox, c: Column): Column {
    Column(sbox(c.b0), sbox(c.b1), sbox(c.b2), sbox(c.b3))
  }

  function SubBytes(sbox: Sbox, s: State): State {
    State(SubColumn(sbox, s.c0), SubColumn(sbox, s.c1), SubColumn(sbox, s.c2), SubColumn(sbox, s.c3))
  }

  // Row r moves r columns to the left.
  function ShiftRows(s: State): State {
    State(Column(s.c0.b0, s.c1.b1, s.c2.b2, s.c3.b3), Column(s.c1.b0, s.c2.b1, s.c3.b2, s.c0.b3),
          Column(s.c2.b0, s.c3.b1, s.c0.b2, s.c1.b3), Column(s.c3.b0, s.c0.b1, s.c1.b2, s.c2.b3))
  }

  function Sum(a: u8, b: u8, c: u8, d: u8): u8 {
    Add(Add(Add(a, b), c), d)
  }

  function MixColumn(c: Column): Column {
    Column(Sum(Twice(c.b0), Thrice(c.b1), c.b2, c.b3), Sum(c.b0, Twice(c.b1), Thrice(c.b2), c.b3),
           Sum(c.b0, c.b1, Twice(c.b2), Thrice(c.b3)), Sum(Thrice(c.b0), c.b1, c.b2, Twice(c.b3)))
  }

  function MixColumns(s: State): State {
    State(MixColumn(s.c0), MixColumn(s.c1), MixColumn(s.c2), MixColumn(s.c3))
  }

  function AddRoundKey(s: State, k: State): State {
    State(XorColumn(s.c0, k.c0), XorColumn(s.c1, k.c1), XorColumn(s.c2, k.c2), XorColumn(s.c3, k.c3))
  }

  function Round(sbox: Sbox, s: State, k: State): State {
    AddRoundKey(MixColumns(ShiftRows(SubBytes(sbox, s))), k)
  }

  function RotWord(c: Column): Column {
    Column(c.b1, c.b2, c.b3, c.b0)
  }

  type Key256 = k: seq<Column> | |k| == 8 witness seq(8, _ => Column(0, 0, 0, 0))

  // x^(n - 1) in the first byte.
  function Rcon(n: nat): Column
    requires 1 <= n
  {
    Column(if n == 1 then 1 else Twice(Rcon(n - 1).b0), 0, 0, 0)
  }

  // What is added to the word eight places back, from the word before.
  function Temp(sbox: Sbox, before: Column, i: nat): Column
    requires i >= 8
  {
    if i % 8 == 0 then XorColumn(SubColumn(sbox, RotWord(before)), Rcon(i / 8))
    else if i % 8 == 4 then SubColumn(sbox, before)
    else before
  }

  // Word i of the AES-256 key expansion, Nk = 8.
  function KeyWord(sbox: Sbox, key: Key256, i: nat): Column {
    if i < 8 then key[i]
    else XorColumn(KeyWord(sbox, key, i - 8), Temp(sbox, KeyWord(sbox, key, i - 1), i))
  }

  // ---------------------------------------------------------------- the code's words and vectors

  // Four 32-bit lanes, lane 0 lowest.
  datatype Vec = Vec(w0: u32, w1: u32, w2: u32, w3: u32)

  function Xor(a: u32, b: u32): u32 { a ^ b }

  function XorVec(a: Vec, b: Vec): Vec {
    Vec(Xor(a.w0, b.w0), Xor(a.w1, b.w1), Xor(a.w2, b.w2), Xor(a.w3, b.w3))
  }

  function Byte0(w: u32): u8 { (w & 0xFF) as u8 }
  function Byte1(w: u32): u8 { ((w >> 8) & 0xFF) as u8 }
  function Byte2(w: u32): u8 { ((w >> 16) & 0xFF) as u8 }
  function Byte3(w: u32): u8 { (w >> 24) as u8 }

  // The bytes of a lane in memory order.
  function ColumnOf(w: u32): Column {
    Column(Byte0(w), Byte1(w), Byte2(w), Byte3(w))
  }

  function StateOf(v: Vec): State {
    State(ColumnOf(v.w0), ColumnOf(v.w1), ColumnOf(v.w2), ColumnOf(v.w3))
  }

  // saes_b2w, saes_f2 and saes_f3
  function B2W(b0: u32, b1: u32, b2: u32, b3: u32): u32 {
    (b3 << 24) | (b2 << 16) | (b1 << 8) | b0
  }

  function F2(x: u32): u32 {
    (x << 1) ^ (((x >> 7) & 1) * 0x11B)
  }

  function F3(x: u32): u32 {
    F2(x) ^ x
  }

  function Wide(b: u8): u32 { b as u32 }

  // The four tables, as functions of the S-box entry they are built from.
  function U0(p: u8): u32 { B2W(F2(Wide(p)), Wide(p), Wide(p), F3(Wide(p))) }
  function U1(p: u8): u32 { B2W(F3(Wide(p)), F2(Wide(p)), Wide(p), Wide(p)) }
  function U2(p: u8): u32 { B2W(Wide(p), F3(Wide(p)), F2(Wide(p)), Wide(p)) }
  function U3(p: u8): u32 { B2W(Wide(p), Wide(p), F3(Wide(p)), F2(Wide(p))) }

  function Lookups(sbox: Sbox, a: u32, b: u32, c: u32, d: u32): u32 {
    Xor(Xor(Xor(U0(sbox(Byte0(a))), U1(sbox(Byte1(b)))), U2(sbox(Byte2(c)))), U3(sbox(Byte3(d))))
  }

  function SoftAesenc(sbox: Sbox, v: Vec, key: Vec): Vec {
    XorVec(Vec(Lookups(sbox, v.w0, v.w1, v.w2, v.w3), Lookups(sbox, v.w1, v.w2, v.w3, v.w0),
               Lookups(sbox, v.w2, v.w3, v.w0, v.w1), Lookups(sbox, v.w3, v.w0, v.w1, v.w2)), key)
  }

  lemma XorBytes(a: u32, b: u32)
    ensures ColumnOf(Xor(a, b)) == XorColumn(ColumnOf(a), ColumnOf(b))
  {
  }

  // The tables spell out doubling and tripling modulo the AES polynomial.
  lemma TableBytes(p: u8)
    ensures ColumnOf(U0(p)) == Column(Twice(p), p, p, Thrice(p))
    ensures ColumnOf(U1(p)) == Column(Thrice(p), Twice(p), p, p)
    ensures ColumnOf(U2(p)) == Column(p, Thrice(p), Twice(p), p)
    ensures ColumnOf(U3(p)) == Column(p, p, Thrice(p), Twice(p))
  {
  }

  lemma LookupsMix(sbox: Sbox, a: u32, b: u32, c: u32, d: u32)
    ensures ColumnOf(Lookups(sbox, a, b, c, d))
         == MixColumn(Column(sbox(Byte0(a)), sbox(Byte1(b)), sbox(Byte2(c)), sbox(Byte3(d))))
  {
    hide Add, Twice, Thrice, U0, U1, U2, U3, Xor, ColumnOf, Byte0, Byte1, Byte2, Byte3;
    var p, q, s, t := sbox(Byte0(a)), sbox(Byte1(b)), sbox(Byte2(c)), sbox(Byte3(d));
    TableBytes(p);
    TableBytes(q);
    TableBytes(s);
    TableBytes(t);
    XorBytes(U0(p), U1(q));
    XorBytes(Xor(U0(p), U1(q)), U2(s));
    XorBytes(Xor(Xor(U0(p), U1(q)), U2(s)), U3(t));
  }

  // The table round is MixColumns of ShiftRows of SubBytes, xor the round key, for any S-box.
  lemma SoftAesencIsRound(sbox: Sbox, v: Vec, key: Vec)
    ensures StateOf(SoftAesenc(sbox, v, key)) == Round(sbox, StateOf(v), StateOf(key))
  {
    hide Lookups, Xor, MixColumn, XorColumn, Byte0, Byte1, Byte2, Byte3;
    LookupsMix(sbox, v.w0, v.w1, v.w2, v.w3);
    LookupsMix(sbox, v.w1, v.w2, v.w3, v.w0);
    LookupsMix(sbox, v.w2, v.w3, v.w0, v.w1);
    LookupsMix(sbox, v.w3, v.w0, v.w1, v.w2);
    XorBytes(Lookups(sbox, v.w0, v.w1, v.w2, v.w3), key.w0);
    XorBytes(Lookups(sbox, v.w1, v.w2, v.w3, v.w0), key.w1);
    XorBytes(Lookups(sbox, v.w2, v.w3, v.w0, v.w1), key.w2);
    XorBytes(Lookups(sbox, v.w3, v.w0, v.w1, v.w2), key.w3);
  }

  // ---------------------------------------------------------------- the key schedule

  function SubWord(sbox: Sbox, w: u32): u32 {
    B2W(Wide(sbox(Byte0(w))), Wide(sbox(Byte1(w))), Wide(sbox(Byte2(w))), Wide(sbox(Byte3(w))))
  }

  // _rotr(w, 8)
  function Rotr8(w: u32): u32 {
    (w >> 8) | (w << 24)
  }

  // soft_aeskeygenassist
  function KeyGenAssist(sbox: Sbox, key: Vec, rcon: u8): Vec {
    var x1, x3 := SubWord(sbox, key.w1), SubWord(sbox, key.w3);
    Vec(x1, Xor(Rotr8(x1), Wide(rcon)), x3, Xor(Rotr8(x3), Wide(rcon)))
  }

  // _mm_slli_si128 by four bytes
  function LanesUp(v: Vec): Vec {
    Vec(0, v.w0, v.w1, v.w2)
  }

  function Broadcast(w: u32): Vec {
    Vec(w, w, w, w)
  }

  lemma XorZero(a: u32)
    ensures Xor(a, 0) == a
  {
  }

  // Every lane xored with all lanes below it.
  method SlXor(v: Vec) returns (r: Vec)
    ensures r == Vec(v.w0, Xor(v.w1, v.w0), Xor(Xor(v.w2, v.w1), v.w0), Xor(Xor(Xor(v.w3, v.w2), v.w1), v.w0))
  {
    hide Xor;
    XorZero(v.w0);
    XorZero(Xor(v.w1, v.w0));
    XorZero(Xor(Xor(v.w2, v.w1), v.w0));
    var tmp1 := v;
    var tmp4 := LanesUp(tmp1);
    tmp1 := XorVec(tmp1, tmp4);
    tmp4 := LanesUp(tmp4);
    tmp1 := XorVec(tmp1, tmp4);
    tmp4 := LanesUp(tmp4);
    tmp1 := XorVec(tmp1, tmp4);
    r := tmp1;
  }

  // Four consecutive words of the key expansion, from word i on.
  function Four(sbox: Sbox, key: Key256, i: nat): State {
    State(KeyWord(sbox, key, i), KeyWord(sbox, key, i + 1), KeyWord(sbox, key, i + 2), KeyWord(sbox, key, i + 3))
  }

  lemma SubWordBytes(sbox: Sbox, w: u32)
    ensures ColumnOf(SubWord(sbox, w)) == SubColumn(sbox, ColumnOf(w))
  {
    hide Byte0, Byte1, Byte2, Byte3;
    PackedBytes(sbox(Byte0(w)), sbox(Byte1(w)), sbox(Byte2(w)), sbox(Byte3(w)));
  }

  lemma PackedBytes(b0: u8, b1: u8, b2: u8, b3: u8)
    ensures ColumnOf(B2W(Wide(b0), Wide(b1), Wide(b2), Wide(b3))) == Column(b0, b1, b2, b3)
  {
  }

  lemma RotrBytes(w: u32)
    ensures ColumnOf(Rotr8(w)) == RotWord(ColumnOf(w))
  {
  }

  lemma RconBytes(r: u8)
    ensures ColumnOf(Wide(r)) == Column(r, 0, 0, 0)
  {
  }

  // Xor of columns in any order.
  lemma XorColumnLaws(a: Column, b: Column, c: Column)
    ensures XorColumn(a, b) == XorColumn(b, a) && XorColumn(XorColumn(a, b), c) == XorColumn(a, XorColumn(b, c))
  {
  }

  // sl_xor and the broadcast word together make four chained words: each is the one before it
  // xored with its own old lane.
  lemma Chained(a: Column, b: Column, c: Column, d: Column, t: Column)
    ensures var x := XorColumn(a, t);
            && XorColumn(XorColumn(b, a), t) == XorColumn(b, x)
            && XorColumn(XorColumn(XorColumn(c, b), a), t) == XorColumn(c, XorColumn(b, x))
            && XorColumn(XorColumn(XorColumn(XorColumn(d, c), b), a), t) == XorColumn(d, XorColumn(c, XorColumn(b, x)))
  {
    hide XorColumn;
    var x := XorColumn(a, t);
    XorColumnLaws(b, a, t);
    XorColumnLaws(XorColumn(c, b), a, t);
    XorColumnLaws(c, b, x);
    XorColumnLaws(XorColumn(XorColumn(d, c), b), a, t);
    XorColumnLaws(XorColumn(d, c), b, x);
    XorColumnLaws(d, c, XorColumn(b, x));
  }

  // Four words of the expansion from the four eight places back and the word before.
  lemma NextFour(sbox: Sbox, key: Key256, i: nat, t: Column)
    requires i >= 8 && i % 4 == 0
    requires t == Temp(sbox, KeyWord(sbox, key, i - 1), i)
    ensures var s := Four(sbox, key, i - 8);
            var x := XorColumn(s.c0, t);
            Four(sbox, key, i) == State(x, XorColumn(s.c1, x), XorColumn(s.c2, XorColumn(s.c1, x)),
                                        XorColumn(s.c3, XorColumn(s.c2, XorColumn(s.c1, x))))
  {
    hide XorColumn, KeyWord, Temp;
    WordStep(sbox, key, i);
    WordStep(sbox, key, i + 1);
    WordStep(sbox, key, i + 2);
    WordStep(sbox, key, i + 3);
  }

  lemma MultipleOfFour(i: nat)
    requires i % 8 == 0 || i % 8 == 4
    ensures i % 4 == 0
  {
    var q := i / 8;
    DivModUnique(i, 4, if i % 8 == 0 then 2 * q else 2 * q + 1, 0);
  }

  lemma WordStep(sbox: Sbox, key: Key256, i: nat)
    requires i >= 8
    ensures KeyWord(sbox, key, i) == XorColumn(KeyWord(sbox, key, i - 8), Temp(sbox, KeyWord(sbox, key, i - 1), i))
    ensures i % 4 != 0 ==> Temp(sbox, KeyWord(sbox, key, i - 1), i) == KeyWord(sbox, key, i - 1)
  {
    hide XorColumn, SubColumn, Rcon;
    if i % 8 == 0 || i % 8 == 4 {
      MultipleOfFour(i);
    }
  }

  // Half of a key-schedule step: sl_xor, then a word xored into every lane.
  method MixIn(sbox: Sbox, v: Vec, word: u32, ghost key: Key256, ghost i: nat) returns (r: Vec)
    requires i >= 8 && i % 4 == 0 && StateOf(v) == Four(sbox, key, i - 8)
    requires ColumnOf(word) == Temp(sbox, KeyWord(sbox, key, i - 1), i)
    ensures StateOf(r) == Four(sbox, key, i)
  {
    hide Xor, XorColumn, ColumnOf, KeyWord, Temp;
    var s := SlXor(v);
    r := XorVec(s, Broadcast(word));
    NextFour(sbox, key, i, ColumnOf(word));
    Chained(ColumnOf(v.w0), ColumnOf(v.w1), ColumnOf(v.w2), ColumnOf(v.w3), ColumnOf(word));
    XorBytes(v.w1, v.w0);
    XorBytes(v.w2, v.w1);
    XorBytes(Xor(v.w2, v.w1), v.w0);
    XorBytes(v.w3, v.w2);
    XorBytes(Xor(v.w3, v.w2), v.w1);
    XorBytes(Xor(Xor(v.w3, v.w2), v.w1), v.w0);
    XorBytes(s.w0, word);
    XorBytes(s.w1, word);
    XorBytes(s.w2, word);
    XorBytes(s.w3, word);
  }

  // The first half of soft_aes_genkey_sub, and the second.
  method SubTop(sbox: Sbox, xout0: Vec, xout2: Vec, rcon: u8, ghost key: Key256, ghost i: nat) returns (r0: Vec)
    requires i >= 8 && i % 8 == 0
    requires StateOf(xout0) == Four(sbox, key, i - 8) && StateOf(xout2) == Four(sbox, key, i - 4)
    requires Rcon(i / 8) == Column(rcon, 0, 0, 0)
    ensures StateOf(r0) == Four(sbox, key, i)
  {
    hide *;
    MultipleOfFour(i);
    AssistTop(sbox, xout2, rcon, key, i);
    var xout1 := KeyGenAssist(sbox, xout2, rcon);
    r0 := MixIn(sbox, xout0, xout1.w3, key, i);
  }

  method SubMiddle(sbox: Sbox, xout0: Vec, xout2: Vec, ghost key: Key256, ghost i: nat) returns (r2: Vec)
    requires i >= 8 && i % 8 == 4
    requires StateOf(xout2) == Four(sbox, key, i - 8) && StateOf(xout0) == Four(sbox, key, i - 4)
    ensures StateOf(r2) == Four(sbox, key, i)
  {
    hide *;
    MultipleOfFour(i);
    AssistMiddle(sbox, xout0, key, i);
    var xout1 := KeyGenAssist(sbox, xout0, 0);
    r2 := MixIn(sbox, xout2, xout1.w2, key, i);
  }

  // soft_aes_genkey_sub: the next eight words of the expansion.
  method SoftAesGenkeySub(sbox: Sbox, xout0: Vec, xout2: Vec, rcon: u8, ghost key: Key256, ghost i: nat)
    returns (r0: Vec, r2: Vec)
    requires i >= 8 && i % 8 == 0
    requires StateOf(xout0) == Four(sbox, key, i - 8) && StateOf(xout2) == Four(sbox, key, i - 4)
    requires Rcon(i / 8) == Column(rcon, 0, 0, 0)
    ensures StateOf(r0) == Four(sbox, key, i) && StateOf(r2) == Four(sbox, key, i + 4)
  {
    hide *;
    ghost var h := i + 4;
    assert h % 8 == 4 && h - 4 == i && h - 8 == i - 4;
    r0 := SubTop(sbox, xout0, xout2, rcon, key, i);
    r2 := SubMiddle(sbox, r0, xout2, key, h);
  }

  lemma LastWord(sbox: Sbox, v: Vec, key: Key256, i: nat)
    requires StateOf(v) == Four(sbox, key, i)
    ensures ColumnOf(v.w3) == KeyWord(sbox, key, i + 3)
  {
    hide ColumnOf, KeyWord;
  }

  lemma AssistTop(sbox: Sbox, v: Vec, rcon: u8, key: Key256, i: nat)
    requires i >= 8 && i % 8 == 0 && Rcon(i / 8) == Column(rcon, 0, 0, 0) && StateOf(v) == Four(sbox, key, i - 4)
    ensures ColumnOf(KeyGenAssist(sbox, v, rcon).w3) == Temp(sbox, KeyWord(sbox, key, i - 1), i)
  {
    hide Xor, XorColumn, ColumnOf, Rotr8, Wide, SubWord, Rcon, StateOf, Four, KeyWord;
    var w := SubWord(sbox, v.w3);
    LastWord(sbox, v, key, i - 4);
    XorBytes(Rotr8(w), Wide(rcon));
    RotrBytes(w);
    SubWordBytes(sbox, v.w3);
    RconBytes(rcon);
  }

  lemma AssistMiddle(sbox: Sbox, v: Vec, key: Key256, i: nat)
    requires i >= 8 && i % 8 == 4 && StateOf(v) == Four(sbox, key, i - 4)
    ensures ColumnOf(KeyGenAssist(sbox, v, 0).w2) == Temp(sbox, KeyWord(sbox, key, i - 1), i)
  {
    hide Xor, ColumnOf, Rotr8, Wide, SubWord, StateOf, Four, KeyWord;
    LastWord(sbox, v, key, i - 4);
    SubWordBytes(sbox, v.w3);
  }

  lemma FirstRcons()
    ensures Rcon(1) == Column(1, 0, 0, 0) && Rcon(2) == Column(2, 0, 0, 0)
    ensures Rcon(3) == Column(4, 0, 0, 0) && Rcon(4) == Column(8, 0, 0, 0)
  {
  }

  // aes_genkey: the ten vectors are the first forty words of the AES-256 key expansion.
  method AesGenkey(sbox: Sbox, memory0: Vec, memory1: Vec, ghost key: Key256) returns (k: seq<Vec>)
    requires StateOf(memory0) == Four(sbox, key, 0) && StateOf(memory1) == Four(sbox, key, 4)
    ensures |k| == 10 && forall j | 0 <= j < 10 :: StateOf(k[j]) == Four(sbox, key, 4 * j)
  {
    hide Four, StateOf, Rcon;
    FirstRcons();
    var xout0, xout2 := memory0, memory1;
    k := [xout0, xout2];
    xout0, xout2 := SoftAesGenkeySub(sbox, xout0, xout2, 0x01, key, 8);
    k := k + [xout0, xout2];
    xout0, xout2 := SoftAesGenkeySub(sbox, xout0, xout2, 0x02, key, 16);
    k := k + [xout0, xout2];
    xout0, xout2 := SoftAesGenkeySub(sbox, xout0, xout2, 0x04, key, 24);
    k := k + [xout0, xout2];
    xout0, xout2 := SoftAesGenkeySub(sbox, xout0, xout2, 0x08, key, 32);
    k := k + [xout0, xout2];
  }
}
