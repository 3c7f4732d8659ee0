// Keccak-f[1600] in place on 25 lanes, and the sponge built on it.
module Keccak {
  import Words
  import opened WordBits

  type u64 = Words.u64
  type Lanes = s: seq<u64> | |s| == 25 witness seq(25, _ => 0)

  // ---------------------------------------------------------------- the five step mappings
  // Section 3.2 of FIPS 202; lane (x, y) is word x + 5 * y.

  function AndNot(a: u64, b: u64): u64 { !a & b }
  function TurnOne(a: u64): u64 { (a << 1) | (a >> 63) }

  // ROTL64
  function Rot(a: u64, n: nat): u64 {
    if n == 0 then a else TurnOne(Rot(a, n - 1))
  }

  function Lane(a: Lanes, x: nat, y: nat): u64
    requires x < 5 && y < 5
  {
    a[x + 5 * y]
  }

  function FromLanes(f: (nat, nat) --> u64): Lanes
    requires forall x, y | x < 5 && y < 5 :: f.requires(x, y)
  {
    var r: seq<u64> := seq(25, i requires 0 <= i < 25 => f(i % 5, i / 5));
    r
  }

  function Parity(a: Lanes, x: nat): u64
    requires x < 5
  {
    Xor(Xor(Xor(Xor(Lane(a, x, 0), Lane(a, x, 1)), Lane(a, x, 2)), Lane(a, x, 3)), Lane(a, x, 4))
  }

  function Theta(a: Lanes): Lanes {
    FromLanes((x: nat, y: nat) requires x < 5 && y < 5 =>
      Xor(Lane(a, x, y), Xor(Parity(a, (x + 4) % 5), Rot(Parity(a, (x + 1) % 5), 1))))
  }

  // Rho rotates the lane met in step t of the walk (x, y) -> (y, 2x + 3y) from (1, 0) by
  // (t + 1)(t + 2) / 2, and lane (0, 0) not at all. Here the walk has come to (px, py) in t steps.
  function Offset(x: nat, y: nat, px: nat, py: nat, t: nat): (r: nat)
    requires t <= 24
    ensures r < 64
    decreases 24 - t
  {
    if t == 24 then 0
    else if (px, py) == (x, y) then ((t + 1) * (t + 2) / 2) % 64
    else Offset(x, y, py, (2 * px + 3 * py) % 5, t + 1)
  }

  function RhoOffset(x: nat, y: nat): (r: nat)
    ensures r < 64
  {
    Offset(x, y, 1, 0, 0)
  }

  function Rho(a: Lanes): Lanes {
    FromLanes((x: nat, y: nat) requires x < 5 && y < 5 => Rot(Lane(a, x, y), RhoOffset(x, y)))
  }

  function Pi(a: Lanes): Lanes {
    FromLanes((x: nat, y: nat) requires x < 5 && y < 5 => Lane(a, (x + 3 * y) % 5, x))
  }

  // (x + 1) mod 5
  function Next(x: nat): (n: nat)
    requires x < 5
    ensures n < 5
  {
    if x == 4 then 0 else x + 1
  }

  function ChiLane(a: Lanes, x: nat, y: nat): u64
    requires x < 5 && y < 5
  {
    Xor(Lane(a, x, y), AndNot(Lane(a, Next(x), y), Lane(a, Next(Next(x)), y)))
  }

  function Chi(a: Lanes): Lanes {
    FromLanes((x: nat, y: nat) requires x < 5 && y < 5 => ChiLane(a, x, y))
  }

  const ROUND_CONSTANTS: seq<u64> := [
    0x0000000000000001, 0x0000000000008082, 0x800000000000808a,
    0x8000000080008000, 0x000000000000808b, 0x0000000080000001,
    0x8000000080008081, 0x8000000000008009, 0x000000000000008a,
    0x0000000000000088, 0x0000000080008009, 0x000000008000000a,
    0x000000008000808b, 0x800000000000008b, 0x8000000000008089,
    0x8000000000008003, 0x8000000000008002, 0x8000000000000080,
    0x000000000000800a, 0x800000008000000a, 0x8000000080008081,
    0x8000000000008080, 0x0000000080000001, 0x8000000080008008]

  function Iota(a: Lanes, round: nat): Lanes
    requires round < 24
  {
    a[0 := Xor(a[0], ROUND_CONSTANTS[round])]
  }

  function Round(a: Lanes, round: nat): Lanes
    requires round < 24
  {
    Iota(Chi(Pi(Rho(Theta(a)))), round)
  }

  function Rounds(a: Lanes, n: nat): Lanes
    requires n <= 24
  {
    if n == 0 then a else Round(Rounds(a, n - 1), n - 1)
  }

  function Pick(x: nat, r0: nat, r1: nat, r2: nat, r3: nat, r4: nat): nat {
    if x == 0 then r0 else if x == 1 then r1 else if x == 2 then r2 else if x == 3 then r3 else r4
  }

  // The rotation of every lane, tabulated.
  function RhoTable(x: nat, y: nat): nat {
    if y == 0 then Pick(x, 0, 1, 62, 28, 27)
    else if y == 1 then Pick(x, 36, 44, 6, 55, 20)
    else if y == 2 then Pick(x, 3, 10, 43, 25, 39)
    else if y == 3 then Pick(x, 41, 45, 15, 21, 8)
    else Pick(x, 18, 2, 61, 56, 14)
  }

  // One step of the walk, with the numbers worked out.
  lemma WalkStep(x: nat, y: nat, px: nat, py: nat, t: nat, r: nat, nx: nat, ny: nat)
    requires t < 24 && r == ((t + 1) * (t + 2) / 2) % 64 && nx == py && ny == (2 * px + 3 * py) % 5
    ensures Offset(x, y, px, py, t) == if (px, py) == (x, y) then r else Offset(x, y, nx, ny, t + 1)
  {
  }

  // The lanes met in steps 12 to 23.
  predicate MetLate(x: nat, y: nat) {
    (x, y) == (4, 0) || (x, y) == (0, 3) || (x, y) == (3, 4) || (x, y) == (4, 3) || (x, y) == (3, 2) || (x, y) == (2, 2)
    || (x, y) == (2, 0) || (x, y) == (0, 4) || (x, y) == (4, 2)
    || (x, y) == (2, 4) || (x, y) == (4, 1) || (x, y) == (1, 1)
  }

  lemma WalkSecondHalf(x: nat, y: nat)
    requires x < 5 && y < 5
    ensures Offset(x, y, 4, 0, 12) == if MetLate(x, y) then RhoTable(x, y) else 0
  {
    hide Offset;
    WalkStep(x, y, 4, 0, 12, 27, 0, 3);
    WalkStep(x, y, 0, 3, 13, 41, 3, 4);
    WalkStep(x, y, 3, 4, 14, 56, 4, 3);
    WalkStep(x, y, 4, 3, 15, 8, 3, 2);
    WalkStep(x, y, 3, 2, 16, 25, 2, 2);
    WalkStep(x, y, 2, 2, 17, 43, 2, 0);
    WalkStep(x, y, 2, 0, 18, 62, 0, 4);
    WalkStep(x, y, 0, 4, 19, 18, 4, 2);
    WalkStep(x, y, 4, 2, 20, 39, 2, 4);
    WalkStep(x, y, 2, 4, 21, 61, 4, 1);
    WalkStep(x, y, 4, 1, 22, 20, 1, 1);
    WalkStep(x, y, 1, 1, 23, 44, 1, 0);
    WalkEnd(x, y);
  }

  // The walk meets every lane but (0, 0) and gives it its tabulated offset.
  lemma RhoOffsetTable(x: nat, y: nat)
    requires x < 5 && y < 5
    ensures RhoOffset(x, y) == RhoTable(x, y)
  {
    hide Offset;
    WalkStep(x, y, 1, 0, 0, 1, 0, 2);
    WalkStep(x, y, 0, 2, 1, 3, 2, 1);
    WalkStep(x, y, 2, 1, 2, 6, 1, 2);
    WalkStep(x, y, 1, 2, 3, 10, 2, 3);
    WalkStep(x, y, 2, 3, 4, 15, 3, 3);
    WalkStep(x, y, 3, 3, 5, 21, 3, 0);
    WalkStep(x, y, 3, 0, 6, 28, 0, 1);
    WalkStep(x, y, 0, 1, 7, 36, 1, 3);
    WalkStep(x, y, 1, 3, 8, 45, 3, 1);
    WalkStep(x, y, 3, 1, 9, 55, 1, 4);
    WalkStep(x, y, 1, 4, 10, 2, 4, 4);
    WalkStep(x, y, 4, 4, 11, 14, 4, 0);
    WalkSecondHalf(x, y);
  }

  lemma WalkEnd(x: nat, y: nat)
    ensures Offset(x, y, 1, 0, 24) == 0
  {
  }

  // ---------------------------------------------------------------- the cycle of rho and pi

  // The lane that pi brings to position j.
  function Src(j: nat): (i: nat)
    requires j < 25
    ensures i < 25
  {
    (j % 5 + 3 * (j / 5)) % 5 + 5 * (j % 5)
  }

  // How far the lane that comes to j has been rotated.
  function Turn(j: nat): (r: nat)
    requires j < 25
    ensures r < 64
  {
    RhoTable(Src(j) % 5, Src(j) / 5)
  }

  lemma SrcParts(j: nat)
    requires j < 25
    ensures Src(j) % 5 == (j % 5 + 3 * (j / 5)) % 5 && Src(j) / 5 == j % 5
  {
    Words.DivModUnique(Src(j), 5, j % 5, (j % 5 + 3 * (j / 5)) % 5);
  }

  lemma PiAt(a: Lanes, j: nat)
    requires j < 25
    ensures Pi(a)[j] == a[Src(j)]
  {
  }

  lemma RhoAt(a: Lanes, i: nat)
    requires i < 25
    ensures Rho(a)[i] == Rot(a[i], RhoOffset(i % 5, i / 5))
  {
    hide Rot, RhoOffset;
    assert i % 5 + 5 * (i / 5) == i;
  }

  lemma PiRhoAt(a: Lanes, j: nat)
    requires j < 25
    ensures Pi(Rho(a))[j] == Rot(a[Src(j)], Turn(j))
  {
    hide Rot, Offset, RhoOffset, RhoTable, Rho, Pi;
    var src := Src(j);
    SrcParts(j);
    PiAt(Rho(a), j);
    RhoAt(a, src);
    RhoOffsetTable(src % 5, src / 5);
  }

  // Lane 0 stays; the other 24 form one cycle. The n-th assignment of the source fills lane
  // Dst(n); Index is the inverse.
  function Dst(n: nat): (j: nat)
    ensures j < 25
  {
    if n == 0 then 1 else if n == 1 then 6 else if n == 2 then 9 else
    if n == 3 then 22 else if n == 4 then 14 else if n == 5 then 20 else
    if n == 6 then 2 else if n == 7 then 12 else if n == 8 then 13 else
    if n == 9 then 19 else if n == 10 then 23 else if n == 11 then 15 else
    if n == 12 then 4 else if n == 13 then 24 else if n == 14 then 21 else
    if n == 15 then 8 else if n == 16 then 16 else if n == 17 then 5 else
    if n == 18 then 3 else if n == 19 then 18 else if n == 20 then 17 else
    if n == 21 then 11 else if n == 22 then 7 else 10
  }

  function Index(j: nat): nat {
    if j == 0 then 24 else if j == 1 then 0 else if j == 2 then 6 else
    if j == 3 then 18 else if j == 4 then 12 else if j == 5 then 17 else
    if j == 6 then 1 else if j == 7 then 22 else if j == 8 then 15 else
    if j == 9 then 2 else if j == 10 then 23 else if j == 11 then 21 else
    if j == 12 then 7 else if j == 13 then 8 else if j == 14 then 4 else
    if j == 15 then 11 else if j == 16 then 16 else if j == 17 then 20 else
    if j == 18 then 19 else if j == 19 then 9 else if j == 20 then 5 else
    if j == 21 then 14 else if j == 22 then 3 else if j == 23 then 10 else
    13
  }

  lemma DstIndex(n: nat)
    requires n < 24
    ensures Index(Dst(n)) == n
  {
    if n < 6 { } else if n < 12 { } else if n < 18 { } else { }
  }

  // pi takes its lane for Dst(n) from Dst(n + 1).
  lemma SrcIsNext(n: nat)
    requires n < 23
    ensures Src(Dst(n)) == Dst(n + 1)
  {
    if n < 12 {
      SrcIsNextBelow(n);
    } else {
      SrcIsNextAbove(n);
    }
  }

  lemma SrcIsNextBelow(n: nat)
    requires n < 12
    ensures Src(Dst(n)) == Dst(n + 1)
  {
    if n < 6 { } else { }
  }

  lemma SrcIsNextAbove(n: nat)
    requires 12 <= n < 23
    ensures Src(Dst(n)) == Dst(n + 1)
  {
    if n < 18 { } else { }
  }

  lemma CycleFacts(n: nat)
    requires n < 24
    ensures Index(Dst(n)) == n
    ensures n < 23 ==> Index(Src(Dst(n))) == n + 1
  {
    hide Index, Dst, Src;
    DstIndex(n);
    if n < 23 {
      SrcIsNext(n);
      DstIndex(n + 1);
    }
  }

  lemma IndexInverse(j: nat)
    requires 0 < j < 25
    ensures Index(j) < 24 && Dst(Index(j)) == j
  {
    if j < 6 { } else if j < 12 { } else if j < 18 { } else { }
  }

  // The state after the first n assignments.
  function Moved(a: Lanes, n: nat): Lanes
    requires n <= 23
  {
    if n == 0 then a
    else
      var b, j := Moved(a, n - 1), Dst(n - 1);
      b[j := Rot(b[Src(j)], Turn(j))]
  }

  // Every assignment reads a lane that no assignment before it has overwritten.
  lemma {:induction false} MovedAt(a: Lanes, n: nat, j: nat)
    requires n <= 23 && j < 25
    ensures Moved(a, n)[j] == if j > 0 && Index(j) < n then Rot(a[Src(j)], Turn(j)) else a[j]
    decreases n
  {
    hide Rot, Dst, Index, Src, Turn;
    if n > 0 {
      CycleFacts(n - 1);
      MovedAt(a, n - 1, j);
      MovedAt(a, n - 1, Src(Dst(n - 1)));
      if j > 0 { IndexInverse(j); }
      IndexZero();
    }
  }

  lemma IndexZero()
    ensures Index(0) == 24 && Src(0) == 0 && Turn(0) == 0
  {
  }

  // ---------------------------------------------------------------- the rounds in place

  lemma ThetaAt(a: Lanes, j: nat)
    requires j < 25
    ensures Theta(a)[j] == Xor(a[j], Xor(Parity(a, (j % 5 + 4) % 5), Rot(Parity(a, (j % 5 + 1) % 5), 1)))
  {
    hide Xor, Rot, Parity;
    assert Lane(a, j % 5, j / 5) == a[j];
  }

  function AddColumn(a: Lanes, i: nat, t: u64): Lanes
    requires i < 5
  {
    a[i := Xor(a[i], t)][i + 5 := Xor(a[i + 5], t)][i + 10 := Xor(a[i + 10], t)]
     [i + 15 := Xor(a[i + 15], t)][i + 20 := Xor(a[i + 20], t)]
  }

  lemma AddColumnAt(a: Lanes, i: nat, t: u64, j: nat)
    requires i < 5 && j < 25
    ensures AddColumn(a, i, t)[j] == if j % 5 == i then Xor(a[j], t) else a[j]
  {
    hide Xor;
    forall k | 0 <= k < 5
      ensures (i + 5 * k) % 5 == i && (i + 5 * k) / 5 == k
    {
      Words.DivModUnique(i + 5 * k, 5, k, i);
    }
    assert j == 5 * (j / 5) + j % 5;
  }

  // Adds t to every lane of column i.
  method XorColumn(st: array<u64>, i: nat, t: u64)
    requires st.Length == 25 && i < 5
    modifies st
    ensures st[..] == AddColumn(old(st[..]), i, t)
  {
    hide Xor;
    st[i] := Xor(st[i], t);
    st[i + 5] := Xor(st[i + 5], t);
    st[i + 10] := Xor(st[i + 10], t);
    st[i + 15] := Xor(st[i + 15], t);
    st[i + 20] := Xor(st[i + 20], t);
  }

  method ColumnParities(st: array<u64>) returns (bc: seq<u64>)
    requires st.Length == 25
    ensures |bc| == 5 && bc[0] == Parity(st[..], 0) && bc[1] == Parity(st[..], 1) && bc[2] == Parity(st[..], 2)
    ensures bc[3] == Parity(st[..], 3) && bc[4] == Parity(st[..], 4)
  {
    hide Xor;
    bc := [
      Xor(Xor(Xor(Xor(st[0], st[5]), st[10]), st[15]), st[20]),
      Xor(Xor(Xor(Xor(st[1], st[6]), st[11]), st[16]), st[21]),
      Xor(Xor(Xor(Xor(st[2], st[7]), st[12]), st[17]), st[22]),
      Xor(Xor(Xor(Xor(st[3], st[8]), st[13]), st[18]), st[23]),
      Xor(Xor(Xor(Xor(st[4], st[9]), st[14]), st[19]), st[24])];
  }

  method ThetaInPlace(st: array<u64>)
    requires st.Length == 25
    modifies st
    ensures st[..] == Theta(old(st[..]))
  {
    ghost var a: Lanes := st[..];
    var bc := ColumnParities(st);
    assert forall x | 0 <= x < 5 :: bc[x] == Parity(a, x);
    XorColumns(st, bc, a);
  }

  method XorColumns(st: array<u64>, bc: seq<u64>, ghost a: Lanes)
    requires st.Length == 25 && st[..] == a && |bc| == 5
    requires forall x | 0 <= x < 5 :: bc[x] == Parity(a, x)
    modifies st
    ensures st[..] == Theta(a)
  {
    hide Xor, Rot, Theta, Parity, AddColumn;
    for i := 0 to 5
      invariant forall j | 0 <= j < 25 :: st[j] == if j % 5 < i then Theta(a)[j] else a[j]
    {
      var t := Xor(bc[(i + 4) % 5], Rot(bc[(i + 1) % 5], 1));
      ghost var b: Lanes := st[..];
      XorColumn(st, i, t);
      forall j | 0 <= j < 25 ensures st[j] == if j % 5 <= i then Theta(a)[j] else a[j] {
        ThetaAt(a, j);
        AddColumnAt(b, i, t, j);
      }
    }
  }

  // One assignment of the rho-pi cycle, the n-th.
  method Assign(st: array<u64>, dst: nat, src: nat, r: nat, ghost a: Lanes, ghost n: nat)
    requires st.Length == 25 && n < 23 && st[..] == Moved(a, n)
    requires dst == Dst(n) && src == Src(dst) && r == Turn(dst)
    modifies st
    ensures st[..] == Moved(a, n + 1)
  {
    hide Rot, Dst, Src, Turn;
    st[dst] := Rot(st[src], r);
  }

  // A single temporary carries the cycle of 24 lanes round.
  method RhoPiInPlace(st: array<u64>)
    requires st.Length == 25
    modifies st
    ensures st[..] == Pi(Rho(old(st[..])))
  {
    hide Rot, Pi, Rho, Moved;
    ghost var a: Lanes := st[..];
    assert Moved(a, 0) == a by { MovedStart(a); }
    var t := st[1];
    AssignToStep6(st, a);
    AssignToStep12(st, a);
    AssignToStep18(st, a);
    AssignToStep23(st, a);
    st[10] := Rot(t, 1);
    CycleClosed(a);
  }

  method AssignToStep6(st: array<u64>, ghost a: Lanes)
    requires st.Length == 25 && st[..] == Moved(a, 0)
    modifies st
    ensures st[..] == Moved(a, 6)
  {
    hide Rot, Moved;
    Assign(st, 1, 6, 44, a, 0);
    Assign(st, 6, 9, 20, a, 1);
    Assign(st, 9, 22, 61, a, 2);
    Assign(st, 22, 14, 39, a, 3);
    Assign(st, 14, 20, 18, a, 4);
    Assign(st, 20, 2, 62, a, 5);
  }

  method AssignToStep12(st: array<u64>, ghost a: Lanes)
    requires st.Length == 25 && st[..] == Moved(a, 6)
    modifies st
    ensures st[..] == Moved(a, 12)
  {
    hide Rot, Moved;
    Assign(st, 2, 12, 43, a, 6);
    Assign(st, 12, 13, 25, a, 7);
    Assign(st, 13, 19, 8, a, 8);
    Assign(st, 19, 23, 56, a, 9);
    Assign(st, 23, 15, 41, a, 10);
    Assign(st, 15, 4, 27, a, 11);
  }

  method AssignToStep18(st: array<u64>, ghost a: Lanes)
    requires st.Length == 25 && st[..] == Moved(a, 12)
    modifies st
    ensures st[..] == Moved(a, 18)
  {
    hide Rot, Moved;
    Assign(st, 4, 24, 14, a, 12);
    Assign(st, 24, 21, 2, a, 13);
    Assign(st, 21, 8, 55, a, 14);
    Assign(st, 8, 16, 45, a, 15);
    Assign(st, 16, 5, 36, a, 16);
    Assign(st, 5, 3, 28, a, 17);
  }

  method AssignToStep23(st: array<u64>, ghost a: Lanes)
    requires st.Length == 25 && st[..] == Moved(a, 18)
    modifies st
    ensures st[..] == Moved(a, 23)
  {
    hide Rot, Moved;
    Assign(st, 3, 18, 21, a, 18);
    Assign(st, 18, 17, 15, a, 19);
    Assign(st, 17, 11, 10, a, 20);
    Assign(st, 11, 7, 6, a, 21);
    Assign(st, 7, 10, 3, a, 22);
  }

  lemma MovedStart(a: Lanes)
    ensures Moved(a, 0) == a
  {
  }

  lemma LastAssignment()
    ensures Dst(23) == 10 && Src(10) == 1 && Turn(10) == 1 && Index(10) == 23
  {
  }

  lemma RotZero(a: u64)
    ensures Rot(a, 0) == a
  {
  }

  lemma CycleClosed(a: Lanes)
    ensures Moved(a, 23)[10 := Rot(a[1], 1)] == Pi(Rho(a))
  {
    hide Rot, Pi, Rho, Moved, Index, Src, Turn;
    IndexZero();
    LastAssignment();
    RotZero(a[0]);
    forall j | 0 <= j < 25
      ensures Moved(a, 23)[10 := Rot(a[1], 1)][j] == Pi(Rho(a))[j]
    {
      PiRhoAt(a, j);
      MovedAt(a, 23, j);
      if j > 0 { IndexInverse(j); }
    }
  }

  // Rows below k hold chi of a, the others a itself.
  ghost predicate ChiDone(st: seq<u64>, a: Lanes, k: nat) {
    |st| == 25 && forall x, y | 0 <= x < 5 && 0 <= y < 5 ::
      Lane(st, x, y) == if y < k then ChiLane(a, x, y) else Lane(a, x, y)
  }

  lemma ChiAllDone(st: Lanes, a: Lanes)
    requires ChiDone(st, a, 5)
    ensures st == Chi(a)
  {
    hide ChiLane;
    forall i | 0 <= i < 25 ensures st[i] == Chi(a)[i] {
      var x, y := i % 5, i / 5;
      assert Lane(st, x, y) == ChiLane(a, x, y);
    }
  }

  lemma ChiLaneSame(was: Lanes, a: Lanes, x: nat, k: nat)
    requires x < 5 && k < 5 && ChiDone(was, a, k)
    ensures ChiLane(was, x, k) == ChiLane(a, x, k)
  {
    hide Xor, AndNot, Lane;
  }

  // Writing the five lanes of chi into row k.
  lemma ChiRowDone(was: Lanes, now: Lanes, a: Lanes, k: nat)
    requires k < 5 && ChiDone(was, a, k)
    requires forall i | 0 <= i < 25 && !(5 * k <= i < 5 * k + 5) :: now[i] == was[i]
    requires now[5 * k] == ChiLane(was, 0, k) && now[5 * k + 1] == ChiLane(was, 1, k)
    requires now[5 * k + 2] == ChiLane(was, 2, k) && now[5 * k + 3] == ChiLane(was, 3, k)
    requires now[5 * k + 4] == ChiLane(was, 4, k)
    ensures ChiDone(now, a, k + 1)
  {
    hide ChiLane;
    forall x, y | 0 <= x < 5 && 0 <= y < 5
      ensures Lane(now, x, y) == if y < k + 1 then ChiLane(a, x, y) else Lane(a, x, y)
    {
      if y == k {
        ChiLaneSame(was, a, x, k);
        if x == 0 { } else if x == 1 { } else if x == 2 { } else if x == 3 { } else { }
      } else {
        assert Lane(now, x, y) == Lane(was, x, y);
      }
    }
  }

  // The five values are chi of row y of a.
  ghost predicate ChiWritten(a: Lanes, y: nat, v0: u64, v1: u64, v2: u64, v3: u64, v4: u64)
    requires y < 5
  {
    && v0 == ChiLane(a, 0, y) && v1 == ChiLane(a, 1, y) && v2 == ChiLane(a, 2, y)
    && v3 == ChiLane(a, 3, y) && v4 == ChiLane(a, 4, y)
  }

  lemma ChiLanes(a: Lanes, y: nat, w0: u64, w1: u64, w2: u64, w3: u64, w4: u64)
    requires y < 5
    requires w0 == a[5 * y] && w1 == a[5 * y + 1] && w2 == a[5 * y + 2] && w3 == a[5 * y + 3] && w4 == a[5 * y + 4]
    ensures ChiWritten(a, y, Xor(w0, AndNot(w1, w2)), Xor(w1, AndNot(w2, w3)), Xor(w2, AndNot(w3, w4)),
                       Xor(w3, AndNot(w4, w0)), Xor(w4, AndNot(w0, w1)))
  {
    hide Xor, AndNot;
  }

  // One statement of the row: lane i takes in lanes or saved values x and y.
  method ChiOne(st: array<u64>, i: nat, x: u64, y: u64)
    requires i < st.Length
    modifies st
    ensures st[..] == old(st[..])[i := Xor(old(st[i]), AndNot(x, y))]
  {
    hide Xor, AndNot;
    st[i] := Xor(st[i], AndNot(x, y));
  }

  // The row with its first two lanes saved.
  method ChiRowInPlace(st: array<u64>, j: nat, ghost y: nat)
    requires st.Length == 25 && j == 5 * y && y < 5
    modifies st
    ensures forall i | 0 <= i < 25 && !(j <= i < j + 5) :: st[i] == old(st[i])
    ensures ChiWritten(old(st[..]), y, st[j], st[j + 1], st[j + 2], st[j + 3], st[j + 4])
  {
    hide *;
    ghost var a: Lanes := st[..];
    ChiLanes(a, y, a[j], a[j + 1], a[j + 2], a[j + 3], a[j + 4]);
    var bc0, bc1 := st[j], st[j + 1];
    ChiOne(st, j, st[j + 1], st[j + 2]);
    ChiOne(st, j + 1, st[j + 2], st[j + 3]);
    ChiOne(st, j + 2, st[j + 3], st[j + 4]);
    ChiOne(st, j + 3, st[j + 4], bc0);
    ChiOne(st, j + 4, bc0, bc1);
  }

  // The last row, with all five lanes saved.
  method ChiLastRowInPlace(st: array<u64>, j: nat, ghost y: nat)
    requires st.Length == 25 && j == 5 * y && y < 5
    modifies st
    ensures forall i | 0 <= i < 25 && !(j <= i < j + 5) :: st[i] == old(st[i])
    ensures ChiWritten(old(st[..]), y, st[j], st[j + 1], st[j + 2], st[j + 3], st[j + 4])
  {
    hide Xor, AndNot, ChiWritten;
    ghost var a: Lanes := st[..];
    ghost var w0, w1, w2, w3, w4 := st[j], st[j + 1], st[j + 2], st[j + 3], st[j + 4];
    var bc0, bc1, bc2, bc3, bc4 := st[j], st[j + 1], st[j + 2], st[j + 3], st[j + 4];
    st[j] := Xor(st[j], AndNot(bc1, bc2));
    st[j + 1] := Xor(st[j + 1], AndNot(bc2, bc3));
    st[j + 2] := Xor(st[j + 2], AndNot(bc3, bc4));
    st[j + 3] := Xor(st[j + 3], AndNot(bc4, bc0));
    st[j + 4] := Xor(st[j + 4], AndNot(bc0, bc1));
    ChiLanes(a, y, w0, w1, w2, w3, w4);
  }

  method ChiInPlace(st: array<u64>)
    requires st.Length == 25
    modifies st
    ensures st[..] == Chi(old(st[..]))
  {
    hide ChiLane, Chi;
    ghost var a: Lanes := st[..];
    for y := 0 to 5
      invariant ChiDone(st[..], a, y)
    {
      ghost var was: Lanes := st[..];
      if y < 4 {
        ChiRowInPlace(st, 5 * y, y);
      } else {
        ChiLastRowInPlace(st, 5 * y, y);
      }
      ChiRowDone(was, st[..], a, y);
    }
    ChiAllDone(st[..], a);
  }

  // keccakf: any number of rounds up to 24.
  method Keccakf(st: array<u64>, rounds: nat)
    requires st.Length == 25 && rounds <= 24
    modifies st
    ensures st[..] == Rounds(old(st[..]), rounds)
  {
    hide Theta, Rho, Pi, Chi, Xor;
    for round := 0 to rounds
      invariant st[..] == Rounds(old(st[..]), round)
    {
      ThetaInPlace(st);
      RhoPiInPlace(st);
      ChiInPlace(st);
      st[0] := Xor(st[0], ROUND_CONSTANTS[round]);
    }
  }
}
