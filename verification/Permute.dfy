// The in-place exchange of two adjacent blocks of an argument vector, by gcd-many cycles.
module Permute {
  import opened Words
  import opened Collections

  // ---------------------------------------------------------------- greatest common divisor

  function Gcd(a: nat, b: nat): (g: nat)
    requires b > 0
    ensures g > 0
    decreases b
  {
    if a % b == 0 then b else Gcd(b, a % b)
  }

  // The loop of the source computes it.
  method ComputeGcd(a0: nat, b0: nat) returns (g: nat)
    requires b0 > 0
    ensures g == Gcd(a0, b0)
  {
    var a, b := a0, b0;
    var c := a % b;
    while c != 0
      invariant b > 0 && c == a % b && Gcd(a, b) == Gcd(a0, b0)
      decreases b
    {
      a := b;
      b := c;
      c := a % b;
    }
    return b;
  }

  lemma DividesStep(d: int, b: int, r: int, p: int, q: int, g: int)
    requires b == p * g && r == q * g
    ensures b * d + r == (d * p + q) * g
  {
    assert (d * p + q) * g == (d * p) * g + q * g;
    assert (d * p) * g == d * (p * g);
  }

  lemma CombinationStep(a: int, b: int, d: int, r: int, x: int, y: int)
    requires a == b * d + r
    ensures x * b + y * r == y * a + (x - y * d) * b
  {
    assert y * a == y * (b * d) + y * r;
    assert (x - y * d) * b == x * b - (y * d) * b;
    assert (y * d) * b == y * (b * d);
  }

  // It divides both numbers and is a combination of them (so it is the greatest divisor).
  lemma {:induction false} GcdProperties(a: nat, b: nat) returns (p: nat, q: nat, x: int, y: int)
    requires b > 0
    ensures a == p * Gcd(a, b) && b == q * Gcd(a, b) && q > 0
    ensures Gcd(a, b) == x * a + y * b
    decreases b
  {
    var g := Gcd(a, b);
    var d, r := a / b, a % b;
    assert a == b * d + r;
    if r == 0 {
      p, q, x, y := d, 1, 0, 1;
    } else {
      var p', q', x', y' := GcdProperties(b, r);
      DividesStep(d, b, r, p', q', g);
      CombinationStep(a, b, d, r, x', y');
      p, q, x, y := d * p' + q', p', y', x' - y' * d;
    }
  }

  // ---------------------------------------------------------------- cycles of a rotation

  // Where position r of m + k goes when the first m elements change places with the other k,
  // and where its new element comes from.
  function Next(m: nat, k: nat, r: nat): (s: nat)
    requires r < m + k
    ensures s < m + k
  {
    if r >= m then r - m else r + k
  }

  function Prev(m: nat, k: nat, r: nat): (s: nat)
    requires r < m + k
    ensures s < m + k && Next(m, k, s) == r
  {
    if r < k then r + m else r - k
  }

  // The position reached from s in j steps.
  function Orbit(m: nat, k: nat, s: nat, j: nat): (r: nat)
    requires s < m + k
    ensures r < m + k
  {
    if j == 0 then s else Next(m, k, Orbit(m, k, s, j - 1))
  }

  lemma {:induction false} OrbitCongruent(m: nat, k: nat, s: nat, j: nat) returns (z: int)
    requires s < m + k
    ensures Orbit(m, k, s, j) == s - j * m + z * (m + k)
  {
    if j == 0 {
      z := 0;
    } else {
      var z' := OrbitCongruent(m, k, s, j - 1);
      z := if Orbit(m, k, s, j - 1) >= m then z' else z' + 1;
      assert (j - 1) * m == j * m - m;
      assert (z' + 1) * (m + k) == z' * (m + k) + (m + k);
    }
  }

  lemma MulSign(u: int, n: nat)
    ensures u <= 0 ==> u * n <= 0
    ensures u >= 1 ==> u * n >= n
  {
  }

  lemma MulAssociative(a: int, b: int, c: int)
    ensures (a * b) * c == a * (b * c)
  {
  }

  lemma MulSub(a: int, b: int, c: int)
    ensures (a - b) * c == a * c - b * c
  {
  }

  // Numbers below t that differ by a multiple of t are equal.
  lemma CongruentEqual(a: nat, b: nat, t: nat, z: int)
    requires a < t && b < t && a == b + z * t
    ensures a == b
  {
    if z > 0 {
      MulStrictlyGrows(t, z);
    } else if z < 0 {
      MulStrictlyGrows(t, -z);
      assert (-z) * t == -(z * t);
    }
  }

  // m == p * g, m + k == len * g and g == w * m + y * (m + k): what the greatest common
  // divisor g of the two block lengths provides.
  datatype Cycles = Cycles(m: nat, k: nat, g: nat, p: nat, len: nat, w: int, y: int) {
    function Total(): nat { m + k }

    ghost predicate Valid() {
      && g > 0 && k > 0 && len > 0
      && m == p * g && Total() == len * g
      && g == w * m + y * Total()
    }
  }

  lemma MakeCycles(m: nat, k: nat) returns (c: Cycles)
    requires k > 0
    ensures c.Valid() && c.m == m && c.k == k && c.g == Gcd(m, k)
  {
    var p, q, x, y := GcdProperties(m, k);
    var g := Gcd(m, k);
    assert m + k == (p + q) * g;
    assert (x - y) * m + y * (m + k) == x * m + y * k;
    c := Cycles(m, k, g, p, p + q, x - y, y);
  }

  lemma CancelFactor(d: int, e: int, g: int)
    requires g > 0 && d * g == e * g
    ensures d == e
  {
    if d > e {
      MulStrictlyGrows(g, d - e);
    } else if d < e {
      MulStrictlyGrows(g, e - d);
    }
  }

  // d steps bring nothing back to its place unless len divides d.
  lemma ReturnTime(c: Cycles, d: int, z: int) returns (u: int)
    requires c.Valid() && d * c.m == z * c.Total()
    ensures d == u * c.len
  {
    var m, t, g := c.m, c.Total(), c.g;
    u := c.w * z + d * c.y;
    assert d * g == c.w * (d * m) + (d * c.y) * t by {
      assert d * g == d * (c.w * m) + d * (c.y * t);
      assert d * (c.w * m) == c.w * (d * m);
      assert d * (c.y * t) == (d * c.y) * t;
    }
    assert c.w * (z * t) == (c.w * z) * t;
    assert u * t == (c.w * z) * t + (d * c.y) * t;
    assert u * (c.len * g) == (u * c.len) * g;
    CancelFactor(d, u * c.len, g);
  }

  lemma OrbitDistinct(c: Cycles, s: nat, a: nat, b: nat)
    requires c.Valid() && s < c.Total() && a < b < a + c.len
    ensures Orbit(c.m, c.k, s, a) != Orbit(c.m, c.k, s, b)
  {
    if Orbit(c.m, c.k, s, a) == Orbit(c.m, c.k, s, b) {
      var za := OrbitCongruent(c.m, c.k, s, a);
      var zb := OrbitCongruent(c.m, c.k, s, b);
      assert (b - a) * c.m == b * c.m - a * c.m;
      assert (zb - za) * c.Total() == zb * c.Total() - za * c.Total();
      var u := ReturnTime(c, b - a, zb - za);
      MulSign(u, c.len);
    }
  }

  // len steps of m make p whole turns.
  lemma WholeTurns(c: Cycles)
    requires c.Valid()
    ensures c.len * c.m == c.p * c.Total()
  {
    MulAssociative(c.len, c.p, c.g);
    MulAssociative(c.p, c.len, c.g);
  }

  lemma OrbitReturns(c: Cycles, s: nat)
    requires c.Valid() && s < c.Total()
    ensures Orbit(c.m, c.k, s, c.len) == s
  {
    var z := OrbitCongruent(c.m, c.k, s, c.len);
    WholeTurns(c);
    MulSub(z, c.p, c.Total());
    CongruentEqual(Orbit(c.m, c.k, s, c.len), s, c.Total(), z - c.p);
  }

  // The number j0 of steps that moves by -e * g, up to whole turns.
  lemma StepsBack(c: Cycles, e: int)
    requires c.Valid()
    ensures (-e * c.w) * c.m == (e * c.y) * c.Total() - e * c.g
  {
    MulAssociative(e, c.w, c.m);
    MulAssociative(e, c.y, c.Total());
    assert e * c.g == e * (c.w * c.m) + e * (c.y * c.Total());
    assert (-e * c.w) * c.m == -((e * c.w) * c.m);
  }

  // Dropping v full cycles from j0 steps drops v * p whole turns.
  lemma DropCycles(c: Cycles, j0: int, v: int, j: int)
    requires c.Valid() && j0 == c.len * v + j
    ensures j * c.m == j0 * c.m - (v * c.p) * c.Total()
  {
    WholeTurns(c);
    MulAssociative(v, c.len, c.m);
    MulAssociative(v, c.p, c.Total());
    assert (c.len * v + j) * c.m == (v * c.len) * c.m + j * c.m;
  }

  lemma AddTurns(r: int, s: int, t: int, jm: int, j0m: int, eg: int, z: int, a: int, b: int)
    requires jm == j0m - a * t && j0m == b * t - eg && r == s + eg
    ensures s - jm + z * t == r + (z + a - b) * t
  {
  }

  lemma ReachCongruent(c: Cycles, s: nat, e: int, r: nat) returns (j: nat, n: int)
    requires c.Valid() && s < c.Total() && r == s + e * c.g
    ensures 0 < j <= c.len && Orbit(c.m, c.k, s, j) == r + n * c.Total()
  {
    var j0, v, z := -e * c.w, 0, 0;
    j, v := PositiveRemainder(j0, c.len);
    z := OrbitCongruent(c.m, c.k, s, j);
    n := z + v * c.p - e * c.y;
    assert j * c.m == j0 * c.m - (v * c.p) * c.Total() by { DropCycles(c, j0, v, j); }
    assert j0 * c.m == (e * c.y) * c.Total() - e * c.g by { StepsBack(c, e); }
    AddTurns(r, s, c.Total(), j * c.m, j0 * c.m, e * c.g, z, v * c.p, e * c.y);
  }

  // Every position that differs from s by a multiple of g lies on the cycle of s.
  lemma OrbitReaches(c: Cycles, s: nat, e: int, r: nat) returns (j: nat)
    requires c.Valid() && s < c.Total() && r < c.Total() && r == s + e * c.g
    ensures 0 < j <= c.len && Orbit(c.m, c.k, s, j) == r
  {
    var n;
    j, n := ReachCongruent(c, s, e, r);
    CongruentEqual(Orbit(c.m, c.k, s, j), r, c.Total(), n);
  }

  lemma PositiveRemainder(x: int, n: nat) returns (j: nat, v: int)
    requires n > 0
    ensures 0 < j <= n && x == n * v + j
  {
    j, v := x % n, x / n;
    if j == 0 {
      assert n * (v - 1) == n * v - n;
      j, v := n, v - 1;
    }
  }

  // A cycle never leaves its class modulo g.
  lemma OrbitClass(c: Cycles, s: nat, j: nat) returns (e: int)
    requires c.Valid() && s < c.Total()
    ensures Orbit(c.m, c.k, s, j) == s + e * c.g
  {
    var z := OrbitCongruent(c.m, c.k, s, j);
    e := z * c.len - j * c.p;
    MulAssociative(j, c.p, c.g);
    MulAssociative(z, c.len, c.g);
    MulSub(z * c.len, j * c.p, c.g);
  }

  // ---------------------------------------------------------------- classes modulo g

  lemma OnCycle(c: Cycles, i: nat, e: int, r: nat)
    requires c.Valid() && i < c.g && r == c.m + i + e * c.g
    ensures r % c.g == i
  {
    assert (c.p + e) * c.g == c.p * c.g + e * c.g;
    DivModUnique(r, c.g, c.p + e, i);
  }

  lemma CycleOf(c: Cycles, i: nat, r: nat) returns (e: int)
    requires c.Valid() && i < c.g && r % c.g == i
    ensures r == c.m + i + e * c.g
  {
    e := r / c.g - c.p;
    MulSub(r / c.g, c.p, c.g);
  }

  // The i-th cycle starts at m + i and consists of the positions congruent to i.
  lemma CycleStart(c: Cycles, i: nat)
    requires c.Valid() && i < c.g
    ensures c.m + i < c.Total() && (c.m + i) % c.g == i
  {
    OnCycle(c, i, 0, c.m + i);
    var q := c.len - c.p;
    MulSub(c.len, c.p, c.g);
    if q <= 0 { MulSign(q, c.g); } else { MulSign(q, c.g); }
  }

  // r is among the positions reached from s in 1 to j steps.
  predicate Visited(m: nat, k: nat, s: nat, j: nat, r: nat)
    requires s < m + k
  {
    j > 0 && (Orbit(m, k, s, j) == r || Visited(m, k, s, j - 1, r))
  }

  lemma {:induction false} VisitedWitness(m: nat, k: nat, s: nat, j: nat, r: nat) returns (q: nat)
    requires s < m + k && Visited(m, k, s, j, r)
    ensures 0 < q <= j && Orbit(m, k, s, q) == r
  {
    if Orbit(m, k, s, j) == r {
      q := j;
    } else {
      q := VisitedWitness(m, k, s, j - 1, r);
    }
  }

  lemma {:induction false} VisitedIntro(m: nat, k: nat, s: nat, j: nat, q: nat)
    requires s < m + k && 0 < q <= j
    ensures Visited(m, k, s, j, Orbit(m, k, s, q))
  {
    if q < j {
      VisitedIntro(m, k, s, j - 1, q);
    }
  }

  // The i-th cycle visits exactly the positions congruent to i.
  lemma CycleIsClass(c: Cycles, i: nat, r: nat)
    requires c.Valid() && i < c.g && r < c.Total() && c.m + i < c.Total()
    ensures r % c.g == i <==> Visited(c.m, c.k, c.m + i, c.len, r)
  {
    var s := c.m + i;
    if r % c.g == i {
      var e := CycleOf(c, i, r);
      var j := OrbitReaches(c, s, e, r);
      VisitedIntro(c.m, c.k, s, c.len, j);
    }
    if Visited(c.m, c.k, s, c.len, r) {
      var j := VisitedWitness(c.m, c.k, s, c.len, r);
      var e := OrbitClass(c, s, j);
      OnCycle(c, i, e, r);
    }
  }

  // The source of an element lies in the class of its destination.
  lemma PrevClass(c: Cycles, r: nat)
    requires c.Valid() && r < c.Total()
    ensures Prev(c.m, c.k, r) % c.g == r % c.g
  {
    var d, i := r / c.g, r % c.g;
    var n := if r < c.k then c.p else c.p - c.len;
    MulSub(c.p, c.len, c.g);
    assert (d + n) * c.g == d * c.g + n * c.g;
    DivModUnique(Prev(c.m, c.k, r), c.g, d + n, i);
  }

  // ---------------------------------------------------------------- what the swaps do

  // The blocks w after j swaps of the cycle from s: each step exchanges the element parked
  // at s with the one at the next position.
  function Walk<T>(w: seq<T>, m: nat, k: nat, s: nat, j: nat): (v: seq<T>)
    requires s < m + k == |w|
    ensures |v| == |w|
  {
    if j == 0 then w
    else
      var v := Walk(w, m, k, s, j - 1);
      var pos := Orbit(m, k, s, j);
      v[pos := v[s]][s := v[pos]]
  }

  // len steps from s visit len different positions and come back.
  predicate SimpleCycle(m: nat, k: nat, s: nat, len: nat) {
    && s < m + k && len > 0 && Orbit(m, k, s, len) == s
    && forall a, b | 0 <= a < b <= len && b - a < len :: Orbit(m, k, s, a) != Orbit(m, k, s, b)
  }

  // The g cycles of len steps from the first g positions after the first block are simple
  // and partition all positions.
  predicate Partition(m: nat, k: nat, g: nat, len: nat, cls: nat -> nat) {
    && g <= k
    && (forall s | m <= s < m + g :: SimpleCycle(m, k, s, len))
    && (forall s, r | m <= s < m + g && 0 <= r < m + k :: cls(r) == s - m <==> Visited(m, k, s, len, r))
    && (forall r | 0 <= r < m + k :: cls(r) < g && cls(Prev(m, k, r)) == cls(r))
  }

  lemma CycleIsSimple(c: Cycles, s: nat)
    requires c.Valid() && c.m <= s < c.m + c.g
    ensures s < c.Total() && SimpleCycle(c.m, c.k, s, c.len)
  {
    CycleStart(c, s - c.m);
    OrbitReturns(c, s);
    forall a, b | 0 <= a < b <= c.len && b - a < c.len
      ensures Orbit(c.m, c.k, s, a) != Orbit(c.m, c.k, s, b)
    {
      OrbitDistinct(c, s, a, b);
    }
  }

  lemma PrevInClass(c: Cycles, r: nat)
    requires c.Valid() && r < c.Total()
    ensures r % c.g < c.g && Prev(c.m, c.k, r) % c.g == r % c.g
  {
    PrevClass(c, r);
  }

  lemma CyclesPartition(c: Cycles, cls: nat -> nat)
    requires c.Valid() && forall r: nat :: cls(r) == r % c.g
    ensures Partition(c.m, c.k, c.g, c.len, cls)
  {
    CycleStart(c, c.g - 1);
    forall s | c.m <= s < c.m + c.g
      ensures SimpleCycle(c.m, c.k, s, c.len)
    {
      CycleIsSimple(c, s);
    }
    forall s, r | c.m <= s < c.m + c.g && 0 <= r < c.m + c.k
      ensures cls(r) == s - c.m <==> Visited(c.m, c.k, s, c.len, r)
    {
      CycleIsSimple(c, s);
      CycleIsClass(c, s - c.m, r);
    }
    forall r | 0 <= r < c.m + c.k
      ensures cls(r) < c.g && cls(Prev(c.m, c.k, r)) == cls(r)
    {
      PrevInClass(c, r);
    }
  }

  // The next position of a simple cycle has not been visited yet.
  lemma NextIsFresh(m: nat, k: nat, s: nat, len: nat, j: nat)
    requires SimpleCycle(m, k, s, len) && 0 < j <= len
    ensures !Visited(m, k, s, j - 1, Orbit(m, k, s, j))
    ensures Orbit(m, k, s, j) == s <==> j == len
    ensures Prev(m, k, Orbit(m, k, s, j)) == Orbit(m, k, s, j - 1)
  {
    assert j < len ==> Orbit(m, k, s, 0) != Orbit(m, k, s, j);
    if Visited(m, k, s, j - 1, Orbit(m, k, s, j)) {
      var q := VisitedWitness(m, k, s, j - 1, Orbit(m, k, s, j));
    }
  }

  // The first j steps each deliver to a fresh position.
  predicate Fresh(m: nat, k: nat, s: nat, len: nat, j: nat) {
    s < m + k && (j == 0 || (
      && Fresh(m, k, s, len, j - 1)
      && !Visited(m, k, s, j - 1, Orbit(m, k, s, j))
      && (Orbit(m, k, s, j) == s <==> j == len)
      && Prev(m, k, Orbit(m, k, s, j)) == Orbit(m, k, s, j - 1)))
  }

  lemma {:induction false} SimpleIsFresh(m: nat, k: nat, s: nat, len: nat, j: nat)
    requires SimpleCycle(m, k, s, len) && j <= len
    ensures Fresh(m, k, s, len, j)
  {
    if j > 0 {
      SimpleIsFresh(m, k, s, len, j - 1);
      NextIsFresh(m, k, s, len, j);
    }
  }

  // Up to j steps, every visited position holds its final element, and s holds the element
  // that the next step will deliver.
  lemma {:induction false} WalkValue<T>(w: seq<T>, m: nat, k: nat, s: nat, len: nat, j: nat, r: nat)
    requires Fresh(m, k, s, len, j) && |w| == m + k && r < m + k && j <= len && len > 0
    ensures Walk(w, m, k, s, j)[r] ==
      if r != s then w[if Visited(m, k, s, j, r) then Prev(m, k, r) else r]
      else w[if j < len then Orbit(m, k, s, j) else Prev(m, k, s)]
    decreases j
  {
    if j > 0 {
      var pos := Orbit(m, k, s, j);
      var v := Walk(w, m, k, s, j - 1);
      assert Walk(w, m, k, s, j) == v[pos := v[s]][s := v[pos]];
      if r == s {
        WalkValue(w, m, k, s, len, j - 1, pos);
      } else if r == pos {
        WalkValue(w, m, k, s, len, j - 1, s);
      } else {
        WalkValue(w, m, k, s, len, j - 1, r);
      }
    }
  }

  // The blocks after the first i cycles.
  function WalkCycles<T>(w: seq<T>, m: nat, k: nat, len: nat, i: nat): (v: seq<T>)
    requires |w| == m + k && i <= k
    ensures |v| == |w|
  {
    if i == 0 then w else Walk(WalkCycles(w, m, k, len, i - 1), m, k, m + i - 1, len)
  }

  // A whole cycle delivers to the positions of its class and moves nothing else.
  lemma CycleValue<T>(v: seq<T>, m: nat, k: nat, s: nat, len: nat, r: nat)
    requires SimpleCycle(m, k, s, len) && |v| == m + k && r < m + k
    ensures Walk(v, m, k, s, len)[r] == v[if Visited(m, k, s, len, r) then Prev(m, k, r) else r]
  {
    SimpleIsFresh(m, k, s, len, len);
    WalkValue(v, m, k, s, len, len, r);
    VisitedIntro(m, k, s, len, len);
  }

  lemma {:induction false} WalkCyclesValue<T>(w: seq<T>, m: nat, k: nat, g: nat, len: nat, cls: nat -> nat,
                                              i: nat, r: nat)
    requires Partition(m, k, g, len, cls) && |w| == m + k && i <= g && r < m + k
    ensures WalkCycles(w, m, k, len, i)[r] == w[if cls(r) < i then Prev(m, k, r) else r]
    decreases i
  {
    hide Walk, Visited, Orbit;
    if i > 0 {
      var s := m + (i - 1);
      CycleValue(WalkCycles(w, m, k, len, i - 1), m, k, s, len, r);
      assert cls(r) == s - m <==> Visited(m, k, s, len, r);
      WalkCyclesValue(w, m, k, g, len, cls, i - 1, r);
      WalkCyclesValue(w, m, k, g, len, cls, i - 1, Prev(m, k, r));
    }
  }

  // All cycles together exchange the blocks.
  lemma CyclesExchange<T>(a: seq<T>, b: seq<T>, len: nat)
    requires |b| > 0 && len == (|a| + |b|) / Gcd(|a|, |b|)
    ensures Gcd(|a|, |b|) <= |b|
    ensures WalkCycles(a + b, |a|, |b|, len, Gcd(|a|, |b|)) == b + a
  {
    var c := MakeCycles(|a|, |b|);
    CycleLength(c);
    var cls := ClassFunction(c.g);
    CyclesPartition(c, cls);
    ExchangeOver(a, b, c.g, c.len, cls);
  }

  lemma CycleLength(c: Cycles)
    requires c.Valid()
    ensures c.Total() / c.g == c.len
  {
    DivModUnique(c.Total(), c.g, c.len, 0);
  }

  function ClassFunction(g: nat): (cls: nat -> nat)
    requires g > 0
    ensures forall r: nat :: cls(r) == r % g
  {
    r => r % g
  }

  lemma ExchangeOver<T>(a: seq<T>, b: seq<T>, g: nat, len: nat, cls: nat -> nat)
    requires Partition(|a|, |b|, g, len, cls)
    ensures WalkCycles(a + b, |a|, |b|, len, g) == b + a
  {
    forall r | 0 <= r < |a| + |b|
      ensures WalkCycles(a + b, |a|, |b|, len, g)[r] == (b + a)[r]
    {
      WalkCyclesValue(a + b, |a|, |b|, g, len, cls, g, r);
    }
  }

  // ---------------------------------------------------------------- the exchange in place

  // The blocks between lo and lo + |v| are v.
  ghost predicate Holds<T>(now: seq<T>, lo: nat, v: seq<T>) {
    lo + |v| <= |now| && forall x | lo <= x < lo + |v| :: now[x] == v[x - lo]
  }

  method Swap<T>(nargv: array<T>, pos: nat, cstart: nat, ghost lo: nat, ghost v: seq<T>)
    requires Holds(nargv[..], lo, v) && lo <= pos < lo + |v| && lo <= cstart < lo + |v|
    modifies nargv
    ensures Holds(nargv[..], lo, v[pos - lo := v[cstart - lo]][cstart - lo := v[pos - lo]])
    ensures SameOutside(old(nargv[..]), nargv[..], lo, lo + |v|)
  {
    var swap := nargv[pos];
    nargv[pos] := nargv[cstart];
    nargv[cstart] := swap;
  }

  lemma WalkStart<T>(w: seq<T>, m: nat, k: nat, s: nat)
    requires s < m + k == |w|
    ensures Walk(w, m, k, s, 0) == w && Orbit(m, k, s, 0) == s
  {
  }

  lemma WalkStep<T>(w: seq<T>, m: nat, k: nat, s: nat, j: nat)
    requires s < m + k == |w|
    ensures Orbit(m, k, s, j + 1) == Next(m, k, Orbit(m, k, s, j))
    ensures var v, pos := Walk(w, m, k, s, j), Orbit(m, k, s, j + 1);
            Walk(w, m, k, s, j + 1) == v[pos := v[s]][s := v[pos]]
  {
  }

  // One cycle of swaps.
  method WalkInPlace<T>(nargv: array<T>, panonoptStart: nat, panonoptEnd: nat, optEnd: nat, cyclelen: nat,
                        i: nat, ghost w: seq<T>)
    requires panonoptStart <= panonoptEnd <= optEnd <= nargv.Length && panonoptEnd + i < optEnd
    requires |w| == optEnd - panonoptStart && Holds(nargv[..], panonoptStart, w)
    modifies nargv
    ensures Holds(nargv[..], panonoptStart,
              Walk(w, panonoptEnd - panonoptStart, optEnd - panonoptEnd, panonoptEnd - panonoptStart + i, cyclelen))
    ensures SameOutside(old(nargv[..]), nargv[..], panonoptStart, optEnd)
  {
    hide Walk, Orbit;
    var nnonopts, nopts := panonoptEnd - panonoptStart, optEnd - panonoptEnd;
    var cstart := panonoptEnd + i;
    WalkStart(w, nnonopts, nopts, nnonopts + i);
    var pos := cstart;
    ghost var s := nnonopts + i;
    for j := 0 to cyclelen
      invariant pos == panonoptStart + Orbit(nnonopts, nopts, s, j)
      invariant Holds(nargv[..], panonoptStart, Walk(w, nnonopts, nopts, s, j))
      invariant SameOutside(old(nargv[..]), nargv[..], panonoptStart, optEnd)
    {
      ghost var v := Walk(w, nnonopts, nopts, s, j);
      if pos >= panonoptEnd {
        pos := pos - nnonopts;
      } else {
        pos := pos + nopts;
      }
      WalkStep(w, nnonopts, nopts, s, j);
      Swap(nargv, pos, cstart, panonoptStart, v);
    }
  }

  // Exchanges the block before panonoptEnd with the block after it, keeping the order within
  // each. The second block must not be empty: its length is a divisor.
  method PermuteArgs<T>(panonoptStart: nat, panonoptEnd: nat, optEnd: nat, nargv: array<T>)
    requires panonoptStart <= panonoptEnd < optEnd <= nargv.Length
    modifies nargv
    ensures nargv[..] == old(nargv[..panonoptStart]) + old(nargv[panonoptEnd..optEnd])
                       + old(nargv[panonoptStart..panonoptEnd]) + old(nargv[optEnd..])
  {
    var nnonopts := panonoptEnd - panonoptStart;
    var nopts := optEnd - panonoptEnd;
    var ncycle := ComputeGcd(nnonopts, nopts);
    var cyclelen := (optEnd - panonoptStart) / ncycle;
    ghost var was := nargv[..];
    ExchangeSlices(was, panonoptStart, panonoptEnd, optEnd, ncycle, cyclelen);
    RunCycles(nargv, panonoptStart, panonoptEnd, optEnd, ncycle, cyclelen);
    Reassemble(was, nargv[..], panonoptStart, panonoptEnd, optEnd);
  }

  method RunCycles<T>(nargv: array<T>, panonoptStart: nat, panonoptEnd: nat, optEnd: nat, ncycle: nat, cyclelen: nat)
    requires panonoptStart <= panonoptEnd < optEnd <= nargv.Length && ncycle <= optEnd - panonoptEnd
    modifies nargv
    ensures Holds(nargv[..], panonoptStart, WalkCycles(old(nargv[panonoptStart..optEnd]),
              panonoptEnd - panonoptStart, optEnd - panonoptEnd, cyclelen, ncycle))
    ensures SameOutside(old(nargv[..]), nargv[..], panonoptStart, optEnd)
  {
    ghost var w := nargv[panonoptStart..optEnd];
    for i := 0 to ncycle
      invariant Holds(nargv[..], panonoptStart,
                  WalkCycles(w, panonoptEnd - panonoptStart, optEnd - panonoptEnd, cyclelen, i))
      invariant SameOutside(old(nargv[..]), nargv[..], panonoptStart, optEnd)
    {
      WalkInPlace(nargv, panonoptStart, panonoptEnd, optEnd, cyclelen, i,
                  WalkCycles(w, panonoptEnd - panonoptStart, optEnd - panonoptEnd, cyclelen, i));
    }
  }

  lemma ExchangeSlices<T>(was: seq<T>, lo: nat, mid: nat, hi: nat, ncycle: nat, cyclelen: nat)
    requires lo <= mid < hi <= |was|
    requires ncycle == Gcd(mid - lo, hi - mid) && cyclelen == (hi - lo) / ncycle
    ensures ncycle <= hi - mid
    ensures WalkCycles(was[lo..hi], mid - lo, hi - mid, cyclelen, ncycle) == was[mid..hi] + was[lo..mid]
  {
    assert was[lo..hi] == was[lo..mid] + was[mid..hi];
    CyclesExchange(was[lo..mid], was[mid..hi], cyclelen);
  }

  lemma Reassemble<T>(was: seq<T>, now: seq<T>, lo: nat, mid: nat, hi: nat)
    requires lo <= mid <= hi <= |was| && SameOutside(was, now, lo, hi)
    requires Holds(now, lo, was[mid..hi] + was[lo..mid])
    ensures now == was[..lo] + was[mid..hi] + was[lo..mid] + was[hi..]
  {
    assert now[lo..hi] == was[mid..hi] + was[lo..mid];
    assert now == now[..lo] + now[lo..hi] + now[hi..];
    assert now[..lo] == was[..lo];
    assert now[hi..] == was[hi..];
    assert was[..lo] + (was[mid..hi] + was[lo..mid]) + was[hi..] == was[..lo] + was[mid..hi] + was[lo..mid] + was[hi..];
  }
}
