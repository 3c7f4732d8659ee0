// Which JSON values operator== finds equal to some right-hand side, and which to some left-hand side.
module Equality {
  import opened Words
  import opened Collections
  import opened Document

  ghost predicate AllSound(vs: seq<Value>) {
    forall i | 0 <= i < |vs| :: Sound(vs[i])
  }

  ghost predicate MembersSound(ms: seq<Member>) {
    forall i | 0 <= i < |ms| :: SoundMember(ms[i])
  }

  // One right-hand side for all of them.
  predicate EqualToAll(vs: seq<Value>, y: Value, d: Doubles)
    requires AllSound(vs) && Sound(y)
  {
    forall k | 0 <= k < |vs| :: Equal(vs[k], y, d)
  }

  // ---------------------------------------------------------------- nesting

  function Max(a: nat, b: nat): nat {
    if a < b then b else a
  }

  function Height(v: Value): nat
    decreases v
  {
    match v
    case Array(es, _) => 1 + HeightAll(es)
    case Object(ms, _) => 1 + HeightMembers(ms)
    case _ => 0
  }

  function HeightAll(vs: seq<Value>): nat
    decreases vs
  {
    if vs == [] then 0 else Max(Height(vs[0]), HeightAll(vs[1..]))
  }

  function HeightMembers(ms: seq<Member>): nat
    decreases ms
  {
    if ms == [] then 0 else Max(HeightMember(ms[0]), HeightMembers(ms[1..]))
  }

  function HeightMember(m: Member): nat
    decreases m
  {
    Height(m.value)
  }

  lemma {:induction false} HeightAt(vs: seq<Value>, i: nat)
    requires i < |vs|
    ensures Height(vs[i]) <= HeightAll(vs)
    decreases i
  {
    if i > 0 {
      HeightAt(vs[1..], i - 1);
    }
  }

  lemma {:induction false} HeightBelow(vs: seq<Value>, h: nat)
    requires h > 0 && forall i | 0 <= i < |vs| :: Height(vs[i]) < h
    ensures HeightAll(vs) < h
  {
    hide Height;
    if vs != [] {
      HeightBelow(vs[1..], h);
    }
  }

  lemma {:induction false} HeightConcat(ms: seq<Member>, ns: seq<Member>)
    ensures HeightMembers(ms + ns) == Max(HeightMembers(ms), HeightMembers(ns))
  {
    if ms == [] {
      assert ms + ns == ns;
    } else {
      assert (ms + ns)[1..] == ms[1..] + ns;
      HeightConcat(ms[1..], ns);
    }
  }

  // ---------------------------------------------------------------- arrays, column by column

  predicate ArraysOf(vs: seq<Value>, n: nat) {
    forall k | 0 <= k < |vs| :: vs[k].Array? && |vs[k].elements| == n
  }

  function Column(vs: seq<Value>, n: nat, i: nat): seq<Value>
    requires ArraysOf(vs, n) && i < n
  {
    seq(|vs|, k requires 0 <= k < |vs| => vs[k].elements[i])
  }

  lemma ColumnSound(vs: seq<Value>, n: nat, i: nat)
    requires AllSound(vs) && ArraysOf(vs, n) && i < n && vs != []
    ensures AllSound(Column(vs, n, i)) && HeightAll(Column(vs, n, i)) < HeightAll(vs)
  {
    var ws := Column(vs, n, i);
    HeightAt(vs, 0);
    forall k | 0 <= k < |ws|
      ensures Sound(ws[k]) && Height(ws[k]) < HeightAll(vs)
    {
      assert Sound(vs[k]);
      HeightAt(vs, k);
      HeightAt(vs[k].elements, i);
    }
    HeightBelow(ws, HeightAll(vs));
  }

  // ---------------------------------------------------------------- objects, name by name

  predicate ObjectsOf(vs: seq<Value>, n: nat) {
    forall k | 0 <= k < |vs| :: vs[k].Object? && |vs[k].members| == n
  }

  // The members of all these objects.
  function Gather(vs: seq<Value>, n: nat): (ms: seq<Member>)
    requires ObjectsOf(vs, n)
  {
    if vs == [] then [] else vs[0].members + Gather(vs[1..], n)
  }

  function NameSet(ms: seq<Member>): set<seq<Byte>>
    requires MembersSound(ms)
  {
    set i | 0 <= i < |ms| :: Text(ms[i])
  }

  function Text(m: Member): seq<Byte>
    requires SoundMember(m)
  {
    m.name.s
  }

  // The values of the members of one name.
  function Named(ms: seq<Member>, s: seq<Byte>): (vs: seq<Value>)
    requires MembersSound(ms)
    ensures AllSound(vs)
  {
    if ms == [] then []
    else (if Text(ms[0]) == s then [ms[0].value] else []) + Named(ms[1..], s)
  }

  lemma {:induction false} GatherSound(vs: seq<Value>, n: nat)
    requires AllSound(vs) && ObjectsOf(vs, n)
    ensures MembersSound(Gather(vs, n))
    ensures vs != [] ==> HeightMembers(Gather(vs, n)) < HeightAll(vs)
  {
    if vs != [] {
      assert Sound(vs[0]);
      GatherSound(vs[1..], n);
      HeightConcat(vs[0].members, Gather(vs[1..], n));
    }
  }

  lemma {:induction false} NamedLower(ms: seq<Member>, s: seq<Byte>)
    requires MembersSound(ms)
    ensures HeightAll(Named(ms, s)) <= HeightMembers(ms)
  {
    if ms != [] {
      NamedLower(ms[1..], s);
      if Text(ms[0]) == s {
        assert Named(ms, s)[1..] == Named(ms[1..], s);
      } else {
        assert Named(ms, s) == Named(ms[1..], s);
      }
    }
  }

  // ---------------------------------------------------------------- agreement

  predicate NumbersOf(vs: seq<Value>) {
    forall k | 0 <= k < |vs| :: vs[k].Num?
  }

  // These numbers, converted to double where they are integers, are all the same as y.
  predicate SameAs(vs: seq<Value>, y: Word64, d: Doubles)
    requires NumbersOf(vs)
  {
    forall k | 0 <= k < |vs| :: d.same(AsDouble(vs[k].n, d), y)
  }

  predicate EqualNumbers(vs: seq<Value>, n: Number, d: Doubles)
    requires NumbersOf(vs)
  {
    forall k | 0 <= k < |vs| :: NumbersEqual(vs[k].n, n, d)
  }

  // The numbers are all the same as one double, or all equal to the integer that the bits of one
  // of the integers among them stand for, signed or unsigned: -1 equals 2^64 - 1, whose double
  // is another one.
  predicate NumbersAgree(vs: seq<Value>, d: Doubles)
    requires NumbersOf(vs)
  {
    || (exists y: Word64 :: SameAs(vs, y, d))
    || (exists k | 0 <= k < |vs| && !vs[k].n.isDouble ::
          EqualNumbers(vs, FromUint64(vs[k].n.bits), d) || EqualNumbers(vs, FromInt64(Signed64(vs[k].n.bits)), d))
  }

  // The values agree: all null, or all one boolean or one string; numbers that agree; arrays of one
  // length that agree element by element; objects of one size, with no more names among them than
  // that, that agree name by name.
  predicate Agree(vs: seq<Value>, d: Doubles)
    requires AllSound(vs)
    decreases HeightAll(vs)
  {
    if vs == [] then true
    else
      match vs[0]
      case Null => forall k | 0 <= k < |vs| :: vs[k] == Null
      case Bool(b) => forall k | 0 <= k < |vs| :: vs[k] == Bool(b)
      case Num(_) => NumbersOf(vs) && NumbersAgree(vs, d)
      case Str(_, s) => forall k | 0 <= k < |vs| :: vs[k].Str? && vs[k].s == s
      case Array(es, _) => ArraysOf(vs, |es|) && ColumnsAgree(vs, |es|, d)
      case Object(ms, _) => ObjectsOf(vs, |ms|) && NamesAgree(vs, |ms|, d)
  }

  predicate ColumnsAgree(vs: seq<Value>, n: nat, d: Doubles)
    requires AllSound(vs) && vs != [] && ArraysOf(vs, n)
    decreases HeightAll(vs), 0
  {
    forall i | 0 <= i < n ::
      ColumnSound(vs, n, i);
      Agree(Column(vs, n, i), d)
  }

  predicate NamesAgree(vs: seq<Value>, n: nat, d: Doubles)
    requires AllSound(vs) && vs != [] && ObjectsOf(vs, n)
    decreases HeightAll(vs), 0
  {
    GatherSound(vs, n);
    var all := Gather(vs, n);
    && |NameSet(all)| <= n
    && forall s | s in NameSet(all) ::
      NamedLower(all, s);
      Agree(Named(all, s), d)
  }

  // ---------------------------------------------------------------- numbers

  // A right-hand side for numbers that agree.
  lemma NumbersReached(vs: seq<Value>, d: Doubles) returns (y: Value)
    requires AllSound(vs) && NumbersOf(vs) && NumbersAgree(vs, d)
    ensures Sound(y) && EqualToAll(vs, y, d)
  {
    if bits: Word64 :| SameAs(vs, bits, d) {
      y := Num(FromDouble(bits));
      assert Built(y.n);
    } else {
      var k :| 0 <= k < |vs| && !vs[k].n.isDouble &&
        (EqualNumbers(vs, FromUint64(vs[k].n.bits), d) || EqualNumbers(vs, FromInt64(Signed64(vs[k].n.bits)), d));
      var bits := vs[k].n.bits;
      IntegerFlags(bits);
      IntegerFlags(Signed64(bits));
      y := Num(if EqualNumbers(vs, FromUint64(bits), d) then FromUint64(bits) else FromInt64(Signed64(bits)));
      assert Built(y.n);
    }
  }

  // A right-hand side that is an integer has the bits of any integer on the left.
  lemma BitsDecide(m: Number, n: Number, d: Doubles)
    requires Built(m) && Built(n) && !m.isDouble && !n.isDouble && NumbersEqual(m, n, d)
    ensures n == FromUint64(m.bits) || n == FromInt64(Signed64(m.bits))
  {
    var i :| -TWO63 <= i < TWO64 && n == Fitting(i);
    IntegerFlags(i);
  }

  lemma NumbersNeeded(vs: seq<Value>, y: Value, d: Doubles)
    requires AllSound(vs) && Sound(y) && vs != [] && vs[0].Num? && EqualToAll(vs, y, d)
    ensures NumbersOf(vs) && NumbersAgree(vs, d)
  {
    assert Equal(vs[0], y, d);
    assert NumbersOf(vs);
    assert EqualNumbers(vs, y.n, d);
    if y.n.isDouble || forall k | 0 <= k < |vs| :: vs[k].n.isDouble {
      assert SameAs(vs, AsDouble(y.n, d), d);
    } else {
      var k :| 0 <= k < |vs| && !vs[k].n.isDouble;
      assert Sound(vs[k]) && NumbersEqual(vs[k].n, y.n, d);
      BitsDecide(vs[k].n, y.n, d);
    }
  }

  // ---------------------------------------------------------------- objects against one object

  // Every one of the members finds an equal value in the object.
  predicate AllFound(ms: seq<Member>, ns: seq<Member>, d: Doubles)
    requires MembersSound(ms) && MembersSound(ns)
  {
    forall i | 0 <= i < |ms| :: FoundEqual(ms[i], ns, d)
  }

  lemma {:induction false} GatheredFound(vs: seq<Value>, n: nat, w: Value, d: Doubles)
    requires AllSound(vs) && ObjectsOf(vs, n) && Sound(w) && w.Object? && |w.members| == n
    ensures MembersSound(Gather(vs, n)) && MembersSound(w.members)
    ensures EqualToAll(vs, w, d) <==> AllFound(Gather(vs, n), w.members, d)
  {
    GatherSound(vs, n);
    if vs != [] {
      GatheredFound(vs[1..], n, w, d);
      FoundConcat(vs[0].members, Gather(vs[1..], n), w.members, d);
      assert Equal(vs[0], w, d) <==> AllFound(vs[0].members, w.members, d);
      assert EqualToAll(vs, w, d) <==> Equal(vs[0], w, d) && EqualToAll(vs[1..], w, d);
    }
  }

  lemma FoundConcat(ms: seq<Member>, ls: seq<Member>, ns: seq<Member>, d: Doubles)
    requires MembersSound(ms) && MembersSound(ls) && MembersSound(ns)
    ensures MembersSound(ms + ls)
    ensures AllFound(ms + ls, ns, d) <==> AllFound(ms, ns, d) && AllFound(ls, ns, d)
  {
    hide SoundMember, FoundEqual;
    var all := ms + ls;
    forall i | 0 <= i < |ms| || |ms| <= i < |all|
      ensures SoundMember(all[i])
    {
      assert all[i] == if i < |ms| then ms[i] else ls[i - |ms|];
    }
    forall i | 0 <= i < |ms|
      ensures FoundEqual(ms[i], ns, d) <==> FoundEqual(all[i], ns, d)
    {
      assert all[i] == ms[i];
    }
    forall i | 0 <= i < |ls|
      ensures FoundEqual(ls[i], ns, d) <==> FoundEqual(all[|ms| + i], ns, d)
    {
      assert all[|ms| + i] == ls[i];
    }
  }

  // Equal to all values of the name, index by index.
  ghost predicate EqualToNamed(ms: seq<Member>, s: seq<Byte>, y: Value, d: Doubles)
    requires MembersSound(ms) && Sound(y)
  {
    forall k | 0 <= k < |ms| && Text(ms[k]) == s :: Equal(ms[k].value, y, d)
  }

  lemma {:induction false} NamedEqual(ms: seq<Member>, s: seq<Byte>, y: Value, d: Doubles)
    requires MembersSound(ms) && Sound(y)
    ensures EqualToAll(Named(ms, s), y, d) <==> EqualToNamed(ms, s, y, d)
  {
    hide Equal, Sound;
    if ms != [] {
      NamedEqual(ms[1..], s, y, d);
      assert EqualToNamed(ms, s, y, d) <==>
        (Text(ms[0]) == s ==> Equal(ms[0].value, y, d)) && EqualToNamed(ms[1..], s, y, d);
      var vs, rest := Named(ms, s), Named(ms[1..], s);
      if Text(ms[0]) == s {
        assert vs[1..] == rest;
        assert EqualToAll(vs, y, d) <==> Equal(vs[0], y, d) && EqualToAll(vs[1..], y, d);
      } else {
        assert vs == rest;
      }
    }
  }

  // ---------------------------------------------------------------- agreement is needed

  lemma {:induction false} FewNames(ms: seq<Member>)
    requires MembersSound(ms)
    ensures |NameSet(ms)| <= |ms|
  {
    if ms == [] {
      assert NameSet(ms) == {};
    } else {
      FewNames(ms[1..]);
      assert NameSet(ms) == {Text(ms[0])} + NameSet(ms[1..]) by {
        forall s
          ensures s in NameSet(ms) <==> s == Text(ms[0]) || s in NameSet(ms[1..])
        {
          NamesFromTail(ms, s);
        }
      }
    }
  }

  lemma NamesFromTail(ms: seq<Member>, s: seq<Byte>)
    requires MembersSound(ms) && ms != []
    ensures s in NameSet(ms) <==> s == Text(ms[0]) || s in NameSet(ms[1..])
  {
    if s in NameSet(ms[1..]) {
      var i :| 0 <= i < |ms[1..]| && Text(ms[1..][i]) == s;
      assert Text(ms[i + 1]) == s;
    }
    if s in NameSet(ms) && s != Text(ms[0]) {
      var i :| 0 <= i < |ms| && Text(ms[i]) == s;
      assert Text(ms[1..][i - 1]) == s;
    }
  }

  lemma {:induction false} FindFound(ms: seq<Member>, name: Value)
    requires name.Str? && MembersSound(ms)
    ensures Find(ms, name) < |ms| ==> Text(ms[Find(ms, name)]) == name.s
  {
    if ms != [] {
      FindFound(ms[1..], name);
    }
  }

  // The object that serves every member has a name for each of theirs.
  lemma NamesServed(ms: seq<Member>, ns: seq<Member>, d: Doubles)
    requires MembersSound(ms) && MembersSound(ns) && AllFound(ms, ns, d)
    ensures |NameSet(ms)| <= |ns|
  {
    forall s | s in NameSet(ms)
      ensures s in NameSet(ns)
    {
      var i :| 0 <= i < |ms| && Text(ms[i]) == s;
      assert FoundEqual(ms[i], ns, d);
      FindFound(ns, ms[i].name);
    }
    FewNames(ns);
    Subset(NameSet(ms), NameSet(ns));
  }

  // The member found for a name serves every value of that name.
  lemma NameServed(ms: seq<Member>, ns: seq<Member>, s: seq<Byte>, d: Doubles) returns (y: Value)
    requires MembersSound(ms) && MembersSound(ns) && AllFound(ms, ns, d) && s in NameSet(ms)
    ensures Sound(y) && EqualToAll(Named(ms, s), y, d)
  {
    var i :| 0 <= i < |ms| && Text(ms[i]) == s;
    assert FoundEqual(ms[i], ns, d);
    var j := Find(ns, ms[i].name);
    y := ns[j].value;
    assert SoundMember(ns[j]);
    forall k | 0 <= k < |ms| && Text(ms[k]) == s
      ensures Equal(ms[k].value, y, d)
    {
      assert FoundEqual(ms[k], ns, d);
      FindSameName(ns, ms[i].name, ms[k].name);
    }
    NamedEqual(ms, s, y, d);
  }

  // Values with a common right-hand side agree.
  lemma {:induction false} AgreeNeeded(vs: seq<Value>, y: Value, d: Doubles)
    requires AllSound(vs) && Sound(y) && EqualToAll(vs, y, d)
    ensures Agree(vs, d)
    decreases HeightAll(vs)
  {
    if vs != [] {
      assert Equal(vs[0], y, d);
      match vs[0]
      case Num(_) => NumbersNeeded(vs, y, d);
      case Array(es, _) => ColumnsNeeded(vs, y, d);
      case Object(ms, _) => NamesNeeded(vs, y, d);
      case _ =>
    }
  }

  lemma ColumnsNeeded(vs: seq<Value>, y: Value, d: Doubles)
    requires AllSound(vs) && Sound(y) && EqualToAll(vs, y, d) && vs != [] && y.Array?
    ensures ArraysOf(vs, |y.elements|) && ColumnsAgree(vs, |y.elements|, d)
    decreases HeightAll(vs), 0
  {
    var n := |y.elements|;
    assert ArraysOf(vs, n);
    forall i | 0 <= i < n
      ensures AllSound(Column(vs, n, i)) && Agree(Column(vs, n, i), d)
    {
      ColumnSound(vs, n, i);
      forall k | 0 <= k < |vs|
        ensures Equal(vs[k].elements[i], y.elements[i], d)
      {
        assert Equal(vs[k], y, d);
      }
      AgreeNeeded(Column(vs, n, i), y.elements[i], d);
    }
  }

  lemma NamesNeeded(vs: seq<Value>, y: Value, d: Doubles)
    requires AllSound(vs) && Sound(y) && EqualToAll(vs, y, d) && vs != [] && y.Object?
    ensures ObjectsOf(vs, |y.members|) && NamesAgree(vs, |y.members|, d)
    decreases HeightAll(vs), 0
  {
    var n, ns := |y.members|, y.members;
    assert ObjectsOf(vs, n);
    GatherSound(vs, n);
    GatheredFound(vs, n, y, d);
    var all := Gather(vs, n);
    NamesServed(all, ns, d);
    forall s | s in NameSet(all)
      ensures Agree(Named(all, s), d)
    {
      var z := NameServed(all, ns, s, d);
      NamedLower(all, s);
      AgreeNeeded(Named(all, s), z, d);
    }
  }

  // ---------------------------------------------------------------- agreement is enough

  function Key(s: seq<Byte>): Value {
    Str(Const, s)
  }

  // A right-hand side for values that agree.
  lemma {:induction false} AgreeReached(vs: seq<Value>, d: Doubles) returns (y: Value)
    requires AllSound(vs) && Agree(vs, d)
    ensures Sound(y) && EqualToAll(vs, y, d)
    decreases HeightAll(vs), 2, 0
  {
    if vs == [] {
      return Null;
    }
    match vs[0]
    case Num(_) => y := NumbersReached(vs, d);
    case Array(es, _) => y := ArrayReached(vs, |es|, d);
    case Object(ms, _) => y := ObjectReached(vs, |ms|, d);
    case _ => y := vs[0];
  }

  lemma ArrayReached(vs: seq<Value>, n: nat, d: Doubles) returns (y: Value)
    requires AllSound(vs) && vs != [] && ArraysOf(vs, n) && ColumnsAgree(vs, n, d)
    ensures Sound(y) && EqualToAll(vs, y, d)
    decreases HeightAll(vs), 1, 0
  {
    var es := ElementsReached(vs, n, n, d);
    y := Array(es, n);
    assert Sound(y);
    forall k | 0 <= k < |vs|
      ensures Equal(vs[k], y, d)
    {
      forall i | 0 <= i < n
        ensures Equal(vs[k].elements[i], es[i], d)
      {
        ColumnSound(vs, n, i);
        assert EqualToAll(Column(vs, n, i), es[i], d);
        assert Column(vs, n, i)[k] == vs[k].elements[i];
      }
    }
  }

  ghost predicate Heads(vs: seq<Value>, n: nat, es: seq<Value>, d: Doubles)
    requires AllSound(vs) && vs != [] && ArraysOf(vs, n) && |es| <= n
  {
    forall i | 0 <= i < |es| ::
      ColumnSound(vs, n, i);
      Sound(es[i]) && EqualToAll(Column(vs, n, i), es[i], d)
  }

  lemma {:induction false} ElementsReached(vs: seq<Value>, n: nat, i: nat, d: Doubles) returns (es: seq<Value>)
    requires AllSound(vs) && vs != [] && ArraysOf(vs, n) && ColumnsAgree(vs, n, d) && i <= n
    ensures |es| == i && Heads(vs, n, es, d)
    decreases HeightAll(vs), 0, i
  {
    if i == 0 {
      return [];
    }
    var rest := ElementsReached(vs, n, i - 1, d);
    ColumnSound(vs, n, i - 1);
    var y := AgreeReached(Column(vs, n, i - 1), d);
    es := rest + [y];
  }

  // Every name finds a member that serves all values of the name.
  ghost predicate Serves(all: seq<Member>, names: set<seq<Byte>>, ns: seq<Member>, d: Doubles)
    requires MembersSound(all) && MembersSound(ns)
  {
    forall s | s in names ::
      var j := Find(ns, Key(s));
      j < |ns| && Sound(ns[j].value) && EqualToAll(Named(all, s), ns[j].value, d)
  }

  lemma {:induction false} MembersReached(all: seq<Member>, names: set<seq<Byte>>, d: Doubles) returns (ns: seq<Member>)
    requires MembersSound(all) && forall s | s in names :: Agree(Named(all, s), d)
    ensures MembersSound(ns) && |ns| == |names| && Serves(all, names, ns, d)
    decreases HeightMembers(all), 3, |names|
  {
    hide Agree, Equal, EqualToAll, Named;
    if names == {} {
      return [];
    }
    var s :| s in names;
    var rest := MembersReached(all, names - {s}, d);
    NamedLower(all, s);
    var y := AgreeReached(Named(all, s), d);
    ns := [Member(Key(s), y)] + rest;
    assert ns[1..] == rest;
    forall t | t in names
      ensures Find(ns, Key(t)) == if t == s then 0 else 1 + Find(rest, Key(t))
    {
    }
  }

  lemma {:induction false} FindPadded(ns: seq<Member>, pad: seq<Member>, name: Value)
    requires MembersSound(ns) && MembersSound(pad) && name.Str? && Find(ns, name) < |ns|
    ensures MembersSound(ns + pad) && Find(ns + pad, name) == Find(ns, name)
  {
    assert (ns + pad)[1..] == ns[1..] + pad;
    if ns[0].name.s != name.s {
      FindPadded(ns[1..], pad, name);
    }
  }

  lemma ServesAll(all: seq<Member>, ns: seq<Member>, d: Doubles)
    requires MembersSound(all) && MembersSound(ns) && Serves(all, NameSet(all), ns, d)
    ensures AllFound(all, ns, d)
  {
    forall i | 0 <= i < |all|
      ensures FoundEqual(all[i], ns, d)
    {
      var s := Text(all[i]);
      var j := Find(ns, Key(s));
      FindSameName(ns, Key(s), all[i].name);
      assert s in NameSet(all);
      NamedEqual(all, s, ns[j].value, d);
      assert Equal(all[i].value, ns[j].value, d);
    }
  }

  lemma ObjectReached(vs: seq<Value>, n: nat, d: Doubles) returns (y: Value)
    requires AllSound(vs) && vs != [] && ObjectsOf(vs, n) && NamesAgree(vs, n, d)
    ensures Sound(y) && EqualToAll(vs, y, d)
    decreases HeightAll(vs), 1, 0
  {
    GatherSound(vs, n);
    var all := Gather(vs, n);
    var ns := MembersReached(all, NameSet(all), d);
    var pad := Copies(n - |ns|, Member(Key([]), Null));
    forall i | 0 <= i < |pad|
      ensures SoundMember(pad[i])
    {
    }
    y := Object(ns + pad, n);
    forall s | s in NameSet(all)
      ensures Find(ns + pad, Key(s)) == Find(ns, Key(s))
    {
      FindPadded(ns, pad, Key(s));
    }
    ServesAll(all, ns + pad, d);
    GatheredFound(vs, n, y, d);
  }

  // Values have a common right-hand side exactly when they agree.
  lemma AgreeExactly(vs: seq<Value>, d: Doubles)
    requires AllSound(vs)
    ensures Agree(vs, d) <==> exists y | Sound(y) :: EqualToAll(vs, y, d)
  {
    if Agree(vs, d) {
      var y := AgreeReached(vs, d);
    } else if y :| Sound(y) && EqualToAll(vs, y, d) {
      AgreeNeeded(vs, y, d);
    }
  }

  // ---------------------------------------------------------------- the note on repeated names

  // An object compares equal to some value exactly when, name by name, its values have a common
  // right-hand side, and exactly when they agree. It compares equal to none otherwise: repeating
  // a name is not what decides.
  lemma EqualToSome(ms: seq<Member>, capacity: nat, d: Doubles)
    requires Sound(Object(ms, capacity))
    ensures MembersSound(ms)
    ensures (exists w | Sound(w) :: Equal(Object(ms, capacity), w, d))
       <==> forall i | 0 <= i < |ms| :: exists y | Sound(y) :: EqualToNamed(ms, Text(ms[i]), y, d)
    ensures (exists w | Sound(w) :: Equal(Object(ms, capacity), w, d))
       <==> forall i | 0 <= i < |ms| :: Agree(Named(ms, Text(ms[i])), d)
  {
    var v := Object(ms, capacity);
    AgreeExactly([v], d);
    OneValue(v, d);
    OneObject(ms, capacity, d);
    forall i | 0 <= i < |ms|
      ensures Agree(Named(ms, Text(ms[i])), d) <==> exists y | Sound(y) :: EqualToNamed(ms, Text(ms[i]), y, d)
    {
      var s := Text(ms[i]);
      AgreeExactly(Named(ms, s), d);
      forall y | Sound(y)
        ensures EqualToAll(Named(ms, s), y, d) <==> EqualToNamed(ms, s, y, d)
      {
        NamedEqual(ms, s, y, d);
      }
    }
  }

  lemma OneValue(v: Value, d: Doubles)
    requires Sound(v)
    ensures (exists y | Sound(y) :: EqualToAll([v], y, d)) <==> exists w | Sound(w) :: Equal(v, w, d)
  {
    forall y | Sound(y)
      ensures EqualToAll([v], y, d) <==> Equal(v, y, d)
    {
      assert [v][0] == v;
    }
  }

  lemma OneObject(ms: seq<Member>, capacity: nat, d: Doubles)
    requires Sound(Object(ms, capacity))
    ensures Agree([Object(ms, capacity)], d) <==> forall i | 0 <= i < |ms| :: Agree(Named(ms, Text(ms[i])), d)
  {
    var vs := [Object(ms, capacity)];
    assert vs[0].members + Gather(vs[1..], |ms|) == ms;
    assert Gather(vs, |ms|) == ms;
    FewNames(ms);
    GatherSound(vs, |ms|);
    assert ObjectsOf(vs, |ms|);
    forall i | 0 <= i < |ms|
      ensures Text(ms[i]) in NameSet(ms)
    {
    }
  }

  // Two integers with the same double do: the name repeats with another value, and the object is
  // still equal to one that holds the double.
  lemma RoundedRepeats(s: seq<Byte>, i: int, j: int, d: Doubles)
    requires -TWO63 <= i < TWO63 && -TWO63 <= j < TWO63 && i != j
    requires d.convert(i) == d.convert(j) && d.same(d.convert(i), d.convert(i))
    ensures var v := Object([Member(Key(s), Num(FromInt64(i))), Member(Key(s), Num(FromInt64(j)))], 2);
            Sound(v) && !Equal(v, v, d) && exists w | Sound(w) :: Equal(v, w, d)
  {
    RoundedNumber(i, d.convert(i), d);
    RoundedNumber(j, d.convert(i), d);
    hide FromInt64, NumbersEqual, Built;
    var z := Num(FromDouble(d.convert(i)));
    var ms := [Member(Key(s), Num(FromInt64(i))), Member(Key(s), Num(FromInt64(j)))];
    assert Built(ms[0].value.n) && Built(ms[1].value.n);
    assert Sound(ms[0].value) && Sound(ms[1].value);
    assert SoundMember(ms[0]) && SoundMember(ms[1]);
    assert Find(ms, ms[1].name) == 0;
    assert !FoundEqual(ms[1], ms, d) by {
      DistinctIntegers(j, i, d);
    }
    forall k | 0 <= k < |ms|
      ensures Sound(z) && EqualToNamed(ms, Text(ms[k]), z, d)
    {
    }
    EqualToSome(ms, 2, d);
  }

  lemma RoundedNumber(i: int, bits: Word64, d: Doubles)
    requires -TWO63 <= i < TWO63 && d.same(d.convert(i), bits)
    ensures Built(FromInt64(i)) && Built(FromDouble(bits)) && NumbersEqual(FromInt64(i), FromDouble(bits), d)
  {
    IntegerFlags(i);
    SignedBits(i);
  }

  lemma DistinctIntegers(i: int, j: int, d: Doubles)
    requires -TWO63 <= i < TWO63 && -TWO63 <= j < TWO63 && i != j
    ensures !NumbersEqual(FromInt64(i), FromInt64(j), d)
  {
    IntegerFlags(i);
    IntegerFlags(j);
  }

  // For a comparison that is symmetric and transitive, as that of doubles is, numbers are the same
  // as one double exactly when each is the same as the first.
  lemma SameAsFirst(vs: seq<Value>, d: Doubles)
    requires vs != [] && NumbersOf(vs)
    requires forall x: Word64, y: Word64 :: d.same(x, y) ==> d.same(y, x)
    requires forall x: Word64, y: Word64, z: Word64 :: d.same(x, y) && d.same(y, z) ==> d.same(x, z)
    ensures (exists y: Word64 :: SameAs(vs, y, d)) <==> SameAs(vs, AsDouble(vs[0].n, d), d)
  {
    if y: Word64 :| SameAs(vs, y, d) {
      forall k | 0 <= k < |vs|
        ensures d.same(AsDouble(vs[k].n, d), AsDouble(vs[0].n, d))
      {
        assert d.same(AsDouble(vs[k].n, d), y) && d.same(AsDouble(vs[0].n, d), y);
      }
    }
  }

  // ---------------------------------------------------------------- the other side

  // A left-hand side equal to w exists: a double has one that is the same, every element has one,
  // and in an object that is not empty some member that is the first of its name has one.
  predicate Findable(w: Value, d: Doubles)
    requires Sound(w)
    decreases w
  {
    match w
    case Num(n) => n.isDouble ==> exists x: Word64 :: d.same(x, n.bits)
    case Array(es, _) => forall i | 0 <= i < |es| :: Findable(es[i], d)
    case Object(ns, _) =>
      ns == [] || exists j | 0 <= j < |ns| :: FirstFindable(ns, j, d, ns[j])
    case _ => true
  }

  predicate FirstFindable(ns: seq<Member>, j: nat, d: Doubles, m: Member)
    requires j < |ns| && m == ns[j] && MembersSound(ns)
    decreases m
  {
    assert SoundMember(m);
    Find(ns, m.name) == j && Findable(m.value, d)
  }

  lemma {:induction false} FindableReached(w: Value, d: Doubles) returns (v: Value)
    requires Sound(w) && Findable(w, d)
    ensures Sound(v) && Equal(v, w, d)
    decreases w, 2
  {
    match w
    case Num(n) =>
      v := w;
      if n.isDouble {
        var x: Word64 :| d.same(x, n.bits);
        v := Num(FromDouble(x));
      }
    case Array(es, _) =>
      var vs := ElementsFound(es, |es|, d);
      v := Array(vs, |vs|);
    case Object(ns, _) =>
      if ns == [] {
        return w;
      }
      var j :| 0 <= j < |ns| && FirstFindable(ns, j, d, ns[j]);
      var m := MemberFound(ns, j, d, ns[j]);
      v := Object(Copies(|ns|, m), |ns|);
      assert forall i | 0 <= i < |ns| :: v.members[i] == m;
    case _ => v := w;
  }

  lemma {:induction false} MemberFound(ns: seq<Member>, j: nat, d: Doubles, n: Member) returns (m: Member)
    requires j < |ns| && n == ns[j] && MembersSound(ns) && FirstFindable(ns, j, d, n)
    ensures SoundMember(m) && FoundEqual(m, ns, d)
    decreases n
  {
    var x := FindableReached(n.value, d);
    m := Member(n.name, x);
  }

  lemma {:induction false} ElementsFound(es: seq<Value>, n: nat, d: Doubles) returns (vs: seq<Value>)
    requires AllSound(es) && n <= |es| && forall i | 0 <= i < |es| :: Findable(es[i], d)
    ensures |vs| == n && AllSound(vs) && forall i | 0 <= i < n :: Equal(vs[i], es[i], d)
    decreases es, 1, n
  {
    if n == 0 {
      return [];
    }
    var rest := ElementsFound(es, n - 1, d);
    var v := FindableReached(es[n - 1], d);
    vs := rest + [v];
  }

  lemma {:induction false} FindableNeeded(v: Value, w: Value, d: Doubles)
    requires Sound(v) && Sound(w) && Equal(v, w, d)
    ensures Findable(w, d)
    decreases v
  {
    match v
    case Num(n) =>
      assert w.n.isDouble ==> d.same(AsDouble(n, d), w.n.bits);
    case Array(es, _) =>
      forall i | 0 <= i < |es|
        ensures Findable(w.elements[i], d)
      {
        FindableNeeded(es[i], w.elements[i], d);
      }
    case Object(ms, _) =>
      if ms != [] {
        var ns := w.members;
        assert FoundEqual(ms[0], ns, d) && SoundMember(ms[0]);
        var j := Find(ns, ms[0].name);
        FindFound(ns, ms[0].name);
        FindSameName(ns, ms[0].name, ns[j].name);
        FindableNeeded(ms[0].value, ns[j].value, d);
        assert FirstFindable(ns, j, d, ns[j]);
      }
    case _ =>
  }

  // On the right, too, names may repeat: some value compares equal to w exactly when w is findable.
  lemma SomeEqualTo(w: Value, d: Doubles)
    requires Sound(w)
    ensures (exists v | Sound(v) :: Equal(v, w, d)) <==> Findable(w, d)
  {
    if Findable(w, d) {
      var v := FindableReached(w, d);
      assert Sound(v) && Equal(v, w, d);
    } else if v :| Sound(v) && Equal(v, w, d) {
      FindableNeeded(v, w, d);
    }
  }
}
