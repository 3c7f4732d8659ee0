// RapidJSON values, the events that Accept generates from them, and the stack machine that
// builds a document from events.
module Document {
  import opened Words
  import opened Collections

  const TWO63: int := 0x8000_0000_0000_0000

  // ---------------------------------------------------------------- numbers

  // A number's five type flags and its eight bytes.
  datatype Number = Number(isInt: bool, isUint: bool, isInt64: bool, isUint64: bool, isDouble: bool, bits: Word64)

  // The two's-complement bits of an integer.
  function Bits(i: int): Word64
    requires -TWO63 <= i < TWO64
  {
    if i < 0 then i + TWO64 else i
  }

  function Signed32(w: Word64): int {
    var low := w % TWO32;
    if low < TWO31 then low else low - TWO32
  }

  function Signed64(w: Word64): int {
    if w < TWO63 then w else w - TWO64
  }

  // The five constructors, flag by flag.
  function FromInt(i: int): Number
    requires -TWO31 <= i < TWO31
  {
    if i >= 0 then Number(true, true, true, true, false, Bits(i)) else Number(true, false, true, false, false, Bits(i))
  }

  function FromUint(u: nat): Number
    requires u < TWO32
  {
    if u / TWO31 != 0 then Number(false, true, true, true, false, u) else Number(true, true, true, true, false, u)
  }

  function FromInt64(i: int): Number
    requires -TWO63 <= i < TWO63
  {
    if i >= 0 then Number(i / TWO31 == 0, i / TWO32 == 0, true, true, false, Bits(i))
    else Number(i >= -TWO31, false, true, false, false, Bits(i))
  }

  function FromUint64(u: Word64): Number {
    Number(u / TWO31 == 0, u / TWO32 == 0, u / TWO63 == 0, true, false, u)
  }

  function FromDouble(bits: Word64): Number {
    Number(false, false, false, false, true, bits)
  }

  // What Value(kNumberType) holds: zero, with every flag set.
  const DEFAULT_NUMBER := Number(true, true, true, true, true, 0)

  // The integer i with the flags of exactly the types it fits.
  function Fitting(i: int): Number
    requires -TWO63 <= i < TWO64
  {
    Number(-TWO31 <= i < TWO31, 0 <= i < TWO32, i < TWO63, 0 <= i, false, Bits(i))
  }

  // Every integer constructor sets the flags of exactly the types its argument fits.
  lemma IntegerFlags(i: int)
    ensures -TWO31 <= i < TWO31 ==> FromInt(i) == Fitting(i)
    ensures 0 <= i < TWO32 ==> FromUint(i) == Fitting(i)
    ensures -TWO63 <= i < TWO63 ==> FromInt64(i) == Fitting(i)
    ensures 0 <= i < TWO64 ==> FromUint64(i) == Fitting(i)
  {
  }

  ghost predicate Built(n: Number) {
    n == DEFAULT_NUMBER || n == FromDouble(n.bits) || exists i | -TWO63 <= i < TWO64 :: n == Fitting(i)
  }

  // ---------------------------------------------------------------- values and events

  datatype Storage = Const | Copied | Inline

  datatype Value =
    | Null
    | Bool(b: bool)
    | Num(n: Number)
    | Str(storage: Storage, s: seq<Byte>)
    | Array(elements: seq<Value>, capacity: nat)
    | Object(members: seq<Member>, capacity: nat)

  datatype Member = Member(name: Value, value: Value)

  datatype Event =
    | NullEvent
    | BoolEvent(b: bool)
    | IntEvent(i: int)
    | UintEvent(u: nat)
    | Int64Event(i: int)
    | Uint64Event(u: nat)
    | DoubleEvent(bits: Word64)
    | StringEvent(s: seq<Byte>, copy: bool)
    | KeyEvent(s: seq<Byte>, copy: bool)
    | StartObject
    | EndObject(memberCount: nat)
    | StartArray
    | EndArray(elementCount: nat)

  // Numbers come from constructors, and member names are strings.
  ghost predicate Sound(v: Value) {
    match v
    case Num(n) => Built(n)
    case Array(es, _) => forall i | 0 <= i < |es| :: Sound(es[i])
    case Object(ms, _) => forall i | 0 <= i < |ms| :: SoundMember(ms[i])
    case _ => true
  }

  ghost predicate SoundMember(m: Member) {
    m.name.Str? && Sound(m.value)
  }

  // The number's event: the first of the types tried in this order that it has the flag of.
  function NumberEvent(n: Number): Event {
    if n.isDouble then DoubleEvent(n.bits)
    else if n.isInt then IntEvent(Signed32(n.bits))
    else if n.isUint then UintEvent(n.bits % TWO32)
    else if n.isInt64 then Int64Event(Signed64(n.bits))
    else Uint64Event(n.bits)
  }

  function Events(v: Value): seq<Event>
    requires Sound(v)
    decreases v
  {
    match v
    case Null => [NullEvent]
    case Bool(b) => [BoolEvent(b)]
    case Num(n) => [NumberEvent(n)]
    case Str(storage, s) => [StringEvent(s, storage != Const)]
    case Array(es, _) => [StartArray] + EventsOfAll(es) + [EndArray(|es|)]
    case Object(ms, _) => [StartObject] + EventsOfMembers(ms) + [EndObject(|ms|)]
  }

  function EventsOfAll(vs: seq<Value>): seq<Event>
    requires forall i | 0 <= i < |vs| :: Sound(vs[i])
    decreases vs
  {
    if vs == [] then [] else Events(vs[0]) + EventsOfAll(vs[1..])
  }

  function EventsOfMembers(ms: seq<Member>): seq<Event>
    requires forall i | 0 <= i < |ms| :: SoundMember(ms[i])
    decreases ms
  {
    if ms == [] then [] else EventsOfMember(ms[0]) + EventsOfMembers(ms[1..])
  }

  function EventsOfMember(m: Member): seq<Event>
    requires SoundMember(m)
    decreases m
  {
    [KeyEvent(m.name.s, m.name.storage != Const)] + Events(m.value)
  }

  // ---------------------------------------------------------------- the stack machine

  // A string copied into the document: inline when it is short enough.
  function CopyOf(s: seq<Byte>, maxShort: nat): Value {
    Str(if |s| <= maxShort then Inline else Copied, s)
  }

  function StringFrom(s: seq<Byte>, copy: bool, maxShort: nat): Value {
    if copy then CopyOf(s, maxShort) else Str(Const, s)
  }

  // Consecutive stack entries taken as name-value pairs.
  function Paired(vs: seq<Value>): (ms: seq<Member>)
    requires |vs| % 2 == 0
    ensures |ms| == |vs| / 2
  {
    if vs == [] then [] else [Member(vs[0], vs[1])] + Paired(vs[2..])
  }

  // One event handled: the new stack, or none where the code's assertions fail.
  function Handled(stack: seq<Value>, e: Event, maxShort: nat): Option<seq<Value>> {
    match e
    case NullEvent => Some(stack + [Null])
    case BoolEvent(b) => Some(stack + [Bool(b)])
    case IntEvent(i) => if -TWO31 <= i < TWO31 then Some(stack + [Num(FromInt(i))]) else None
    case UintEvent(u) => if u < TWO32 then Some(stack + [Num(FromUint(u))]) else None
    case Int64Event(i) => if -TWO63 <= i < TWO63 then Some(stack + [Num(FromInt64(i))]) else None
    case Uint64Event(u) => if u < TWO64 then Some(stack + [Num(FromUint64(u))]) else None
    case DoubleEvent(bits) => Some(stack + [Num(FromDouble(bits))])
    case StringEvent(s, copy) => Some(stack + [StringFrom(s, copy, maxShort)])
    case KeyEvent(s, copy) => Some(stack + [StringFrom(s, copy, maxShort)])
    case StartObject => Some(stack + [Object([], 0)])
    case EndObject(n) =>
      var base := |stack| - 2 * n;
      if base < 1 then None else Some(stack[..base - 1] + [Object(Paired(stack[base..]), n)])
    case StartArray => Some(stack + [Array([], 0)])
    case EndArray(n) =>
      var base := |stack| - n;
      if base < 1 then None else Some(stack[..base - 1] + [Array(stack[base..], n)])
  }

  function Replay(stack: seq<Value>, es: seq<Event>, maxShort: nat): Option<seq<Value>>
    decreases |es|
  {
    if es == [] then Some(stack)
    else
      var next := Handled(stack, es[0], maxShort);
      if next.None? then None else Replay(next.value, es[1..], maxShort)
  }

  lemma {:induction false} ReplayConcat(stack: seq<Value>, es: seq<Event>, fs: seq<Event>, maxShort: nat)
    ensures Replay(stack, es + fs, maxShort)
         == var mid := Replay(stack, es, maxShort); if mid.None? then None else Replay(mid.value, fs, maxShort)
    decreases |es|
  {
    hide Handled;
    if es == [] {
      assert es + fs == fs;
    } else {
      assert (es + fs)[1..] == es[1..] + fs;
      var next := Handled(stack, es[0], maxShort);
      if next.Some? {
        ReplayConcat(next.value, es[1..], fs, maxShort);
      }
    }
  }

  // What replaying the events of v builds.
  function Clone(v: Value, maxShort: nat): Value
    decreases v
  {
    match v
    case Num(n) => if n.isDouble then Num(FromDouble(n.bits)) else v
    case Str(storage, s) => StringFrom(s, storage != Const, maxShort)
    case Array(es, _) => Array(CloneAll(es, maxShort), |es|)
    case Object(ms, _) => Object(CloneMembers(ms, maxShort), |ms|)
    case _ => v
  }

  function CloneAll(vs: seq<Value>, maxShort: nat): (r: seq<Value>)
    ensures |r| == |vs|
    decreases vs
  {
    if vs == [] then [] else [Clone(vs[0], maxShort)] + CloneAll(vs[1..], maxShort)
  }

  function CloneMembers(ms: seq<Member>, maxShort: nat): (r: seq<Member>)
    ensures |r| == |ms|
    decreases ms
  {
    if ms == [] then [] else [CloneMember(ms[0], maxShort)] + CloneMembers(ms[1..], maxShort)
  }

  function CloneMember(m: Member, maxShort: nat): Member
    decreases m
  {
    Member(Clone(m.name, maxShort), Clone(m.value, maxShort))
  }

  // Names and values in turn, as they lie on the stack.
  function Unpaired(ms: seq<Member>): (vs: seq<Value>)
    ensures |vs| == 2 * |ms|
  {
    if ms == [] then [] else [ms[0].name, ms[0].value] + Unpaired(ms[1..])
  }

  lemma {:induction false} PairedUnpaired(ms: seq<Member>)
    ensures Paired(Unpaired(ms)) == ms
  {
    if ms != [] {
      PairedUnpaired(ms[1..]);
      assert Unpaired(ms)[2..] == Unpaired(ms[1..]);
    }
  }

  lemma NumberReplayed(stack: seq<Value>, n: Number, maxShort: nat)
    requires Built(n)
    ensures Handled(stack, NumberEvent(n), maxShort) == Some(stack + [Clone(Num(n), maxShort)])
  {
    if !n.isDouble {
      var i :| -TWO63 <= i < TWO64 && n == Fitting(i);
      IntegerFlags(i);
      SignedBits(i);
    }
  }

  lemma SignedBits(i: int)
    requires -TWO63 <= i < TWO64
    ensures -TWO31 <= i < TWO31 ==> Signed32(Bits(i)) == i
    ensures 0 <= i < TWO32 ==> Bits(i) % TWO32 == i
    ensures i < TWO63 ==> Signed64(Bits(i)) == i
  {
    if i < 0 {
      assert Bits(i) == TWO32 * (TWO32 - 1) + (i + TWO32);
    }
  }

  lemma ReplayOne(stack: seq<Value>, e: Event, maxShort: nat)
    ensures Replay(stack, [e], maxShort) == Handled(stack, e, maxShort)
  {
    hide Handled;
    var next := Handled(stack, e, maxShort);
    assert [e][1..] == [];
    if next.Some? {
      assert Replay(next.value, [], maxShort) == next;
    }
  }

  // Replaying the events of any value leaves the stack as it was, plus the clone of the value.
  lemma {:induction false} ReplayEvents(stack: seq<Value>, v: Value, maxShort: nat)
    requires Sound(v)
    ensures Replay(stack, Events(v), maxShort) == Some(stack + [Clone(v, maxShort)])
    decreases v
  {
    match v
    case Null => ReplayOne(stack, NullEvent, maxShort);
    case Bool(b) => ReplayOne(stack, BoolEvent(b), maxShort);
    case Num(n) =>
      ReplayOne(stack, NumberEvent(n), maxShort);
      NumberReplayed(stack, n, maxShort);
    case Str(storage, s) => ReplayOne(stack, StringEvent(s, storage != Const), maxShort);
    case Array(es, _) =>
      ReplayAll(stack + [Array([], 0)], es, maxShort);
      ArrayClosed(stack, es, maxShort);
    case Object(ms, _) =>
      ReplayMembers(stack + [Object([], 0)], ms, maxShort);
      ObjectClosed(stack, ms, maxShort);
  }

  lemma ArrayClosed(stack: seq<Value>, vs: seq<Value>, maxShort: nat)
    requires forall i | 0 <= i < |vs| :: Sound(vs[i])
    requires Replay(stack + [Array([], 0)], EventsOfAll(vs), maxShort)
          == Some(stack + [Array([], 0)] + CloneAll(vs, maxShort))
    ensures Replay(stack, [StartArray] + EventsOfAll(vs) + [EndArray(|vs|)], maxShort)
         == Some(stack + [Array(CloneAll(vs, maxShort), |vs|)])
  {
    hide Clone, CloneAll, Replay, Events, EventsOfAll;
    var top := stack + [Array([], 0)] + CloneAll(vs, maxShort);
    ReplayOne(stack, StartArray, maxShort);
    ReplayConcat(stack, [StartArray], EventsOfAll(vs), maxShort);
    ReplayConcat(stack, [StartArray] + EventsOfAll(vs), [EndArray(|vs|)], maxShort);
    ReplayOne(top, EndArray(|vs|), maxShort);
    assert top[|top| - |vs|..] == CloneAll(vs, maxShort) && top[..|top| - |vs| - 1] == stack;
  }

  lemma ObjectClosed(stack: seq<Value>, ms: seq<Member>, maxShort: nat)
    requires forall i | 0 <= i < |ms| :: SoundMember(ms[i])
    requires Replay(stack + [Object([], 0)], EventsOfMembers(ms), maxShort)
          == Some(stack + [Object([], 0)] + Unpaired(CloneMembers(ms, maxShort)))
    ensures Replay(stack, [StartObject] + EventsOfMembers(ms) + [EndObject(|ms|)], maxShort)
         == Some(stack + [Object(CloneMembers(ms, maxShort), |ms|)])
  {
    hide Clone, CloneMembers, Replay, Events, EventsOfMembers, Unpaired, Paired;
    var clones := CloneMembers(ms, maxShort);
    var top := stack + [Object([], 0)] + Unpaired(clones);
    ReplayOne(stack, StartObject, maxShort);
    ReplayConcat(stack, [StartObject], EventsOfMembers(ms), maxShort);
    ReplayConcat(stack, [StartObject] + EventsOfMembers(ms), [EndObject(|ms|)], maxShort);
    ReplayOne(top, EndObject(|ms|), maxShort);
    PairedUnpaired(clones);
    assert top[|top| - 2 * |ms|..] == Unpaired(clones) && top[..|top| - 2 * |ms| - 1] == stack;
  }

  lemma {:induction false} ReplayAll(stack: seq<Value>, vs: seq<Value>, maxShort: nat)
    requires forall i | 0 <= i < |vs| :: Sound(vs[i])
    ensures Replay(stack, EventsOfAll(vs), maxShort) == Some(stack + CloneAll(vs, maxShort))
    decreases vs
  {
    hide Clone, Events, Handled;
    if vs == [] {
      assert stack + CloneAll(vs, maxShort) == stack;
    } else {
      assert stack + CloneAll(vs, maxShort) == stack + [Clone(vs[0], maxShort)] + CloneAll(vs[1..], maxShort);
      ReplayEvents(stack, vs[0], maxShort);
      ReplayConcat(stack, Events(vs[0]), EventsOfAll(vs[1..]), maxShort);
      ReplayAll(stack + [Clone(vs[0], maxShort)], vs[1..], maxShort);
    }
  }

  lemma {:induction false} ReplayMember(stack: seq<Value>, m: Member, maxShort: nat)
    requires SoundMember(m)
    ensures Replay(stack, EventsOfMember(m), maxShort)
         == Some(stack + [Clone(m.name, maxShort), Clone(m.value, maxShort)])
    decreases m
  {
    var key := KeyEvent(m.name.s, m.name.storage != Const);
    ReplayOne(stack, key, maxShort);
    ReplayEvents(stack + [Clone(m.name, maxShort)], m.value, maxShort);
    ReplayConcat(stack, [key], Events(m.value), maxShort);
    assert stack + [Clone(m.name, maxShort)] + [Clone(m.value, maxShort)]
        == stack + [Clone(m.name, maxShort), Clone(m.value, maxShort)];
  }

  lemma {:induction false} ReplayMembers(stack: seq<Value>, ms: seq<Member>, maxShort: nat)
    requires forall i | 0 <= i < |ms| :: SoundMember(ms[i])
    ensures Replay(stack, EventsOfMembers(ms), maxShort) == Some(stack + Unpaired(CloneMembers(ms, maxShort)))
    decreases ms
  {
    hide Clone, Events, Handled, EventsOfMember;
    var clones := CloneMembers(ms, maxShort);
    if ms == [] {
      assert stack + Unpaired(clones) == stack;
    } else {
      assert clones[0] == CloneMember(ms[0], maxShort) && clones[1..] == CloneMembers(ms[1..], maxShort);
      var first := [Clone(ms[0].name, maxShort), Clone(ms[0].value, maxShort)];
      assert stack + Unpaired(clones) == stack + first + Unpaired(CloneMembers(ms[1..], maxShort));
      ReplayMember(stack, ms[0], maxShort);
      ReplayConcat(stack, EventsOfMember(ms[0]), EventsOfMembers(ms[1..]), maxShort);
      ReplayMembers(stack + first, ms[1..], maxShort);
    }
  }

  // ---------------------------------------------------------------- what clones are equal to

  // Conversion to double and the comparison a >= b && a <= b, on bit patterns.
  datatype Doubles = Doubles(convert: int -> Word64, same: (Word64, Word64) -> bool)

  function AsDouble(n: Number, d: Doubles): Word64 {
    if n.isDouble then n.bits
    else if n.isInt then d.convert(Signed32(n.bits))
    else if n.isUint then d.convert(n.bits % TWO32)
    else if n.isInt64 then d.convert(Signed64(n.bits))
    else d.convert(n.bits)
  }

  function NumbersEqual(m: Number, n: Number, d: Doubles): bool {
    if m.isDouble || n.isDouble then d.same(AsDouble(m, d), AsDouble(n, d)) else m.bits == n.bits
  }

  // The index of the first member of that name, or the number of members.
  function Find(ms: seq<Member>, name: Value): (i: nat)
    requires name.Str? && forall i | 0 <= i < |ms| :: SoundMember(ms[i])
    ensures i <= |ms|
  {
    if ms == [] then 0
    else
      assert SoundMember(ms[0]);
      if ms[0].name.s == name.s then 0 else 1 + Find(ms[1..], name)
  }

  // operator==
  predicate Equal(v: Value, w: Value, d: Doubles)
    requires Sound(v) && Sound(w)
    decreases v
  {
    match v
    case Null => w.Null?
    case Bool(b) => w == Bool(b)
    case Num(n) => w.Num? && NumbersEqual(n, w.n, d)
    case Str(_, s) => w.Str? && s == w.s
    case Array(es, _) =>
      w.Array? && |es| == |w.elements| && forall i | 0 <= i < |es| :: Equal(es[i], w.elements[i], d)
    case Object(ms, _) =>
      w.Object? && |ms| == |w.members| &&
      forall i | 0 <= i < |ms| :: FoundEqual(ms[i], w.members, d)
  }

  predicate FoundEqual(m: Member, ns: seq<Member>, d: Doubles)
    requires SoundMember(m) && forall i | 0 <= i < |ns| :: SoundMember(ns[i])
    decreases m
  {
    var j := Find(ns, m.name);
    j < |ns| && Equal(m.value, ns[j].value, d)
  }

  lemma {:induction false} ClonedAt(vs: seq<Value>, i: nat, maxShort: nat)
    requires i < |vs|
    ensures CloneAll(vs, maxShort)[i] == Clone(vs[i], maxShort)
    decreases i
  {
    hide Clone;
    if i > 0 {
      ClonedAt(vs[1..], i - 1, maxShort);
    }
  }

  lemma {:induction false} MemberClonedAt(ms: seq<Member>, i: nat, maxShort: nat)
    requires i < |ms|
    ensures CloneMembers(ms, maxShort)[i] == CloneMember(ms[i], maxShort)
    decreases i
  {
    hide CloneMember;
    if i > 0 {
      MemberClonedAt(ms[1..], i - 1, maxShort);
    }
  }

  lemma {:induction false} CloneSound(v: Value, maxShort: nat)
    requires Sound(v)
    ensures Sound(Clone(v, maxShort))
    decreases v
  {
    match v
    case Array(es, _) =>
      forall i | 0 <= i < |es|
        ensures Sound(CloneAll(es, maxShort)[i])
      {
        ClonedAt(es, i, maxShort);
        CloneSound(es[i], maxShort);
      }
    case Object(ms, _) =>
      forall i | 0 <= i < |ms|
        ensures SoundMember(CloneMembers(ms, maxShort)[i])
      {
        MemberClonedAt(ms, i, maxShort);
        CloneMemberSound(ms[i], maxShort);
      }
    case _ =>
  }

  lemma {:induction false} CloneMemberSound(m: Member, maxShort: nat)
    requires SoundMember(m)
    ensures SoundMember(CloneMember(m, maxShort)) && CloneMember(m, maxShort).name.s == m.name.s
    decreases m
  {
    CloneSound(m.value, maxShort);
  }

  // Cloning does not change which member a name finds.
  lemma {:induction false} FindCloned(ms: seq<Member>, name: Value, maxShort: nat)
    requires name.Str? && forall i | 0 <= i < |ms| :: SoundMember(ms[i])
    ensures forall i | 0 <= i < |ms| :: SoundMember(CloneMembers(ms, maxShort)[i])
    ensures Find(CloneMembers(ms, maxShort), name) == Find(ms, name)
  {
    if ms != [] {
      CloneMemberSound(ms[0], maxShort);
      FindCloned(ms[1..], name, maxShort);
      assert CloneMembers(ms, maxShort)[1..] == CloneMembers(ms[1..], maxShort);
    }
  }

  lemma {:induction false} FindSameName(ms: seq<Member>, name: Value, other: Value)
    requires name.Str? && other.Str? && name.s == other.s && forall i | 0 <= i < |ms| :: SoundMember(ms[i])
    ensures Find(ms, name) == Find(ms, other)
  {
    if ms != [] {
      FindSameName(ms[1..], name, other);
    }
  }

  // On either side of operator==, a clone behaves as its original.
  lemma {:induction false} CloneLeft(v: Value, w: Value, d: Doubles, maxShort: nat)
    requires Sound(v) && Sound(w)
    ensures Sound(Clone(v, maxShort)) && (Equal(Clone(v, maxShort), w, d) <==> Equal(v, w, d))
    decreases v
  {
    CloneSound(v, maxShort);
    match v
    case Array(es, _) =>
      if w.Array? && |es| == |w.elements| {
        forall i | 0 <= i < |es|
          ensures Equal(CloneAll(es, maxShort)[i], w.elements[i], d) <==> Equal(es[i], w.elements[i], d)
        {
          ClonedAt(es, i, maxShort);
          CloneLeft(es[i], w.elements[i], d, maxShort);
        }
      }
    case Object(ms, _) =>
      if w.Object? && |ms| == |w.members| {
        forall i | 0 <= i < |ms|
          ensures FoundEqual(CloneMembers(ms, maxShort)[i], w.members, d) <==> FoundEqual(ms[i], w.members, d)
        {
          MemberClonedAt(ms, i, maxShort);
          CloneMemberLeft(ms[i], w.members, d, maxShort);
        }
      }
    case _ =>
  }

  lemma {:induction false} CloneMemberLeft(m: Member, ns: seq<Member>, d: Doubles, maxShort: nat)
    requires SoundMember(m) && forall i | 0 <= i < |ns| :: SoundMember(ns[i])
    ensures SoundMember(CloneMember(m, maxShort))
    ensures FoundEqual(CloneMember(m, maxShort), ns, d) <==> FoundEqual(m, ns, d)
    decreases m
  {
    CloneMemberSound(m, maxShort);
    FindSameName(ns, m.name, CloneMember(m, maxShort).name);
    var j := Find(ns, m.name);
    if j < |ns| {
      CloneLeft(m.value, ns[j].value, d, maxShort);
    }
  }

  lemma {:induction false} CloneRight(v: Value, w: Value, d: Doubles, maxShort: nat)
    requires Sound(v) && Sound(w)
    ensures Sound(Clone(w, maxShort)) && (Equal(v, Clone(w, maxShort), d) <==> Equal(v, w, d))
    decreases v
  {
    CloneSound(w, maxShort);
    match v
    case Array(es, _) =>
      if w.Array? && |es| == |w.elements| {
        forall i | 0 <= i < |es|
          ensures Equal(es[i], CloneAll(w.elements, maxShort)[i], d) <==> Equal(es[i], w.elements[i], d)
        {
          ClonedAt(w.elements, i, maxShort);
          CloneRight(es[i], w.elements[i], d, maxShort);
        }
      }
    case Object(ms, _) =>
      if w.Object? && |ms| == |w.members| {
        forall i | 0 <= i < |ms|
          ensures FoundEqual(ms[i], CloneMembers(w.members, maxShort), d) <==> FoundEqual(ms[i], w.members, d)
        {
          CloneMemberRight(ms[i], w.members, d, maxShort);
        }
      }
    case _ =>
  }

  lemma {:induction false} CloneMemberRight(m: Member, ns: seq<Member>, d: Doubles, maxShort: nat)
    requires SoundMember(m) && forall i | 0 <= i < |ns| :: SoundMember(ns[i])
    ensures forall i | 0 <= i < |ns| :: SoundMember(CloneMembers(ns, maxShort)[i])
    ensures FoundEqual(m, CloneMembers(ns, maxShort), d) <==> FoundEqual(m, ns, d)
    decreases m
  {
    FindCloned(ns, m.name, maxShort);
    var j := Find(ns, m.name);
    if j < |ns| {
      MemberClonedAt(ns, j, maxShort);
      CloneRight(m.value, ns[j].value, d, maxShort);
    }
  }

  // The same value up to where copied strings and elements are stored: the same numbers (a number
  // with the double flag is a double), the same strings, borrowed or owned alike, in the same order.
  ghost predicate Alike(v: Value, w: Value)
    decreases v
  {
    match v
    case Num(n) => w.Num? && n.bits == w.n.bits && (w.n == n || (n.isDouble && w.n == FromDouble(n.bits)))
    case Str(storage, s) => w.Str? && s == w.s && (storage == Const <==> w.storage == Const)
    case Array(es, _) => w.Array? && |es| == |w.elements| && forall i | 0 <= i < |es| :: Alike(es[i], w.elements[i])
    case Object(ms, _) =>
      w.Object? && |ms| == |w.members| && forall i | 0 <= i < |ms| :: AlikeMember(ms[i], w.members[i])
    case _ => w == v
  }

  ghost predicate AlikeMember(m: Member, n: Member)
    decreases m
  {
    Alike(m.name, n.name) && Alike(m.value, n.value)
  }

  lemma {:induction false} CloneAlike(v: Value, maxShort: nat)
    ensures Alike(v, Clone(v, maxShort))
    decreases v
  {
    match v
    case Array(es, _) =>
      forall i | 0 <= i < |es|
        ensures Alike(es[i], CloneAll(es, maxShort)[i])
      {
        ClonedAt(es, i, maxShort);
        CloneAlike(es[i], maxShort);
      }
    case Object(ms, _) =>
      forall i | 0 <= i < |ms|
        ensures AlikeMember(ms[i], CloneMembers(ms, maxShort)[i])
      {
        MemberClonedAt(ms, i, maxShort);
        CloneMemberAlike(ms[i], maxShort);
      }
    case _ =>
  }

  lemma {:induction false} CloneMemberAlike(m: Member, maxShort: nat)
    ensures AlikeMember(m, CloneMember(m, maxShort))
    decreases m
  {
    CloneAlike(m.name, maxShort);
    CloneAlike(m.value, maxShort);
  }

  // Every double equals itself, and a member that repeats a name repeats the value of the first
  // member of that name.
  predicate Tidy(v: Value, d: Doubles)
    requires Sound(v)
    decreases v
  {
    match v
    case Num(n) => n.isDouble ==> d.same(n.bits, n.bits)
    case Array(es, _) => forall i | 0 <= i < |es| :: Tidy(es[i], d)
    case Object(ms, _) => forall i | 0 <= i < |ms| :: TidyMember(ms, i, d, ms[i])
    case _ => true
  }

  predicate TidyMember(ms: seq<Member>, i: nat, d: Doubles, m: Member)
    requires i < |ms| && m == ms[i] && forall k | 0 <= k < |ms| :: SoundMember(ms[k])
    decreases m
  {
    assert SoundMember(m);
    var j := Find(ms, m.name);
    if j == i || j == |ms| then Tidy(m.value, d) else Equal(m.value, ms[j].value, d)
  }

  lemma {:induction false} FindFinds(ms: seq<Member>, i: nat)
    requires i < |ms| && SoundMember(ms[i]) && forall k | 0 <= k < |ms| :: SoundMember(ms[k])
    ensures Find(ms, ms[i].name) <= i
    decreases i
  {
    if i > 0 {
      FindFinds(ms[1..], i - 1);
    }
  }

  // operator== is reflexive exactly on tidy values.
  lemma {:induction false} EqualItself(v: Value, d: Doubles)
    requires Sound(v)
    ensures Equal(v, v, d) <==> Tidy(v, d)
    decreases v
  {
    match v
    case Array(es, _) =>
      forall i | 0 <= i < |es|
        ensures Equal(es[i], es[i], d) <==> Tidy(es[i], d)
      {
        EqualItself(es[i], d);
      }
    case Object(ms, _) =>
      forall i | 0 <= i < |ms|
        ensures FoundEqual(ms[i], ms, d) <==> TidyMember(ms, i, d, ms[i])
      {
        assert SoundMember(ms[i]);
        FindFinds(ms, i);
        MemberItself(ms, i, d, ms[i]);
      }
    case _ =>
  }

  lemma {:induction false} MemberItself(ms: seq<Member>, i: nat, d: Doubles, m: Member)
    requires i < |ms| && m == ms[i] && SoundMember(m) && forall k | 0 <= k < |ms| :: SoundMember(ms[k])
    requires Find(ms, m.name) <= i
    ensures FoundEqual(m, ms, d) <==> TidyMember(ms, i, d, m)
    decreases m
  {
    if Find(ms, m.name) == i {
      EqualItself(m.value, d);
    }
  }

  // A clone compares equal to its original exactly when the original does.
  lemma CloneEqualsOriginal(v: Value, d: Doubles, maxShort: nat)
    requires Sound(v)
    ensures Sound(Clone(v, maxShort))
    ensures Equal(Clone(v, maxShort), v, d) <==> Tidy(v, d)
    ensures Equal(v, Clone(v, maxShort), d) <==> Tidy(v, d)
  {
    CloneLeft(v, v, d, maxShort);
    CloneRight(v, v, d, maxShort);
    EqualItself(v, d);
  }

  // A repeated name does not make every comparison fail, whatever the header's note says.
  lemma RepeatedNameMayBeEqual(d: Doubles) returns (v: Value)
    ensures v.Object? && |v.members| == 2 && v.members[0].name == v.members[1].name
    ensures Sound(v) && Equal(v, v, d)
  {
    var m := Member(Str(Const, [97]), Null);
    v := Object([m, m], 2);
    assert SoundMember(m);
    FindFinds([m, m], 0);
    FindFinds([m, m], 1);
    EqualItself(v, d);
  }

  // ---------------------------------------------------------------- the document

  lemma ArrayHandled(stack: seq<Value>, n: nat, maxShort: nat)
    requires n < |stack|
    ensures Handled(stack, EndArray(n), maxShort)
         == Some(stack[..|stack| - n - 1] + [Array(stack[|stack| - n..], n)])
  {
  }

  lemma ObjectHandled(stack: seq<Value>, n: nat, maxShort: nat)
    requires 2 * n < |stack|
    ensures Handled(stack, EndObject(n), maxShort)
         == Some(stack[..|stack| - 2 * n - 1] + [Object(Paired(stack[|stack| - 2 * n..]), n)])
  {
  }

  lemma LastReplaced(stack: seq<Value>, v: Value)
    requires stack != []
    ensures stack[|stack| - 1 := v] == stack[..|stack| - 1] + [v]
  {
  }

  class Document {
    var stack: seq<Value>
    const maxShort: nat

    constructor (maxShort: nat)
      ensures stack == [] && this.maxShort == maxShort
    {
      stack := [];
      this.maxShort := maxShort;
    }

    // Null, Bool, Int, Uint, Int64, Uint64 and Double all push one new value.
    method Push(v: Value) returns (ok: bool)
      modifies this
      ensures ok && stack == old(stack) + [v]
    {
      stack := stack + [v];
      ok := true;
    }

    // String and Key.
    method String(s: seq<Byte>, copy: bool) returns (ok: bool)
      modifies this
      ensures ok && Some(stack) == Handled(old(stack), StringEvent(s, copy), maxShort)
      ensures Some(stack) == Handled(old(stack), KeyEvent(s, copy), maxShort)
    {
      if copy {
        ok := Push(CopyOf(s, maxShort));
      } else {
        ok := Push(Str(Const, s));
      }
    }

    // Pop the name-value pairs and put them into the object below them.
    method EndObject(memberCount: nat) returns (ok: bool)
      requires 2 * memberCount < |stack|
      modifies this
      ensures ok && Some(stack) == Handled(old(stack), Event.EndObject(memberCount), maxShort)
    {
      hide Handled, Paired;
      var base := |stack| - 2 * memberCount;
      var members := Paired(stack[base..]);
      stack := stack[..base];
      ObjectHandled(old(stack), memberCount, maxShort);
      LastReplaced(stack, Object(members, memberCount));
      stack := stack[|stack| - 1 := Object(members, memberCount)];
      assert stack == old(stack)[..base - 1] + [Object(members, memberCount)];
      ok := true;
    }

    method EndArray(elementCount: nat) returns (ok: bool)
      requires elementCount < |stack|
      modifies this
      ensures ok && Some(stack) == Handled(old(stack), Event.EndArray(elementCount), maxShort)
    {
      hide Handled, Paired;
      var base := |stack| - elementCount;
      var elements := stack[base..];
      stack := stack[..base];
      ArrayHandled(old(stack), elementCount, maxShort);
      LastReplaced(stack, Array(elements, elementCount));
      stack := stack[|stack| - 1 := Array(elements, elementCount)];
      assert stack == old(stack)[..base - 1] + [Array(elements, elementCount)];
      ok := true;
    }
  }

  lemma {:induction false} UnpairedPrefix(ms: seq<Member>, i: nat)
    requires i < |ms|
    ensures Unpaired(ms[..i + 1]) == Unpaired(ms[..i]) + [ms[i].name, ms[i].value]
    decreases i
  {
    if i == 0 {
      assert ms[..1] == [ms[0]] && ms[..0] == [];
      assert Unpaired([ms[0]]) == [ms[0].name, ms[0].value] + Unpaired([]);
    } else {
      UnpairedPrefix(ms[1..], i - 1);
      assert ms[..i + 1][1..] == ms[1..][..i] && ms[..i][1..] == ms[1..][..i - 1];
    }
  }

  // Accept with a document as the handler.
  method Accept(v: Value, doc: Document) returns (ok: bool)
    requires Sound(v)
    modifies doc
    ensures ok && doc.stack == old(doc.stack) + [Clone(v, doc.maxShort)]
    decreases v
  {
    match v
    case Null =>
      ok := doc.Push(Null);
    case Bool(b) =>
      ok := doc.Push(Bool(b));
    case Num(n) =>
      ok := AcceptNumber(n, doc);
    case Str(storage, s) =>
      ok := doc.String(s, storage != Const);
    case Array(es, _) =>
      ok := AcceptArray(es, doc);
    case Object(ms, _) =>
      ok := AcceptObject(ms, doc);
  }

  method AcceptNumber(n: Number, doc: Document) returns (ok: bool)
    requires Built(n)
    modifies doc
    ensures ok && doc.stack == old(doc.stack) + [Clone(Num(n), doc.maxShort)]
  {
    NumberReplayed(doc.stack, n, doc.maxShort);
    if n.isDouble {
      ok := doc.Push(Num(FromDouble(n.bits)));
    } else if n.isInt {
      ok := doc.Push(Num(FromInt(Signed32(n.bits))));
    } else if n.isUint {
      ok := doc.Push(Num(FromUint(n.bits % TWO32)));
    } else if n.isInt64 {
      ok := doc.Push(Num(FromInt64(Signed64(n.bits))));
    } else {
      ok := doc.Push(Num(FromUint64(n.bits)));
    }
  }

  method AcceptArray(es: seq<Value>, doc: Document) returns (ok: bool)
    requires forall i | 0 <= i < |es| :: Sound(es[i])
    modifies doc
    ensures ok && doc.stack == old(doc.stack) + [Array(CloneAll(es, doc.maxShort), |es|)]
    decreases es
  {
    hide Clone;
    ghost var base, clones := doc.stack + [Array([], 0)], CloneAll(es, doc.maxShort);
    ok := doc.Push(Array([], 0));
    for i := 0 to |es|
      invariant doc.stack == base + clones[..i]
    {
      ok := Accept(es[i], doc);
      if !ok {
        return false;
      }
      ClonedAt(es, i, doc.maxShort);
      assert clones[..i + 1] == clones[..i] + [clones[i]];
    }
    assert doc.stack[|doc.stack| - |es|..] == clones;
    ok := doc.EndArray(|es|);
  }

  method AcceptObject(ms: seq<Member>, doc: Document) returns (ok: bool)
    requires forall i | 0 <= i < |ms| :: SoundMember(ms[i])
    modifies doc
    ensures ok && doc.stack == old(doc.stack) + [Object(CloneMembers(ms, doc.maxShort), |ms|)]
    decreases ms
  {
    hide Clone;
    ghost var base, clones := doc.stack + [Object([], 0)], CloneMembers(ms, doc.maxShort);
    ok := doc.Push(Object([], 0));
    for i := 0 to |ms|
      invariant doc.stack == base + Unpaired(clones[..i])
    {
      ok := AcceptMember(ms[i], doc);
      if !ok {
        return false;
      }
      MemberClonedAt(ms, i, doc.maxShort);
      UnpairedPrefix(clones, i);
    }
    assert clones[..|ms|] == clones;
    assert doc.stack[|doc.stack| - 2 * |ms|..] == Unpaired(clones);
    PairedUnpaired(clones);
    ok := doc.EndObject(|ms|);
  }

  method AcceptMember(m: Member, doc: Document) returns (ok: bool)
    requires SoundMember(m)
    modifies doc
    ensures ok && doc.stack == old(doc.stack) + [CloneMember(m, doc.maxShort).name, CloneMember(m, doc.maxShort).value]
    decreases m
  {
    ok := doc.String(m.name.s, m.name.storage != Const);
    if ok {
      ok := Accept(m.value, doc);
    }
  }

  // The deep-copy constructor.
  method DeepCopy(rhs: Value, maxShort: nat) returns (copy: Value)
    requires Sound(rhs)
    ensures copy == if rhs.Num? then rhs else Clone(rhs, maxShort)
  {
    match rhs
    case Object(_, _) =>
      copy := CopyThroughDocument(rhs, maxShort);
    case Array(_, _) =>
      copy := CopyThroughDocument(rhs, maxShort);
    case Str(storage, s) =>
      copy := if storage == Const then rhs else CopyOf(s, maxShort);
    case _ =>
      copy := rhs;
  }

  // One value is on the document's stack after the replay, and none after it is taken.
  method CopyThroughDocument(rhs: Value, maxShort: nat) returns (copy: Value)
    requires Sound(rhs)
    ensures copy == Clone(rhs, maxShort)
  {
    hide Clone;
    var doc := new Document(maxShort);
    var ok := Accept(rhs, doc);
    assert |doc.stack| == 1;
    copy := doc.stack[0];
  }

  // operator== cannot tell a deep copy from its original.
  lemma DeepCopyEqual(rhs: Value, copy: Value, w: Value, d: Doubles, maxShort: nat)
    requires Sound(rhs) && Sound(w) && copy == if rhs.Num? then rhs else Clone(rhs, maxShort)
    ensures Sound(copy)
    ensures (Equal(copy, w, d) <==> Equal(rhs, w, d)) && (Equal(w, copy, d) <==> Equal(w, rhs, d))
  {
    CloneLeft(rhs, w, d, maxShort);
    CloneRight(w, rhs, d, maxShort);
  }
}
