// Small generic notions shared by the models.
module Collections {
  datatype Option<T> = None | Some(value: T)

  // n times x.
  function Copies<T>(n: nat, x: T): (s: seq<T>)
    ensures |s| == n
  {
    seq(n, _ => x)
  }

  // Two sequences that agree everywhere outside positions lo..hi.
  ghost predicate SameOutside<T>(was: seq<T>, now: seq<T>, lo: int, hi: int) {
    |was| == |now| && forall i | 0 <= i < |was| :: i < lo || hi <= i ==> was[i] == now[i]
  }

  lemma {:induction false} Subset<T>(a: set<T>, b: set<T>)
    requires a <= b
    ensures |a| <= |b|
  {
    if a != {} {
      var x :| x in a;
      Subset(a - {x}, b - {x});
    }
  }
}
