/** Sizes of finite sets, and sequences without repetition. */
module Finite {

  lemma {:induction false} SubsetSize<T>(a: set<T>, b: set<T>)
    requires a <= b
    ensures |a| <= |b|
    ensures |a| == |b| ==> a == b
  {
    if a == {} {
    } else {
      var x :| x in a;
      SubsetSize(a - {x}, b - {x});
    }
  }

  /** Exchanging one member for another keeps the size. */
  lemma SwapSize<T>(a: set<T>, b: set<T>, old': T, new': T)
    requires old' in a && new' !in a && b == a - {old'} + {new'}
    ensures |b| == |a|
  {
  }

  ghost function Members<T>(xs: seq<T>): set<T> {
    set x | x in xs
  }

  ghost predicate NoRepeats<T>(xs: seq<T>) {
    forall i, j | 0 <= i < j < |xs| :: xs[i] != xs[j]
  }

  lemma {:induction false} MembersSize<T>(xs: seq<T>)
    requires NoRepeats(xs)
    ensures |Members(xs)| == |xs|
  {
    if xs == [] {
      assert Members(xs) == {};
    } else {
      MembersSize(xs[1..]);
      assert Members(xs) == {xs[0]} + Members(xs[1..]);
    }
  }
}
