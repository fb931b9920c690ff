/** Reachability along a relation, as the least closed set that holds the base. */
module Reachability {
  ghost predicate IsChain<T>(chain: seq<T>, step: (T, T) -> bool) {
    forall k :: 0 < k < |chain| ==> step(chain[k - 1], chain[k])
  }

  /** A chain of steps from a base element to `x`. */
  ghost predicate ChainTo<T>(chain: seq<T>, x: T, base: T -> bool, step: (T, T) -> bool) {
    chain != [] && base(chain[0]) && IsChain(chain, step) && chain[|chain| - 1] == x
  }

  ghost predicate Reachable<T(!new)>(x: T, base: T -> bool, step: (T, T) -> bool) {
    exists chain :: ChainTo(chain, x, base, step)
  }

  ghost predicate ClosedUnder<T(!new)>(s: set<T>, step: (T, T) -> bool) {
    forall x, y :: x in s && step(x, y) ==> y in s
  }

  lemma {:induction false} ReachableBase<T(!new)>(x: T, base: T -> bool, step: (T, T) -> bool)
    requires base(x)
    ensures Reachable(x, base, step)
  {
    assert ChainTo([x], x, base, step);
  }

  lemma {:induction false} ReachableStep<T(!new)>(x: T, y: T, base: T -> bool, step: (T, T) -> bool)
    requires Reachable(x, base, step) && step(x, y)
    ensures Reachable(y, base, step)
  {
    var chain :| ChainTo(chain, x, base, step);
    assert ChainTo(chain + [y], y, base, step);
  }

  lemma {:induction false} ChainStays<T(!new)>(chain: seq<T>, s: set<T>, step: (T, T) -> bool)
    requires chain != [] && chain[0] in s && IsChain(chain, step) && ClosedUnder(s, step)
    ensures chain[|chain| - 1] in s
  {
    if |chain| > 1 {
      var init := chain[..|chain| - 1];
      ChainStays(init, s, step);
      assert step(init[|init| - 1], chain[|chain| - 1]);
    }
  }

  /** A closed set that holds the base holds everything reachable: reachability is the least such set. */
  lemma {:induction false} ReachableIsLeast<T(!new)>(s: set<T>, base: T -> bool, step: (T, T) -> bool)
    requires (forall x :: base(x) ==> x in s) && ClosedUnder(s, step)
    ensures forall x :: Reachable(x, base, step) ==> x in s
  {
    forall x | Reachable(x, base, step) ensures x in s {
      var chain :| ChainTo(chain, x, base, step);
      ChainStays(chain, s, step);
    }
  }
}
