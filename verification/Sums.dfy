/** Sums over finite sets. */
module Sums {

  ghost function SumSet<T>(s: set<T>, f: T -> int): int {
    if s == {} then 0 else
      var x :| x in s;
      f(x) + SumSet(s - {x}, f)
  }

  /** Any element may be taken out first. */
  lemma {:induction false} SumSetRemove<T>(s: set<T>, f: T -> int, x: T)
    requires x in s
    ensures SumSet(s, f) == f(x) + SumSet(s - {x}, f)
    decreases s
  {
    var y :| y in s && SumSet(s, f) == f(y) + SumSet(s - {y}, f);
    if y != x {
      SumSetRemove(s - {y}, f, x);
      SumSetRemove(s - {x}, f, y);
      assert s - {y} - {x} == s - {x} - {y};
    }
  }

  lemma SumSetAdd<T>(s: set<T>, f: T -> int, x: T)
    requires x !in s
    ensures SumSet(s + {x}, f) == f(x) + SumSet(s, f)
  {
    SumSetRemove(s + {x}, f, x);
    assert s + {x} - {x} == s;
  }
}
