/** Option, Result, an arbitrary choice from a set, and a few facts about sets and powers, shared by every module. */
module Wrappers {
  datatype Option<+T> = None | Some(value: T)

  datatype Result<+T, +E> = Ok(value: T) | Err(error: E)

  /** Some element of a nonempty set: Go's map iteration order is arbitrary. */
  method Pick<T>(s: set<T>) returns (x: T)
    requires s != {}
    ensures x in s
  {
    x :| x in s;
  }

  lemma SomeMember<T>(s: set<T>) returns (x: T)
    requires s != {}
    ensures x in s
  {
    x :| x in s;
  }

  /** A subset is no larger, and as large only if it is the whole set. */
  lemma SmallerSet<T>(a: set<T>, b: set<T>)
    requires a <= b
    ensures |a| <= |b| && (|a| == |b| ==> a == b)
  {
    assert b == a + (b - a) && |b| == |a| + |b - a|;
  }

  /** Visiting `x` takes it out of what is left to visit. */
  lemma ShrinkRest<T>(wanted: set<T>, rest: set<T>, x: T)
    requires x in rest
    ensures wanted - (rest - {x}) == if x in wanted then wanted - rest + {x} else wanted - rest
    ensures x in wanted ==> |wanted - rest + {x}| == |wanted - rest| + 1
  {
  }

  function Pow2(n: nat): (p: nat)
    ensures p >= 1
  {
    if n == 0 then 1 else 2 * Pow2(n - 1)
  }

  lemma {:induction false} Pow2Grows(n: nat, m: nat)
    requires n <= m
    ensures Pow2(n) <= Pow2(m)
    decreases m
  {
    if n < m {
      Pow2Grows(n, m - 1);
    }
  }
}
