/**
  Stable sorting. `sort.SliceStable` is modelled by stable insertion sort, and what the services
  rely on is that a sort by a total order does not depend on the order of its input.
*/
module Sorting {
  /** Irreflexive and transitive. */
  ghost predicate StrictOrder<T(!new)>(less: (T, T) -> bool) {
    && (forall x :: !less(x, x))
    && (forall x, y, z :: less(x, y) && less(y, z) ==> less(x, z))
  }

  /** Any two entries at different positions are ordered one way or the other. */
  ghost predicate TotalOn<T(!new)>(s: seq<T>, less: (T, T) -> bool) {
    forall i, k :: 0 <= i < k < |s| ==> less(s[i], s[k]) || less(s[k], s[i])
  }

  ghost predicate Ascending<T(!new)>(s: seq<T>, less: (T, T) -> bool) {
    forall i, k :: 0 <= i < k < |s| ==> less(s[i], s[k])
  }

  /** Puts `x` before the first entry that is not less than it. */
  function Insert<T>(x: T, s: seq<T>, less: (T, T) -> bool): (r: seq<T>)
    ensures |r| == |s| + 1
  {
    if s != [] && less(s[0], x) then [s[0]] + Insert(x, s[1..], less) else [x] + s
  }

  /** `sort.SliceStable` */
  function Sort<T>(s: seq<T>, less: (T, T) -> bool): (r: seq<T>)
    ensures |r| == |s|
  {
    if s == [] then [] else Insert(s[0], Sort(s[1..], less), less)
  }

  lemma {:induction false} InsertAdds<T(!new)>(x: T, s: seq<T>, less: (T, T) -> bool)
    ensures multiset(Insert(x, s, less)) == multiset(s) + multiset{x}
  {
    if s != [] && less(s[0], x) {
      InsertAdds(x, s[1..], less);
      assert s == [s[0]] + s[1..];
    }
  }

  lemma {:induction false} SortPermutes<T(!new)>(s: seq<T>, less: (T, T) -> bool)
    ensures multiset(Sort(s, less)) == multiset(s)
    ensures forall x :: x in Sort(s, less) <==> x in s
  {
    if s != [] {
      SortPermutes(s[1..], less);
      InsertAdds(s[0], Sort(s[1..], less), less);
      assert s == [s[0]] + s[1..];
    }
    assert forall x :: x in Sort(s, less) <==> x in multiset(Sort(s, less));
  }

  lemma {:induction false} InsertAscends<T(!new)>(x: T, s: seq<T>, less: (T, T) -> bool)
    requires StrictOrder(less) && Ascending(s, less)
    requires forall y :: y in s ==> less(x, y) || less(y, x)
    ensures Ascending(Insert(x, s, less), less)
  {
    if s != [] && less(s[0], x) {
      InsertAscends(x, s[1..], less);
      InsertAdds(x, s[1..], less);
      var r := Insert(x, s[1..], less);
      forall y | y in r
        ensures less(s[0], y)
      {
        assert y in multiset(r);
        assert y == x || y in s[1..];
      }
    }
  }

  /** With all entries comparable the result strictly ascends. */
  lemma {:induction false} SortAscends<T(!new)>(s: seq<T>, less: (T, T) -> bool)
    requires StrictOrder(less) && TotalOn(s, less)
    ensures Ascending(Sort(s, less), less)
  {
    if s != [] {
      SortAscends(s[1..], less);
      SortPermutes(s[1..], less);
      InsertAscends(s[0], Sort(s[1..], less), less);
    }
  }

  lemma DropHead<T>(a: seq<T>)
    requires a != []
    ensures multiset(a[1..]) == multiset(a) - multiset{a[0]}
  {
    assert a == [a[0]] + a[1..];
  }

  lemma SameHead<T(!new)>(a: seq<T>, b: seq<T>, less: (T, T) -> bool)
    requires StrictOrder(less) && Ascending(a, less) && Ascending(b, less)
    requires a != [] && b != [] && a[0] in b && b[0] in a
    ensures a[0] == b[0]
  {
  }

  /** A strictly ascending arrangement of given entries is unique. */
  lemma {:induction false} AscendingIsUnique<T(!new)>(a: seq<T>, b: seq<T>, less: (T, T) -> bool)
    requires StrictOrder(less) && Ascending(a, less) && Ascending(b, less)
    requires multiset(a) == multiset(b)
    ensures a == b
  {
    assert |a| == |multiset(a)| == |multiset(b)| == |b|;
    if a != [] {
      assert a[0] in multiset(b) && b[0] in multiset(a);
      SameHead(a, b, less);
      DropHead(a);
      DropHead(b);
      AscendingIsUnique(a[1..], b[1..], less);
      assert a == [a[0]] + a[1..] && b == [b[0]] + b[1..];
    }
  }

  lemma HasMember<T>(s: seq<T>)
    ensures s != [] ==> exists x :: x in s
  {
    assert s != [] ==> s[0] in s;
  }

  lemma AscendingTail<T(!new)>(a: seq<T>, less: (T, T) -> bool)
    requires StrictOrder(less) && Ascending(a, less) && a != []
    ensures forall x :: x in a[1..] <==> x in a && x != a[0]
  {
    assert a == [a[0]] + a[1..];
    forall x | x in a[1..]
      ensures less(a[0], x)
    {
      var k :| 0 <= k < |a| - 1 && a[1..][k] == x;
      assert a[k + 1] == x;
    }
  }

  /** A strictly ascending arrangement is determined by its members. */
  lemma {:induction false} AscendingIsDetermined<T(!new)>(a: seq<T>, b: seq<T>, less: (T, T) -> bool)
    requires StrictOrder(less) && Ascending(a, less) && Ascending(b, less)
    requires forall x :: x in a <==> x in b
    ensures a == b
  {
    HasMember(b);
    if a != [] {
      assert a[0] in b && b != [] && b[0] in a;
      assert a[0] == b[0];
      AscendingTail(a, less);
      AscendingTail(b, less);
      AscendingIsDetermined(a[1..], b[1..], less);
    }
  }

  lemma TakeOut<T>(s: seq<T>, k: nat)
    requires k < |s|
    ensures s == s[..k] + [s[k]] + s[k + 1..]
    ensures multiset(s[..k] + s[k + 1..]) == multiset(s) - multiset{s[k]}
  {
    assert s == s[..k] + [s[k]] + s[k + 1..];
    assert multiset(s) == multiset(s[..k]) + multiset{s[k]} + multiset(s[k + 1..]);
  }

  /** Two arrangements of the same entries still agree after taking the last of one out of both. */
  lemma TakeOutLast<T>(a: seq<T>, b: seq<T>) returns (k: nat)
    requires a != [] && multiset(a) == multiset(b)
    ensures k < |b| && b[k] == a[|a| - 1]
    ensures a == a[..|a| - 1] + [b[k]] && b == b[..k] + [b[k]] + b[k + 1..]
    ensures multiset(a[..|a| - 1]) == multiset(b[..k] + b[k + 1..])
  {
    var n := |a| - 1;
    assert a[n] in multiset(b);
    k :| 0 <= k < |b| && b[k] == a[n];
    TakeOut(b, k);
    TakeOut(a, n);
    assert a[..n] + a[n + 1..] == a[..n];
  }

  /** First by `major`, and by `minor` where `major` does not decide. */
  function Lex<T(!new)>(major: (T, T) -> bool, minor: (T, T) -> bool): (T, T) -> bool {
    (x, y) => major(x, y) || (!major(y, x) && minor(x, y))
  }

  /** Incomparability by `major` is an equivalence. */
  ghost predicate WeakOrder<T(!new)>(less: (T, T) -> bool) {
    && StrictOrder(less)
    && (forall x, y, z :: less(x, z) ==> less(x, y) || less(y, z))
  }

  lemma LexIsStrict<T(!new)>(major: (T, T) -> bool, minor: (T, T) -> bool)
    requires WeakOrder(major) && StrictOrder(minor)
    ensures StrictOrder(Lex(major, minor))
  {
  }

  // inserting an entry that precedes all others by `minor` keeps the lexicographic order
  lemma {:induction false} StableInsert<T(!new)>(x: T, r: seq<T>, major: (T, T) -> bool, minor: (T, T) -> bool)
    requires WeakOrder(major) && StrictOrder(minor)
    requires Ascending(r, Lex(major, minor)) && forall y :: y in r ==> minor(x, y)
    ensures Ascending(Insert(x, r, major), Lex(major, minor))
  {
    LexIsStrict(major, minor);
    if r != [] && major(r[0], x) {
      StableInsert(x, r[1..], major, minor);
      InsertAdds(x, r[1..], major);
      var q := Insert(x, r[1..], major);
      forall y | y in q
        ensures Lex(major, minor)(r[0], y)
      {
        assert y in multiset(q);
        assert y == x || y in r[1..];
      }
    } else if r != [] {
      assert Lex(major, minor)(x, r[0]);
    }
  }

  /** Stably sorting by `major` what is already sorted by `minor` is one lexicographic sort. */
  lemma {:induction false} StableSortIsLexicographic<T(!new)>(s: seq<T>, major: (T, T) -> bool, minor: (T, T) -> bool)
    requires WeakOrder(major) && StrictOrder(minor) && Ascending(s, minor)
    ensures Ascending(Sort(s, major), Lex(major, minor))
  {
    if s != [] {
      StableSortIsLexicographic(s[1..], major, minor);
      SortPermutes(s[1..], major);
      StableInsert(s[0], Sort(s[1..], major), major, minor);
    }
  }

  /** No entry is less than an earlier one. */
  ghost predicate NeverDescends<T(!new)>(s: seq<T>, less: (T, T) -> bool) {
    forall i, k :: 0 <= i < k < |s| ==> !less(s[k], s[i])
  }

  lemma {:induction false} InsertNeverDescends<T(!new)>(x: T, s: seq<T>, less: (T, T) -> bool)
    requires WeakOrder(less) && NeverDescends(s, less)
    ensures NeverDescends(Insert(x, s, less), less)
  {
    if s != [] && less(s[0], x) {
      InsertNeverDescends(x, s[1..], less);
      InsertAdds(x, s[1..], less);
      var r := Insert(x, s[1..], less);
      forall y | y in r
        ensures !less(y, s[0])
      {
        assert y in multiset(r);
        assert y == x || y in s[1..];
      }
    } else if s != [] {
      forall y | y in s
        ensures !less(y, x)
      {
        assert !less(y, s[0]);
      }
    }
  }

  /** With entries that tie, the result still never descends. */
  lemma {:induction false} SortNeverDescends<T(!new)>(s: seq<T>, less: (T, T) -> bool)
    requires WeakOrder(less)
    ensures NeverDescends(Sort(s, less), less)
  {
    if s != [] {
      SortNeverDescends(s[1..], less);
      InsertNeverDescends(s[0], Sort(s[1..], less), less);
    }
  }

  lemma SameLeast<T(!new)>(a: seq<T>, b: seq<T>, less: (T, T) -> bool)
    requires forall x, y :: x == y || less(x, y) || less(y, x)
    requires NeverDescends(a, less) && NeverDescends(b, less)
    requires a != [] && b != [] && a[0] in b && b[0] in a
    ensures a[0] == b[0]
  {
  }

  /** Where only equal entries tie, sorting forgets the order of the input even with repetitions. */
  lemma {:induction false} NeverDescendingIsUnique<T(!new)>(a: seq<T>, b: seq<T>, less: (T, T) -> bool)
    requires StrictOrder(less) && forall x, y :: x == y || less(x, y) || less(y, x)
    requires NeverDescends(a, less) && NeverDescends(b, less) && multiset(a) == multiset(b)
    ensures a == b
  {
    assert |a| == |multiset(a)| == |multiset(b)| == |b|;
    if a != [] {
      assert a[0] in multiset(b) && b[0] in multiset(a);
      SameLeast(a, b, less);
      DropHead(a);
      DropHead(b);
      NeverDescendingIsUnique(a[1..], b[1..], less);
      assert a == [a[0]] + a[1..] && b == [b[0]] + b[1..];
    }
  }

  /** Go's `<` on strings. */
  predicate StringLess(a: string, b: string) {
    if b == "" then false
    else if a == "" then true
    else a[0] < b[0] || (a[0] == b[0] && StringLess(a[1..], b[1..]))
  }

  lemma {:induction false} StringLessIsTransitive(a: string, b: string, c: string)
    requires StringLess(a, b) && StringLess(b, c)
    ensures StringLess(a, c)
  {
    if a != "" && a[0] == b[0] == c[0] {
      StringLessIsTransitive(a[1..], b[1..], c[1..]);
    }
  }

  lemma {:induction false} StringLessIsIrreflexive(a: string)
    ensures !StringLess(a, a)
  {
    if a != "" {
      StringLessIsIrreflexive(a[1..]);
    }
  }

  lemma {:induction false} StringLessIsTotal(a: string, b: string)
    ensures a == b || StringLess(a, b) || StringLess(b, a)
  {
    if a != "" && b != "" && a[0] == b[0] {
      StringLessIsTotal(a[1..], b[1..]);
      assert a == [a[0]] + a[1..] && b == [b[0]] + b[1..];
    }
  }

  lemma StringLessIsStrict()
    ensures StrictOrder(StringLess)
    ensures forall a, b :: a == b || StringLess(a, b) || StringLess(b, a)
  {
    forall a {
      StringLessIsIrreflexive(a);
    }
    forall a, b, c | StringLess(a, b) && StringLess(b, c) {
      StringLessIsTransitive(a, b, c);
    }
    forall a, b
      ensures a == b || StringLess(a, b) || StringLess(b, a)
    {
      StringLessIsTotal(a, b);
    }
  }
}
