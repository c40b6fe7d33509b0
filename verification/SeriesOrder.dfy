/** The quality repository's series repair: renumbering the entries of one series in one transaction. */
module SeriesOrder {
  import opened Wrappers
  import opened Sorting

  datatype Key = Key(series: string, work: string)

  datatype Row = Row(index: Option<real>, createdAt: int)

  type Table = map<Key, Row>

  datatype Entry = Entry(work: string, row: Row)

  /** `ORDER BY series_index ASC NULLS LAST, created_at ASC, work_id ASC` */
  predicate Before(a: Entry, b: Entry) {
    match (a.row.index, b.row.index)
    case (Some(_), None) => true
    case (None, Some(_)) => false
    case (Some(x), Some(y)) => x < y || (x == y && Later(a, b))
    case (None, None) => Later(a, b)
  }

  // the tie-break: by creation, then by work
  predicate Later(a: Entry, b: Entry) {
    a.row.createdAt < b.row.createdAt || (a.row.createdAt == b.row.createdAt && StringLess(a.work, b.work))
  }

  lemma LaterIsStrict()
    ensures StrictOrder(Later) && forall a: Entry, b: Entry :: a.work == b.work || Later(a, b) || Later(b, a)
  {
    hide StringLess;
    StringLessIsStrict();
  }

  lemma BeforeIsStrict()
    ensures StrictOrder(Before) && forall a: Entry, b: Entry :: a.work == b.work || Before(a, b) || Before(b, a)
  {
    hide Later;
    LaterIsStrict();
  }

  /** `list` holds the entries of the series in the query's order. */
  ghost predicate IsListing(t: Table, series: string, list: seq<Entry>) {
    && Ascending(list, Before)
    && (forall e :: e in list <==> Key(series, e.work) in t && t[Key(series, e.work)] == e.row)
  }

  /**
    What comes earlier in a listing: numbered entries before those without an index, the smaller index first, then
    the older row, then the smaller work ID.
  */
  lemma ListingMeans(t: Table, series: string, list: seq<Entry>, i: nat, k: nat)
    requires IsListing(t, series, list) && i < k < |list|
    ensures var a, b := list[i], list[k];
            && (a.row.index.None? ==> b.row.index.None?)
            && (a.row.index.Some? && b.row.index.Some? ==> a.row.index.value <= b.row.index.value)
            && (a.row.index == b.row.index ==> a.row.createdAt <= b.row.createdAt)
            && (a.row.index == b.row.index && a.row.createdAt == b.row.createdAt ==> StringLess(a.work, b.work))
  {
    hide StringLess;
    assert Before(list[i], list[k]);
  }

  function Abs(x: real): real {
    if x < 0.0 then -x else x
  }

  const TOLERANCE: real := 0.0001

  predicate InPlace(index: Option<real>, position: nat) {
    index.Some? && Abs(index.value - (position + 1) as real) < TOLERANCE
  }

  function Fixed(e: Entry, position: nat): Entry {
    if InPlace(e.row.index, position) then e else e.(row := e.row.(index := Some((position + 1) as real)))
  }

  /** Every listed entry is numbered by its position and nothing else changes. */
  ghost predicate Renumbered(t: Table, series: string, list: seq<Entry>, after: Table) {
    && after.Keys == t.Keys
    && (forall i :: 0 <= i < |list| ==>
          Key(series, list[i].work) in t && after[Key(series, list[i].work)] == Fixed(list[i], i).row)
    && (forall k :: k in t && k.series != series ==> after[k] == t[k])
  }

  function Changed(t: Table, after: Table): set<Key>
    requires after.Keys == t.Keys
  {
    set k | k in t && after[k] != t[k]
  }

  /** None of the updates that are needed fails, nor does the commit behind them. */
  ghost predicate GoesThrough(list: seq<Entry>, fails: nat -> bool) {
    GoesThroughTo(list, fails, |list|) && !fails(|list|)
  }

  ghost predicate GoesThroughTo(list: seq<Entry>, fails: nat -> bool, n: nat) {
    forall i :: 0 <= i < n && i < |list| && !InPlace(list[i].row.index, i) ==> !fails(i)
  }

  lemma FailsAt(list: seq<Entry>, fails: nat -> bool, i: nat)
    requires i < |list| && !InPlace(list[i].row.index, i) && fails(i)
    ensures !GoesThrough(list, fails)
  {
  }

  /** What the anomaly query selects: several entries, one without an index or two with the same. */
  ghost predicate Anomalous(t: Table, series: string) {
    && (exists k, l :: k in t && l in t && k != l && k.series == l.series == series)
    && (|| (exists k :: k in t && k.series == series && t[k].index == None)
        || (exists k, l :: k in t && l in t && k != l && k.series == l.series == series && t[k].index == t[l].index))
  }

  class Repository {
    var entries: Table

    // the rows of the query, in its order
    method Query(series: string) returns (list: seq<Entry>)
      ensures IsListing(entries, series, list)
    {
      BeforeIsStrict();
      var rest, t := entries.Keys, entries;
      list := [];
      while rest != {}
        invariant rest <= t.Keys
        invariant Ascending(list, Before)
        invariant forall e :: e in list <==> Key(series, e.work) in t.Keys - rest && t[Key(series, e.work)] == e.row
        modifies {}
        decreases |rest|
      {
        hide *;
        var k := Pick(rest);
        rest := rest - {k};
        if k.series == series {
          ghost var before := list;
          list := InsertEntry(Entry(k.work, t[k]), list);
          assert forall e :: e in list <==> e == Entry(k.work, t[k]) || e in before;
        }
      }
    }

    /**
      One transaction: the updates go to a copy that is committed at the end, and a failing statement rolls
      all of them back. `fails` says which statements and, as the last, whether the commit fails.
    */
    method RepairSeriesOrder(series: string, fails: nat -> bool) returns (r: Result<nat, ()>)
      modifies this
      ensures r.Err? ==> entries == old(entries)
      ensures r.Ok? ==>
                exists list :: IsListing(old(entries), series, list) && Renumbered(old(entries), series, list, entries)
      ensures r.Ok? ==> entries.Keys == old(entries).Keys && r.value == |Changed(old(entries), entries)|
      ensures exists list :: IsListing(old(entries), series, list) && (r.Ok? <==> GoesThrough(list, fails))
    {
      hide IsListing, Abs, Partly;
      var list := Query(series);
      var t, updates := entries, 0;
      ListingFacts(entries, series, list);
      NoneYet(entries, series, list);
      for i := 0 to |list|
        modifies {}
        invariant t.Keys == entries.Keys && Partly(entries, series, list, i, t)
        invariant updates == |Changed(entries, t)|
        invariant GoesThroughTo(list, fails, i)
      {
        hide Changed, Fixed, Renumbered, GoesThrough;
        var e, target := list[i], (i + 1) as real;
        OneMore(entries, series, list, i, t);
        FixedRow(e, i);
        assert t[Key(series, e.work) := e.row] == t;
        if e.row.index.Some? && Abs(e.row.index.value - target) < TOLERANCE {
          continue;
        }
        if fails(i) {
          FailsAt(list, fails, i);
          return Err(());
        }
        var key := Key(series, e.work);
        ChangeOne(entries, t, key, Some(target));
        t := t[key := t[key].(index := Some(target))];
        updates := updates + 1;
      }
      if fails(|list|) {
        return Err(());
      }
      AllDone(entries, series, list, t);
      entries := t;
      r := Ok(updates);
    }
  }

  /** The first `n` listed entries are renumbered, the others untouched. */
  ghost predicate Partly(before: Table, series: string, list: seq<Entry>, n: nat, t: Table)
    requires n <= |list| && t.Keys == before.Keys
  {
    && (forall i :: 0 <= i < n ==>
          Key(series, list[i].work) in t && t[Key(series, list[i].work)] == Fixed(list[i], i).row)
    && (forall i :: n <= i < |list| ==> Key(series, list[i].work) in t && t[Key(series, list[i].work)] == list[i].row)
    && (forall k :: k in t && k.series != series ==> t[k] == before[k])
  }

  lemma NoneYet(before: Table, series: string, list: seq<Entry>)
    requires IsListing(before, series, list)
    ensures Partly(before, series, list, 0, before) && Changed(before, before) == {}
  {
    ListingFacts(before, series, list);
  }

  lemma OneMore(before: Table, series: string, list: seq<Entry>, i: nat, t: Table)
    requires IsListing(before, series, list) && i < |list| && t.Keys == before.Keys
             && Partly(before, series, list, i, t)
    ensures Key(series, list[i].work) in t
            && before[Key(series, list[i].work)] == t[Key(series, list[i].work)] == list[i].row
    ensures Partly(before, series, list, i + 1, t[Key(series, list[i].work) := Fixed(list[i], i).row])
  {
    ListingFacts(before, series, list);
    hide IsListing, Fixed;
  }

  lemma FixedRow(e: Entry, i: nat)
    ensures InPlace(e.row.index, i) ==> Fixed(e, i).row == e.row
    ensures !InPlace(e.row.index, i) ==>
              Fixed(e, i).row == e.row.(index := Some((i + 1) as real)) && e.row.index != Some((i + 1) as real)
  {
  }

  lemma AllDone(before: Table, series: string, list: seq<Entry>, t: Table)
    requires t.Keys == before.Keys && Partly(before, series, list, |list|, t)
    ensures Renumbered(before, series, list, t)
  {
  }

  lemma ChangeOne(t: Table, was: Table, key: Key, index: Option<real>)
    requires was.Keys == t.Keys && key in t && was[key] == t[key] && t[key].index != index
    ensures |Changed(t, was[key := was[key].(index := index)])| == |Changed(t, was)| + 1
  {
    assert Changed(t, was[key := was[key].(index := index)]) == Changed(t, was) + {key};
  }

  method InsertEntry(x: Entry, list: seq<Entry>) returns (r: seq<Entry>)
    requires Ascending(list, Before) && forall e :: e in list ==> e.work != x.work
    ensures Ascending(r, Before) && forall e :: e in r <==> e == x || e in list
  {
    r := Insert(x, list, Before);
    BeforeIsStrict();
    InsertAscends(x, list, Before);
    InsertAdds(x, list, Before);
    assert forall e :: e in r <==> e in multiset(r);
  }

  lemma ListingFacts(t: Table, series: string, list: seq<Entry>)
    requires IsListing(t, series, list)
    ensures forall i :: 0 <= i < |list| ==>
              Key(series, list[i].work) in t && t[Key(series, list[i].work)] == list[i].row
    ensures forall i, k :: 0 <= i < k < |list| ==> list[i].work != list[k].work
    ensures forall k :: k in t && k.series == series ==> exists i :: 0 <= i < |list| && list[i].work == k.work
  {
    hide Before, StringLess;
    BeforeIsStrict();
    assert forall i :: 0 <= i < |list| ==> list[i] in list;
    forall k | k in t && k.series == series
      ensures exists i :: 0 <= i < |list| && list[i].work == k.work
    {
      assert Entry(k.work, t[k]) in list;
    }
  }

  // ---- what a repair achieves

  /** The list after the repair: the same works in the same order. */
  function AllFixed(list: seq<Entry>): (r: seq<Entry>)
    ensures |r| == |list| && forall i :: 0 <= i < |list| ==> r[i] == Fixed(list[i], i)
  {
    seq(|list|, i requires 0 <= i < |list| => Fixed(list[i], i))
  }

  lemma FixedIsInPlace(e: Entry, position: nat)
    ensures InPlace(Fixed(e, position).row.index, position) && Fixed(e, position).work == e.work
    ensures Fixed(Fixed(e, position), position) == Fixed(e, position)
  {
  }

  // positions are further apart than the tolerance
  lemma InPlaceAscends(x: Option<real>, i: nat, y: Option<real>, k: nat)
    requires InPlace(x, i) && InPlace(y, k) && i < k
    ensures x.value < y.value
  {
  }

  /** A repair keeps the order of the works: querying again lists them exactly as before. */
  lemma RepairKeepsOrder(t: Table, series: string, list: seq<Entry>, after: Table)
    requires IsListing(t, series, list) && Renumbered(t, series, list, after)
    ensures IsListing(after, series, AllFixed(list))
  {
    var l := AllFixed(list);
    ListingFacts(t, series, list);
    hide StringLess, InPlace, IsListing;
    forall i, k | 0 <= i < k < |l|
      ensures Before(l[i], l[k])
    {
      FixedIsInPlace(list[i], i);
      FixedIsInPlace(list[k], k);
      InPlaceAscends(l[i].row.index, i, l[k].row.index, k);
      InPlaceIsSome(l[i].row.index, i);
      InPlaceIsSome(l[k].row.index, k);
    }
    ListedAgain(t, series, list, after);
    MakeListing(after, series, l);
  }

  lemma InPlaceIsSome(x: Option<real>, i: nat)
    requires InPlace(x, i)
    ensures x.Some?
  {
  }

  lemma MakeListing(t: Table, series: string, list: seq<Entry>)
    requires Ascending(list, Before)
    requires forall e :: e in list <==> Key(series, e.work) in t && t[Key(series, e.work)] == e.row
    ensures IsListing(t, series, list)
  {
  }

  lemma ListedAgain(t: Table, series: string, list: seq<Entry>, after: Table)
    requires IsListing(t, series, list) && Renumbered(t, series, list, after)
    ensures forall e :: e in AllFixed(list) <==> Key(series, e.work) in after && after[Key(series, e.work)] == e.row
  {
    hide Before, InPlace, IsListing;
    ListingFacts(t, series, list);
    var l := AllFixed(list);
    forall e
      ensures e in l <==> Key(series, e.work) in after && after[Key(series, e.work)] == e.row
    {
      if Key(series, e.work) in after && after[Key(series, e.work)] == e.row {
        var i :| 0 <= i < |list| && list[i].work == e.work;
        assert l[i] == e;
      }
    }
  }

  /** The indices are within the tolerance of 1, 2, ... in the order the entries already had. */
  lemma RepairNumbersInOrder(t: Table, series: string, list: seq<Entry>, after: Table, i: nat)
    requires IsListing(t, series, list) && Renumbered(t, series, list, after) && i < |list|
    ensures var index := after[Key(series, list[i].work)].index;
            index.Some? && (i + 1) as real - 0.0001 < index.value < (i + 1) as real + 0.0001
    ensures after[Key(series, list[i].work)].index == t[Key(series, list[i].work)].index
            || after[Key(series, list[i].work)].index == Some((i + 1) as real)
  {
    ListingFacts(t, series, list);
    hide IsListing;
    FixedIsInPlace(list[i], i);
  }

  /** The repaired series is no anomaly any more, and every other series is one exactly if it was before. */
  lemma RepairEndsAnomaly(t: Table, series: string, list: seq<Entry>, after: Table)
    requires IsListing(t, series, list) && Renumbered(t, series, list, after)
    ensures !Anomalous(after, series)
    ensures forall other :: other != series ==> (Anomalous(after, other) <==> Anomalous(t, other))
  {
    ListingFacts(t, series, list);
    hide IsListing, InPlace;
    forall k, l | k in after && l in after && k != l && k.series == l.series == series
      ensures after[k].index.Some? && after[k].index != after[l].index
    {
      var i :| 0 <= i < |list| && list[i].work == k.work;
      var j :| 0 <= j < |list| && list[j].work == l.work;
      FixedIsInPlace(list[i], i);
      FixedIsInPlace(list[j], j);
      InPlaceIsSome(after[k].index, i);
      InPlaceIsSome(after[l].index, j);
      if i < j {
        InPlaceAscends(after[k].index, i, after[l].index, j);
      } else {
        InPlaceAscends(after[l].index, j, after[k].index, i);
      }
    }
    forall k | k in after && k.series == series
      ensures after[k].index.Some?
    {
      var i :| 0 <= i < |list| && list[i].work == k.work;
      FixedIsInPlace(list[i], i);
      InPlaceIsSome(after[k].index, i);
    }
  }

  lemma ListingIsUnique(t: Table, series: string, a: seq<Entry>, b: seq<Entry>)
    requires IsListing(t, series, a) && IsListing(t, series, b)
    ensures a == b
  {
    BeforeIsStrict();
    hide Before;
    AscendingIsDetermined(a, b, Before);
  }

  /** Repairing twice is repairing once: the second repair changes no row. */
  lemma RepairIsIdempotent(t: Table, series: string, list: seq<Entry>, after: Table, again: seq<Entry>, last: Table)
    requires IsListing(t, series, list) && Renumbered(t, series, list, after)
    requires IsListing(after, series, again) && Renumbered(after, series, again, last)
    ensures last == after && Changed(after, last) == {}
  {
    hide Before, InPlace, IsListing;
    RepairKeepsOrder(t, series, list, after);
    ListingIsUnique(after, series, again, AllFixed(list));
    ListingFacts(after, series, again);
    forall k | k in after
      ensures last[k] == after[k]
    {
      if k.series == series {
        var i :| 0 <= i < |again| && again[i].work == k.work;
        FixedIsInPlace(list[i], i);
      }
    }
  }

  /** A repair changes nothing exactly when the entries were in place; an anomalous series always changes. */
  lemma NothingToRepair(t: Table, series: string, list: seq<Entry>, after: Table)
    requires IsListing(t, series, list) && Renumbered(t, series, list, after)
    ensures Changed(t, after) == {} <==> forall i :: 0 <= i < |list| ==> InPlace(list[i].row.index, i)
    ensures Anomalous(t, series) ==> Changed(t, after) != {}
  {
    ListingFacts(t, series, list);
    hide IsListing, InPlace, Anomalous;
    RepairEndsAnomaly(t, series, list, after);
    forall i | 0 <= i < |list|
      ensures Key(series, list[i].work) in Changed(t, after) <==> !InPlace(list[i].row.index, i)
    {
      FixedIsInPlace(list[i], i);
    }
    assert forall k :: k in t ==> (k !in Changed(t, after) <==> after[k] == t[k]);
    if Changed(t, after) == {} {
      assert after == t;
    }
  }
}
