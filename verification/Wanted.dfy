/** The wanted lists and the tick that enqueues searches for what is due. Times are nanoseconds. */
module Wanted {
  import opened Wrappers
  import opened Text
  import opened Sorting

  type Time = int

  const MINUTE: int := 60_000_000_000

  /** A wanted work or author. */
  datatype Item = Item(id: string, enabled: bool, priority: int, cadenceMinutes: int, lastEnqueuedAt: Option<Time>)

  type Items = map<string, Item>

  datatype State = State(works: Items, authors: Items)

  datatype Target = Work(id: string) | Author(id: string)

  datatype Error = NotFound

  function Cadence(i: Item): int {
    i.cadenceMinutes * MINUTE
  }

  predicate Due(i: Item, now: Time) {
    i.enabled && (i.lastEnqueuedAt.None? || i.lastEnqueuedAt.value + Cadence(i) <= now)
  }

  predicate ByPriority(a: Item, b: Item) {
    if a.priority == b.priority then StringLess(a.id, b.id) else a.priority < b.priority
  }

  lemma ByPriorityIsStrict()
    ensures StrictOrder(ByPriority) && forall a: Item, b: Item :: a.id == b.id || ByPriority(a, b) || ByPriority(b, a)
  {
    hide StringLess;
    StringLessIsStrict();
  }

  ghost predicate Keyed(items: Items) {
    forall id :: id in items ==> items[id].id == id && items[id].cadenceMinutes >= 1
  }

  /** Exactly the due items, by priority and ID. */
  ghost predicate IsDueList(items: Items, now: Time, list: seq<Item>) {
    && Ascending(list, ByPriority)
    && forall i :: i in list <==> i.id in items && items[i.id] == i && Due(i, now)
  }

  /** What comes earlier in a due list: the smaller priority number, then the smaller ID. */
  lemma DueListMeans(items: Items, now: Time, list: seq<Item>, i: nat, k: nat)
    requires IsDueList(items, now, list) && i < k < |list|
    ensures list[i].priority <= list[k].priority
    ensures list[i].priority == list[k].priority ==> StringLess(list[i].id, list[k].id)
  {
    hide StringLess;
    assert ByPriority(list[i], list[k]);
  }

  /** What storing a record makes of it. */
  function Stored(items: Items, rec: Item): Item {
    rec.(lastEnqueuedAt := if rec.id in items then items[rec.id].lastEnqueuedAt else rec.lastEnqueuedAt,
         cadenceMinutes := if rec.cadenceMinutes <= 0 then 60 else rec.cadenceMinutes)
  }

  function MarkAll(items: Items, ids: seq<string>, now: Time): Items {
    map id | id in items :: if id in ids then items[id].(lastEnqueuedAt := Some(now)) else items[id]
  }

  function Ids(list: seq<Item>): (r: seq<string>)
    ensures |r| == |list| && forall i :: 0 <= i < |r| ==> r[i] == list[i].id
  {
    seq(|list|, i requires 0 <= i < |list| => list[i].id)
  }

  function First<T>(s: seq<T>, n: int): seq<T> {
    if n <= 0 then [] else if n < |s| then s[..n] else s
  }

  function Budget(maxEnqueuesPerTick: int): int {
    if maxEnqueuesPerTick <= 0 then 5 else maxEnqueuesPerTick
  }

  /** A tick, given the two due lists. */
  function Tick(s: State, works: seq<Item>, authors: seq<Item>, budget: int, now: Time): State {
    State(MarkAll(s.works, Ids(First(works, budget)), now),
          MarkAll(s.authors, Ids(First(authors, budget - |First(works, budget)|)), now))
  }

  /** The targets a tick marks, in order. */
  function Marked(works: seq<Item>, authors: seq<Item>, budget: int): seq<Target> {
    First(Targets(works, authors), budget)
  }

  /** Due works before due authors. */
  function Targets(works: seq<Item>, authors: seq<Item>): (r: seq<Target>)
    ensures |r| == |works| + |authors|
    ensures forall i :: 0 <= i < |works| ==> r[i] == Work(works[i].id)
    ensures forall i :: 0 <= i < |authors| ==> r[|works| + i] == Author(authors[i].id)
  {
    seq(|works|, i requires 0 <= i < |works| => Work(works[i].id))
    + seq(|authors|, i requires 0 <= i < |authors| => Author(authors[i].id))
  }

  class Store {
    var works: Items
    var authors: Items

    function Value(): State
      reads this
    {
      State(works, authors)
    }

    method SetWantedWork(rec: Item) returns (r: Result<Item, Error>)
      modifies this`works
      ensures Blank(rec.id) ==> r == Err(NotFound) && works == old(works)
      ensures !Blank(rec.id) ==>
                r == Ok(Stored(old(works), rec)) && works == old(works)[rec.id := Stored(old(works), rec)]
    {
      if Blank(rec.id) {
        return Err(NotFound);
      }
      var stored := rec;
      if rec.id in works {
        stored := stored.(lastEnqueuedAt := works[rec.id].lastEnqueuedAt);
      }
      if stored.cadenceMinutes <= 0 {
        stored := stored.(cadenceMinutes := 60);
      }
      works := works[rec.id := stored];
      r := Ok(stored);
    }

    method DeleteWantedWork(id: string) returns (r: Result<(), Error>)
      modifies this`works
      ensures works == old(works) - {id} && (r.Ok? <==> id in old(works))
    {
      if id !in works {
        return Err(NotFound);
      }
      works := works - {id};
      r := Ok(());
    }

    method SetWantedAuthor(rec: Item) returns (r: Result<Item, Error>)
      modifies this`authors
      ensures Blank(rec.id) ==> r == Err(NotFound) && authors == old(authors)
      ensures !Blank(rec.id) ==>
                r == Ok(Stored(old(authors), rec)) && authors == old(authors)[rec.id := Stored(old(authors), rec)]
    {
      if Blank(rec.id) {
        return Err(NotFound);
      }
      var stored := rec;
      if rec.id in authors {
        stored := stored.(lastEnqueuedAt := authors[rec.id].lastEnqueuedAt);
      }
      if stored.cadenceMinutes <= 0 {
        stored := stored.(cadenceMinutes := 60);
      }
      authors := authors[rec.id := stored];
      r := Ok(stored);
    }

    method DeleteWantedAuthor(id: string) returns (r: Result<(), Error>)
      modifies this`authors
      ensures authors == old(authors) - {id} && (r.Ok? <==> id in old(authors))
    {
      if id !in authors {
        return Err(NotFound);
      }
      authors := authors - {id};
      r := Ok(());
    }

    method ListDueWantedWorks(now: Time) returns (due: seq<Item>)
      requires Keyed(works)
      ensures IsDueList(works, now, due)
    {
      due := ListDue(works, now);
    }

    method ListDueWantedAuthors(now: Time) returns (due: seq<Item>)
      requires Keyed(authors)
      ensures IsDueList(authors, now, due)
    {
      due := ListDue(authors, now);
    }

    method MarkWantedWorkEnqueued(id: string, now: Time) returns (r: Result<(), Error>)
      modifies this`works
      ensures works == MarkAll(old(works), [id], now) && (r.Ok? <==> id in old(works))
    {
      if id !in works {
        assert works == MarkAll(works, [id], now);
        return Err(NotFound);
      }
      works := works[id := works[id].(lastEnqueuedAt := Some(now))];
      r := Ok(());
    }

    method MarkWantedAuthorEnqueued(id: string, now: Time) returns (r: Result<(), Error>)
      modifies this`authors
      ensures authors == MarkAll(old(authors), [id], now) && (r.Ok? <==> id in old(authors))
    {
      if id !in authors {
        assert authors == MarkAll(authors, [id], now);
        return Err(NotFound);
      }
      authors := authors[id := authors[id].(lastEnqueuedAt := Some(now))];
      r := Ok(());
    }

    /** The scheduler's tick; the targets it enqueues searches for, in order. */
    method EnqueueDueWanted(maxEnqueuesPerTick: int, now: Time) returns (enqueued: seq<Target>)
      requires Keyed(works) && Keyed(authors)
      modifies this
      ensures IsTick(old(Value()), Budget(maxEnqueuesPerTick), now, enqueued, Value())
    {
      hide *;
      var remaining := maxEnqueuesPerTick;
      if remaining <= 0 {
        remaining := 5;
      }
      BudgetIs(maxEnqueuesPerTick);
      ValueIs();
      ghost var budget, before := remaining, State(works, authors);
      var dueWorks := ListDueWantedWorks(now);
      NothingMarked(works, now, dueWorks);
      enqueued := [];
      var i := 0;
      while i < |dueWorks|
        invariant 0 <= i <= |dueWorks| && remaining == budget - i && i <= budget
        invariant enqueued == Targets(dueWorks[..i], [])
        invariant works == MarkAll(before.works, Ids(dueWorks[..i]), now) && authors == before.authors
      {
        if remaining <= 0 {
          break;
        }
        OneMoreWork(before.works, dueWorks, i, now);
        enqueued := enqueued + [Work(dueWorks[i].id)];
        var _ := MarkWantedWorkEnqueued(dueWorks[i].id, now);
        remaining := remaining - 1;
        i := i + 1;
      }
      FirstIs(dueWorks, i, budget);
      var dueAuthors := ListDueWantedAuthors(now);
      NothingMarked(authors, now, dueAuthors);
      ghost var done := First(dueWorks, budget);
      i := 0;
      while i < |dueAuthors|
        invariant 0 <= i <= |dueAuthors| && remaining == budget - |done| - i && i <= budget - |done|
        invariant enqueued == Targets(done, dueAuthors[..i])
        invariant authors == MarkAll(before.authors, Ids(dueAuthors[..i]), now)
        invariant works == MarkAll(before.works, Ids(done), now)
      {
        if remaining <= 0 {
          break;
        }
        OneMoreAuthor(before.authors, done, dueAuthors, i, now);
        enqueued := enqueued + [Author(dueAuthors[i].id)];
        var _ := MarkWantedAuthorEnqueued(dueAuthors[i].id, now);
        remaining := remaining - 1;
        i := i + 1;
      }
      FirstIs(dueAuthors, i, budget - |done|);
      FirstTargets(dueWorks, dueAuthors, budget);
      TickIs(before, dueWorks, dueAuthors, budget, now, enqueued, State(works, authors));
      ValueIs();
    }

    lemma ValueIs()
      ensures Value() == State(works, authors)
    {
    }
  }

  lemma BudgetIs(maxEnqueuesPerTick: int)
    ensures Budget(maxEnqueuesPerTick) == if maxEnqueuesPerTick <= 0 then 5 else maxEnqueuesPerTick
  {
  }

  lemma TickIs(before: State, works: seq<Item>, authors: seq<Item>, budget: int, now: Time, enqueued: seq<Target>,
               after: State)
    requires IsDueList(before.works, now, works) && IsDueList(before.authors, now, authors)
    requires enqueued == First(Targets(works, authors), budget)
    requires after.works == MarkAll(before.works, Ids(First(works, budget)), now)
    requires after.authors == MarkAll(before.authors, Ids(First(authors, budget - |First(works, budget)|)), now)
    ensures IsTick(before, budget, now, enqueued, after)
  {
    hide IsDueList, MarkAll, First, Targets;
    assert enqueued == Marked(works, authors, budget) && after == Tick(before, works, authors, budget, now);
  }

  lemma FirstIs<T>(list: seq<T>, i: nat, budget: int)
    requires i <= |list| && i <= budget && (i == |list| || i == budget)
    ensures First(list, budget) == list[..i]
  {
  }

  lemma OneMoreWork(items: Items, list: seq<Item>, i: nat, now: Time)
    requires i < |list|
    ensures Targets(list[..i], []) + [Work(list[i].id)] == Targets(list[..i + 1], [])
    ensures MarkAll(MarkAll(items, Ids(list[..i]), now), [list[i].id], now) == MarkAll(items, Ids(list[..i + 1]), now)
  {
    MarkOneMore(items, list, i, now);
    hide MarkAll;
    assert |Targets(list[..i + 1], [])| == i + 1;
    assert list[..i + 1] == list[..i] + [list[i]];
    assert forall k :: 0 <= k < i ==> Targets(list[..i + 1], [])[k] == Work(list[k].id) == Targets(list[..i], [])[k];
  }

  lemma OneMoreAuthor(items: Items, works: seq<Item>, list: seq<Item>, i: nat, now: Time)
    requires i < |list|
    ensures Targets(works, list[..i]) + [Author(list[i].id)] == Targets(works, list[..i + 1])
    ensures MarkAll(MarkAll(items, Ids(list[..i]), now), [list[i].id], now) == MarkAll(items, Ids(list[..i + 1]), now)
  {
    MarkOneMore(items, list, i, now);
    hide MarkAll;
    assert list[..i + 1] == list[..i] + [list[i]];
  }

  lemma NothingMarked(items: Items, now: Time, list: seq<Item>)
    ensures MarkAll(items, Ids(list[..0]), now) == items
    ensures Targets(list[..0], []) == [] && forall works :: Targets(works, list[..0]) == Targets(works, [])
  {
  }

  lemma MarkOneMore(items: Items, list: seq<Item>, i: nat, now: Time)
    requires i < |list|
    ensures MarkAll(MarkAll(items, Ids(list[..i]), now), [list[i].id], now) == MarkAll(items, Ids(list[..i + 1]), now)
  {
    assert Ids(list[..i + 1]) == Ids(list[..i]) + [list[i].id];
  }

  lemma FirstTargets(works: seq<Item>, authors: seq<Item>, budget: int)
    requires budget >= 0
    ensures First(Targets(works, authors), budget)
            == Targets(First(works, budget), First(authors, budget - |First(works, budget)|))
  {
  }

  method ListDue(items: Items, now: Time) returns (due: seq<Item>)
    requires Keyed(items)
    ensures IsDueList(items, now, due)
  {
    var rest, all := items.Keys, [];
    ByPriorityIsStrict();
    while rest != {}
      invariant rest <= items.Keys
      invariant TotalOn(all, ByPriority)
      invariant forall i :: i in all <==> i.id in items.Keys - rest && items[i.id] == i && Due(i, now)
      decreases |rest|
    {
      hide StrictOrder, ByPriority, Due;
      var id := Pick(rest);
      rest := rest - {id};
      if !items[id].enabled {
        DisabledIsNotDue(items[id], now);
        continue;
      }
      if items[id].lastEnqueuedAt.None? || items[id].lastEnqueuedAt.value + Cadence(items[id]) < now
         || items[id].lastEnqueuedAt.value + Cadence(items[id]) == now {
        DueMeans(items[id], now);
        all := all + [items[id]];
      } else {
        DueMeans(items[id], now);
      }
    }
    hide ByPriority, Due, StrictOrder;
    due := Sort(all, ByPriority);
    SortAscends(all, ByPriority);
    SortPermutes(all, ByPriority);
  }

  lemma DisabledIsNotDue(i: Item, now: Time)
    ensures !i.enabled ==> !Due(i, now)
  {
  }

  lemma DueMeans(i: Item, now: Time)
    ensures Due(i, now) <==> i.enabled && (i.lastEnqueuedAt.None? || i.lastEnqueuedAt.value + Cadence(i) <= now)
  {
  }

  /**
    A tick marks the first of the due works and then of the due authors, as far as the budget goes, and nothing
    else.
  */
  ghost predicate IsTick(before: State, budget: int, now: Time, enqueued: seq<Target>, after: State) {
    exists works, authors :: IsDueList(before.works, now, works) && IsDueList(before.authors, now, authors)
      && enqueued == Marked(works, authors, budget) && after == Tick(before, works, authors, budget, now)
  }

  // ---- one tick

  lemma DueListIsUnique(items: Items, now: Time, a: seq<Item>, b: seq<Item>)
    requires IsDueList(items, now, a) && IsDueList(items, now, b)
    ensures a == b
  {
    ByPriorityIsStrict();
    hide ByPriority;
    AscendingIsDetermined(a, b, ByPriority);
  }

  /** A tick has one outcome, whatever order the maps are iterated in. */
  lemma TickIsDetermined(before: State, budget: int, now: Time, x: seq<Target>, y: seq<Target>, a: State, b: State)
    requires IsTick(before, budget, now, x, a) && IsTick(before, budget, now, y, b)
    ensures x == y && a == b
  {
    hide IsDueList;
    var w, u :| IsDueList(before.works, now, w) && IsDueList(before.authors, now, u)
      && x == Marked(w, u, budget) && a == Tick(before, w, u, budget, now);
    var v, z :| IsDueList(before.works, now, v) && IsDueList(before.authors, now, z)
      && y == Marked(v, z, budget) && b == Tick(before, v, z, budget, now);
    DueListIsUnique(before.works, now, w, v);
    DueListIsUnique(before.authors, now, u, z);
  }

  // a marked item is due no more, an unmarked one as before
  lemma MarkingSettles(items: Items, list: seq<Item>, n: nat, now: Time)
    requires Keyed(items) && IsDueList(items, now, list) && n <= |list|
    ensures IsDueList(MarkAll(items, Ids(list[..n]), now), now, list[n..])
  {
    var ids := Ids(list[..n]);
    var after := MarkAll(items, ids, now);
    hide ByPriority, MarkAll, Due;
    assert Ascending(list[n..], ByPriority);
    forall i: Item
      ensures i in list[n..] <==> i.id in after && after[i.id] == i && Due(i, now)
    {
      MarkedItem(items, ids, now, i.id);
      Split(items, list, n, now, i);
      if i.id in items && i.id !in ids {
        assert after[i.id] == items[i.id];
      }
    }
  }

  // a due item is in one part of the list, the one its ID is in
  lemma Split(items: Items, list: seq<Item>, n: nat, now: Time, i: Item)
    requires Keyed(items) && IsDueList(items, now, list) && n <= |list|
    ensures i in list[n..] <==> i in list && i.id !in Ids(list[..n])
  {
    ByPriorityIsStrict();
    hide ByPriority, Due;
    assert forall k :: n <= k < |list| ==> list[n..][k - n] == list[k];
    if i in list[n..] {
      var k :| n <= k < |list| && list[k] == i;
      forall j | 0 <= j < n
        ensures list[j].id != i.id
      {
        assert list[j] in list && list[k] in list;
        assert ByPriority(list[j], list[k]);
      }
    } else if i in list {
      var k :| 0 <= k < |list| && list[k] == i;
      assert Ids(list[..n])[k] == i.id;
    }
  }

  lemma MarkedItem(items: Items, ids: seq<string>, now: Time, id: string)
    ensures id in MarkAll(items, ids, now) <==> id in items
    ensures id in items ==>
      MarkAll(items, ids, now)[id] == if id in ids then items[id].(lastEnqueuedAt := Some(now)) else items[id]
    ensures id in items && id in ids && items[id].cadenceMinutes >= 1 ==> !Due(MarkAll(items, ids, now)[id], now)
  {
  }

  lemma SplitTargets(works: seq<Item>, authors: seq<Item>, n: nat, m: nat)
    requires n <= |works| && m <= |authors| && (n == |works| || m == 0)
    ensures Targets(works[..n], authors[..m]) + Targets(works[n..], authors[m..]) == Targets(works, authors)
  {
    if n == |works| {
      assert works[..n] == works;
      assert works[n..] == [];
    }
  }

  lemma FirstFacts(list: seq<Item>, n: int)
    requires n >= 0
    ensures var m := |First(list, n)|;
            m <= |list| && m <= n && First(list, n) == list[..m] && (m == |list| || m == n)
  {
  }

  /** After a tick exactly the due items beyond the budget are still due; with budget enough, none. */
  lemma TickDrains(before: State, budget: int, now: Time, enqueued: seq<Target>, after: State, works: seq<Item>,
                   authors: seq<Item>)
    requires Keyed(before.works) && Keyed(before.authors) && budget >= 0
    requires IsTick(before, budget, now, enqueued, after)
    requires IsDueList(after.works, now, works) && IsDueList(after.authors, now, authors)
    ensures exists w, u :: IsDueList(before.works, now, w) && IsDueList(before.authors, now, u)
                           && enqueued + Targets(works, authors) == Targets(w, u)
                              && |enqueued| == |First(Targets(w, u), budget)|
  {
    hide IsDueList, Keyed, MarkAll, Targets, Ids, First;
    var w, u :| IsDueList(before.works, now, w) && IsDueList(before.authors, now, u)
      && enqueued == Marked(w, u, budget) && after == Tick(before, w, u, budget, now);
    var n := |First(w, budget)|;
    var m := |First(u, budget - n)|;
    FirstFacts(w, budget);
    FirstFacts(u, budget - n);
    MarkingSettles(before.works, w, n, now);
    MarkingSettles(before.authors, u, m, now);
    DueListIsUnique(after.works, now, works, w[n..]);
    DueListIsUnique(after.authors, now, authors, u[m..]);
    FirstTargets(w, u, budget);
    SplitTargets(w, u, n, m);
  }
}
