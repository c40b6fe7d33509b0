/** Runs of the wanted scheduler: how far apart two searches for one wanted item are. */
module WantedRuns {
  import opened Wrappers
  import opened Text
  import opened Wanted

  /** The scheduler's ticks, interleaved with edits of the wanted lists. */
  datatype Op =
    | TickAt(maxEnqueues: int, now: Time)
    | SetWork(rec: Item)
    | DeleteWork(id: string)
    | SetAuthor(rec: Item)
    | DeleteAuthor(id: string)

  function Set(items: Items, rec: Item): Items {
    if Blank(rec.id) then items else items[rec.id := Stored(items, rec)]
  }

  /** One step and the targets it enqueues. */
  ghost predicate Step(s: State, op: Op, enqueued: seq<Target>, s': State) {
    match op
    case TickAt(max, now) => IsTick(s, Budget(max), now, enqueued, s')
    case SetWork(rec) => enqueued == [] && s' == s.(works := Set(s.works, rec))
    case DeleteWork(id) => enqueued == [] && s' == s.(works := s.works - {id})
    case SetAuthor(rec) => enqueued == [] && s' == s.(authors := Set(s.authors, rec))
    case DeleteAuthor(id) => enqueued == [] && s' == s.(authors := s.authors - {id})
  }

  datatype Run = Run(states: seq<State>, ops: seq<Op>, enqueued: seq<seq<Target>>)

  ghost predicate IsRun(r: Run) {
    && |r.states| == |r.ops| + 1 && |r.enqueued| == |r.ops|
    && Keyed(r.states[0].works) && Keyed(r.states[0].authors)
    && forall i :: 0 <= i < |r.ops| ==> Step(r.states[i], r.ops[i], r.enqueued[i], r.states[i + 1])
  }

  function ItemOf(s: State, t: Target): Option<Item> {
    var items := if t.Work? then s.works else s.authors;
    if t.id in items then Some(items[t.id]) else None
  }

  /** The step neither deletes the item nor gives it another cadence. */
  predicate KeepsCadence(s: State, op: Op, t: Target) {
    match op
    case TickAt(_, _) => true
    case DeleteWork(id) => t != Work(id)
    case DeleteAuthor(id) => t != Author(id)
    case SetWork(rec) => t == Work(rec.id) ==>
      rec.id !in s.works || Stored(s.works, rec).cadenceMinutes == s.works[rec.id].cadenceMinutes
    case SetAuthor(rec) => t == Author(rec.id) ==>
      rec.id !in s.authors || Stored(s.authors, rec).cadenceMinutes == s.authors[rec.id].cadenceMinutes
  }

  // ---- one step

  /** A tick marks an item only if it is due, and leaves the others alone. */
  lemma TickMarks(s: State, budget: int, now: Time, enqueued: seq<Target>, s': State, t: Target)
    requires IsTick(s, budget, now, enqueued, s')
    ensures ItemOf(s', t).Some? <==> ItemOf(s, t).Some?
    ensures ItemOf(s, t).Some? && t !in enqueued ==> ItemOf(s', t) == ItemOf(s, t)
    ensures t in enqueued ==> ItemOf(s, t).Some? && Due(ItemOf(s, t).value, now)
                              && ItemOf(s', t) == Some(ItemOf(s, t).value.(lastEnqueuedAt := Some(now)))
  {
    hide IsDueList, MarkAll, Due, First, Marked, Targets, Ids;
    var works, authors :| IsDueList(s.works, now, works) && IsDueList(s.authors, now, authors)
      && enqueued == Marked(works, authors, budget) && s' == Tick(s, works, authors, budget, now);
    var w := First(works, budget);
    var u := First(authors, budget - |w|);
    MarkedTargets(works, authors, budget);
    FirstIsPrefix(works, budget);
    FirstIsPrefix(authors, budget - |w|);
    if t.Work? {
      MarkedItem(s.works, Ids(w), now, t.id);
      ListedIsDue(s.works, now, works, w, t.id);
      InTargets(w, u, t);
    } else {
      MarkedItem(s.authors, Ids(u), now, t.id);
      ListedIsDue(s.authors, now, authors, u, t.id);
      InTargets(w, u, t);
    }
  }

  lemma MarkedTargets(works: seq<Item>, authors: seq<Item>, budget: int)
    ensures Marked(works, authors, budget) == Targets(First(works, budget),
                                                      First(authors, budget - |First(works, budget)|))
  {
    if budget >= 0 {
      FirstTargets(works, authors, budget);
    }
  }

  lemma FirstIsPrefix(s: seq<Item>, n: int)
    ensures First(s, n) <= s
  {
  }

  lemma InTargets(w: seq<Item>, u: seq<Item>, t: Target)
    ensures t in Targets(w, u) <==> t.id in Ids(if t.Work? then w else u)
  {
    hide Targets, Ids;
    if t in Targets(w, u) {
      TargetIsListed(w, u, t);
    }
    if t.id in Ids(if t.Work? then w else u) {
      ListedIsTarget(w, u, t);
    }
  }

  lemma TargetIsListed(w: seq<Item>, u: seq<Item>, t: Target)
    requires t in Targets(w, u)
    ensures t.id in Ids(if t.Work? then w else u)
  {
    hide *;
    var r := Targets(w, u);
    var i :| 0 <= i < |r| && r[i] == t;
    if i < |w| {
      assert t == Work(w[i].id) && Ids(w)[i] == t.id;
    } else {
      assert r[|w| + (i - |w|)] == t;
      assert t == Author(u[i - |w|].id) && Ids(u)[i - |w|] == t.id;
    }
  }

  lemma ListedIsTarget(w: seq<Item>, u: seq<Item>, t: Target)
    requires t.id in Ids(if t.Work? then w else u)
    ensures t in Targets(w, u)
  {
    hide *;
    var list, r := if t.Work? then w else u, Targets(w, u);
    var i :| 0 <= i < |list| && Ids(list)[i] == t.id;
    assert r[if t.Work? then i else |w| + i] == t;
  }

  lemma ListedIsDue(items: Items, now: Time, list: seq<Item>, first: seq<Item>, id: string)
    requires IsDueList(items, now, list) && first <= list
    ensures id in Ids(first) ==> id in items && Due(items[id], now)
  {
    if id in Ids(first) {
      var i :| 0 <= i < |first| && Ids(first)[i] == id;
      assert list[i] in list;
    }
  }

  /** The item has the cadence and was last enqueued at `since` or later. */
  ghost predicate Rests(s: State, t: Target, cadence: int, since: Time) {
    && ItemOf(s, t).Some? && ItemOf(s, t).value.cadenceMinutes == cadence
    && ItemOf(s, t).value.lastEnqueuedAt.Some? && ItemOf(s, t).value.lastEnqueuedAt.value >= since
  }

  lemma StepKeepsRest(s: State, op: Op, enqueued: seq<Target>, s': State, t: Target, cadence: int, since: Time)
    requires Step(s, op, enqueued, s') && KeepsCadence(s, op, t) && Rests(s, t, cadence, since) && cadence >= 0
    ensures Rests(s', t, cadence, since)
    ensures t in enqueued ==> op.TickAt? && op.now >= since + cadence * MINUTE
  {
    hide IsTick, Blank;
    if op.TickAt? {
      TickMarks(s, Budget(op.maxEnqueues), op.now, enqueued, s', t);
    }
  }

  lemma StepKeepsKeys(s: State, op: Op, enqueued: seq<Target>, s': State)
    requires Step(s, op, enqueued, s') && Keyed(s.works) && Keyed(s.authors)
    ensures Keyed(s'.works) && Keyed(s'.authors)
  {
    if op.TickAt? {
      hide IsDueList, Due;
      var works, authors :| IsDueList(s.works, op.now, works) && IsDueList(s.authors, op.now, authors)
        && enqueued == Marked(works, authors, Budget(op.maxEnqueues))
           && s' == Tick(s, works, authors, Budget(op.maxEnqueues), op.now);
    }
  }

  // ---- whole runs

  lemma {:induction false} RunIsKeyed(r: Run, n: nat)
    requires IsRun(r) && n <= |r.ops|
    ensures Keyed(r.states[n].works) && Keyed(r.states[n].authors)
  {
    if n > 0 {
      hide Keyed, Step;
      RunIsKeyed(r, n - 1);
      StepKeepsKeys(r.states[n - 1], r.ops[n - 1], r.enqueued[n - 1], r.states[n]);
    }
  }

  lemma {:induction false} RestsUntil(r: Run, i: nat, j: nat, t: Target, cadence: int, since: Time)
    requires IsRun(r) && i <= j <= |r.ops| && cadence >= 0 && Rests(r.states[i], t, cadence, since)
    requires forall k :: i <= k < j ==> KeepsCadence(r.states[k], r.ops[k], t)
    ensures Rests(r.states[j], t, cadence, since)
  {
    hide Step, Rests, KeepsCadence;
    if i < j {
      RestsUntil(r, i, j - 1, t, cadence, since);
      StepKeepsRest(r.states[j - 1], r.ops[j - 1], r.enqueued[j - 1], r.states[j], t, cadence, since);
    }
  }

  /**
    Two searches for one wanted item, with no deletion or change of cadence between them, are at least its
    cadence apart, whatever the clock does.
  */
  lemma SearchesAreSpaced(r: Run, i: nat, j: nat, t: Target)
    requires IsRun(r) && i < j < |r.ops| && t in r.enqueued[i] && t in r.enqueued[j]
    requires forall k :: i < k < j ==> KeepsCadence(r.states[k], r.ops[k], t)
    ensures r.ops[i].TickAt? && r.ops[j].TickAt? && ItemOf(r.states[i], t).Some?
    ensures r.ops[j].now - r.ops[i].now >= Cadence(ItemOf(r.states[i], t).value) >= MINUTE
  {
    hide *;
    RunStep(r, i);
    RunStep(r, j);
    RunIsKeyed(r, i);
    MarkStartsRest(r.states[i], r.ops[i], r.enqueued[i], r.states[i + 1], t);
    MarkStartsRest(r.states[j], r.ops[j], r.enqueued[j], r.states[j + 1], t);
    var cadence := ItemOf(r.states[i], t).value.cadenceMinutes;
    RestsUntil(r, i + 1, j, t, cadence, r.ops[i].now);
    TicksKeepCadence(r.states[j], r.ops[j], t);
    StepKeepsRest(r.states[j], r.ops[j], r.enqueued[j], r.states[j + 1], t, cadence, r.ops[i].now);
    CadenceIs(ItemOf(r.states[i], t).value);
  }

  lemma RunStep(r: Run, i: nat)
    requires IsRun(r) && i < |r.ops|
    ensures |r.states| == |r.ops| + 1 && |r.enqueued| == |r.ops|
    ensures Step(r.states[i], r.ops[i], r.enqueued[i], r.states[i + 1])
  {
  }

  lemma CadenceIs(item: Item)
    ensures Cadence(item) == item.cadenceMinutes * MINUTE
    ensures item.cadenceMinutes >= 1 ==> Cadence(item) >= MINUTE
  {
  }

  lemma TicksKeepCadence(s: State, op: Op, t: Target)
    requires op.TickAt?
    ensures KeepsCadence(s, op, t)
  {
  }

  lemma MarkStartsRest(s: State, op: Op, enqueued: seq<Target>, s': State, t: Target)
    requires Step(s, op, enqueued, s') && t in enqueued
    ensures op.TickAt? && ItemOf(s, t).Some?
    ensures Rests(s', t, ItemOf(s, t).value.cadenceMinutes, op.now)
    ensures Keyed(s.works) && Keyed(s.authors) ==> ItemOf(s, t).value.cadenceMinutes >= 1
  {
    hide IsTick;
    assert op.TickAt?;
    TickMarks(s, Budget(op.maxEnqueues), op.now, enqueued, s', t);
  }
}
