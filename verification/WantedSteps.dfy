/**
  The wanted scheduler's tick lock by lock: the due list is taken in one step, every mark is a step of its own,
  and the wanted lists may be edited in between. There is one scheduler.
*/
module WantedSteps {
  import opened Wrappers
  import opened Text
  import opened Sorting
  import opened Wanted
  import opened WantedRuns

  /** Where the scheduler is: between ticks, or with some works or authors of a tick still to mark. */
  datatype Phase = Idle | Works(rest: seq<string>, left: int, now: Time) | Authors(rest: seq<string>, now: Time)

  datatype System = System(store: State, phase: Phase)

  datatype Action =
    | Begin(maxEnqueues: int, now: Time)  // lists the due works
    | MarkWork                            // enqueues a search for the next work and marks it
    | ListAuthors                         // lists the due authors for what is left of the budget
    | MarkAuthor
    | End
    | Edit(op: Op)                        // the API changes a wanted list

  /** The listed items within the budget, by ID. */
  ghost predicate Lists(items: Items, now: Time, budget: int, rest: seq<string>) {
    exists due :: IsDueList(items, now, due) && rest == Ids(First(due, budget))
  }

  /** One step and the search it enqueues. */
  ghost predicate Next(y: System, a: Action, searched: Option<Target>, y': System) {
    match a
    case Begin(max, now) =>
      && y.phase == Idle && searched == None && y'.store == y.store && y'.phase.Works? && y'.phase.now == now
      && Lists(y.store.works, now, Budget(max), y'.phase.rest) && y'.phase.left == Budget(max) - |y'.phase.rest|
    case MarkWork =>
      && y.phase.Works? && y.phase.rest != [] && searched == Some(Work(y.phase.rest[0]))
      && y' == System(y.store.(works := MarkAll(y.store.works, [y.phase.rest[0]], y.phase.now)),
                      Works(y.phase.rest[1..], y.phase.left, y.phase.now))
    case ListAuthors =>
      && y.phase.Works? && y.phase.rest == [] && searched == None && y'.store == y.store && y'.phase.Authors?
      && y'.phase.now == y.phase.now && Lists(y.store.authors, y.phase.now, y.phase.left, y'.phase.rest)
    case MarkAuthor =>
      && y.phase.Authors? && y.phase.rest != [] && searched == Some(Author(y.phase.rest[0]))
      && y' == System(y.store.(authors := MarkAll(y.store.authors, [y.phase.rest[0]], y.phase.now)),
                      Authors(y.phase.rest[1..], y.phase.now))
    case End => y.phase.Authors? && y.phase.rest == [] && searched == None && y' == y.(phase := Idle)
    case Edit(op) => !op.TickAt? && searched == None && Step(y.store, op, [], y'.store) && y'.phase == y.phase
  }

  datatype Trace = Trace(states: seq<System>, actions: seq<Action>, searches: seq<Option<Target>>)

  ghost predicate IsTrace(r: Trace) {
    && |r.states| == |r.actions| + 1 && |r.searches| == |r.actions| && r.states[0].phase == Idle
    && Keyed(r.states[0].store.works) && Keyed(r.states[0].store.authors)
    && forall i :: 0 <= i < |r.actions| ==> Next(r.states[i], r.actions[i], r.searches[i], r.states[i + 1])
  }

  // ---- invariants

  ghost predicate Different(ids: seq<string>) {
    forall i, k :: 0 <= i < k < |ids| ==> ids[i] != ids[k]
  }

  /** The lists are keyed, and no tick lists an item twice. */
  ghost predicate Orderly(y: System) {
    && Keyed(y.store.works) && Keyed(y.store.authors)
    && (!y.phase.Idle? ==> Different(y.phase.rest))
  }

  lemma ListedFacts(items: Items, now: Time, budget: int, rest: seq<string>)
    requires Lists(items, now, budget, rest)
    ensures Different(rest) && forall id :: id in rest ==> id in items && Due(items[id], now)
  {
    hide Due, ByPriority, First;
    var due :| IsDueList(items, now, due) && rest == Ids(First(due, budget));
    FirstIsPrefix(due, budget);
    ByPriorityIsStrict();
    forall i, k | 0 <= i < k < |rest|
      ensures rest[i] != rest[k]
    {
      assert due[i] in due && due[k] in due && ByPriority(due[i], due[k]);
    }
    forall id | id in rest
      ensures id in items && Due(items[id], now)
    {
      ListedIsDue(items, now, due, First(due, budget), id);
    }
  }

  lemma EditKeepsKeys(s: State, op: Op, s': State)
    requires Step(s, op, [], s') && !op.TickAt? && Keyed(s.works) && Keyed(s.authors)
    ensures Keyed(s'.works) && Keyed(s'.authors)
  {
  }

  lemma StepStaysOrderly(y: System, a: Action, searched: Option<Target>, y': System)
    requires Next(y, a, searched, y') && Orderly(y)
    ensures Orderly(y')
  {
    hide Step, Lists, Due;
    match a {
      case Begin(max, now) => ListedFacts(y.store.works, now, Budget(max), y'.phase.rest);
      case ListAuthors => ListedFacts(y.store.authors, y.phase.now, y.phase.left, y'.phase.rest);
      case Edit(op) => EditKeepsKeys(y.store, op, y'.store);
      case _ =>
    }
  }

  lemma {:induction false} TraceIsOrderly(r: Trace, n: nat)
    requires IsTrace(r) && n <= |r.actions|
    ensures Orderly(r.states[n])
  {
    hide Next, Orderly;
    if n > 0 {
      TraceIsOrderly(r, n - 1);
      StepStaysOrderly(r.states[n - 1], r.actions[n - 1], r.searches[n - 1], r.states[n]);
    } else {
      StartsOrderly(r);
    }
  }

  lemma StartsOrderly(r: Trace)
    requires IsTrace(r)
    ensures Orderly(r.states[0])
  {
    hide Next;
  }

  /** The target is on the list the scheduler is working through. */
  predicate Planned(y: System, t: Target) {
    match t
    case Work(id) => y.phase.Works? && id in y.phase.rest
    case Author(id) => y.phase.Authors? && id in y.phase.rest
  }

  /** The item was last enqueued at `since` or later, and is only planned again once its cadence has passed. */
  ghost predicate Waits(y: System, t: Target, cadence: int, since: Time) {
    && Rests(y.store, t, cadence, since)
    && (Planned(y, t) ==> y.phase.now >= since + cadence * MINUTE)
  }

  /** An edit neither deletes the item nor gives it another cadence. */
  predicate Spares(y: System, a: Action, t: Target) {
    a.Edit? ==> KeepsCadence(y.store, a.op, t)
  }

  lemma StepKeepsWait(y: System, a: Action, searched: Option<Target>, y': System, t: Target, cadence: int, since: Time)
    requires Next(y, a, searched, y') && Orderly(y) && Waits(y, t, cadence, since) && Spares(y, a, t) && cadence >= 0
    ensures Waits(y', t, cadence, since)
    ensures searched == Some(t) ==> y.phase.now >= since + cadence * MINUTE
  {
    hide Lists, IsTick, Blank, Different, Keyed;
    match a {
      case Begin(max, now) => ListedFacts(y.store.works, now, Budget(max), y'.phase.rest);
      case ListAuthors => ListedFacts(y.store.authors, y.phase.now, y.phase.left, y'.phase.rest);
      case MarkWork => MarkedItem(y.store.works, [y.phase.rest[0]], y.phase.now, t.id);
      case MarkAuthor => MarkedItem(y.store.authors, [y.phase.rest[0]], y.phase.now, t.id);
      case Edit(op) => StepKeepsRest(y.store, op, [], y'.store, t, cadence, since);
      case End =>
    }
  }

  /** A search marks its item, if the item is still there, and takes it off the list. */
  lemma SearchStartsWait(y: System, a: Action, searched: Option<Target>, y': System, t: Target)
    requires Next(y, a, searched, y') && Orderly(y) && searched == Some(t) && ItemOf(y.store, t).Some?
    ensures !y.phase.Idle? && ItemOf(y.store, t).value.cadenceMinutes >= 1
    ensures Waits(y', t, ItemOf(y.store, t).value.cadenceMinutes, y.phase.now)
  {
    hide Lists, Step, Due;
    assert !y.phase.Idle?;
    assert y'.phase.rest == y.phase.rest[1..] && t.id == y.phase.rest[0];
    assert t.id !in y'.phase.rest;
  }

  lemma {:induction false} WaitsUntil(r: Trace, i: nat, j: nat, t: Target, cadence: int, since: Time)
    requires IsTrace(r) && i <= j <= |r.actions| && cadence >= 0 && Waits(r.states[i], t, cadence, since)
    requires forall k :: i <= k < j ==> Spares(r.states[k], r.actions[k], t)
    ensures Waits(r.states[j], t, cadence, since)
    decreases j
  {
    hide Next, Orderly, Waits, Spares;
    if i < j {
      WaitsUntil(r, i, j - 1, t, cadence, since);
      TraceIsOrderly(r, j - 1);
      StepKeepsWait(r.states[j - 1], r.actions[j - 1], r.searches[j - 1], r.states[j], t, cadence, since);
    }
  }

  /**
    Even with edits between listing and marking: two searches for one item that was there at the first, with no
    deletion or change of cadence between them, belong to ticks at least its cadence apart.
  */
  lemma SearchesStaySpaced(r: Trace, i: nat, j: nat, t: Target)
    requires IsTrace(r) && i < j < |r.actions| && r.searches[i] == Some(t) == r.searches[j]
    requires ItemOf(r.states[i].store, t).Some?
    requires forall k :: i < k < j ==> Spares(r.states[k], r.actions[k], t)
    ensures !r.states[i].phase.Idle? && !r.states[j].phase.Idle?
    ensures r.states[j].phase.now - r.states[i].phase.now >= Cadence(ItemOf(r.states[i].store, t).value) >= MINUTE
  {
    hide Next, Orderly, Waits, Spares;
    TraceIsOrderly(r, i);
    TraceIsOrderly(r, j);
    var item := ItemOf(r.states[i].store, t).value;
    SearchStartsWait(r.states[i], r.actions[i], r.searches[i], r.states[i + 1], t);
    WaitsUntil(r, i + 1, j, t, item.cadenceMinutes, r.states[i].phase.now);
    SearchIsMark(r.states[j], r.actions[j], r.searches[j], r.states[j + 1], t);
    StepKeepsWait(r.states[j], r.actions[j], r.searches[j], r.states[j + 1], t, item.cadenceMinutes,
                  r.states[i].phase.now);
  }

  lemma SearchIsMark(y: System, a: Action, searched: Option<Target>, y': System, t: Target)
    requires Next(y, a, searched, y') && searched == Some(t)
    ensures !y.phase.Idle? && Spares(y, a, t)
  {
  }
}
