/** The API rate limiter: per client and minute a counter, swept when a new minute starts. Times are nanoseconds. */
module FixedWindows {
  import opened Wrappers

  const MINUTE: int := 60_000_000_000

  datatype Counter = Counter(windowStart: int, count: int)

  datatype Limiter = Limiter(perMinute: int, burst: int, counters: map<string, Counter>, lastCleanupWindow: int)

  /** `Truncate(time.Minute)` */
  function Truncate(now: int): int {
    now - now % MINUTE
  }

  function Max(a: int, b: int): int {
    if a > b then a else b
  }

  function Fresh(perMinute: int, burst: int, now: int): Limiter {
    Limiter(if perMinute <= 0 then 120 else perMinute, if burst < 0 then 0 else burst, map[], Truncate(now))
  }

  function Swept(l: Limiter, window: int): Limiter {
    if window <= l.lastCleanupWindow then l
    else l.(counters := map id | id in l.counters && l.counters[id].windowStart >= window :: l.counters[id],
            lastCleanupWindow := window)
  }

  datatype Answer = Answer(allowed: bool, remaining: int)

  /** One call: the limiter after it and the answer. */
  function Next(l: Limiter, client: string, now: int): (Limiter, Answer) {
    var window, allowed := Truncate(now), l.perMinute + l.burst;
    var s := Swept(l, window);
    if client !in s.counters || s.counters[client].windowStart != window then
      (s.(counters := s.counters[client := Counter(window, 1)]), Answer(true, Max(allowed - 1, 0)))
    else
      var c := s.counters[client];
      if c.count >= allowed then (s, Answer(false, 0))
      else (s.(counters := s.counters[client := c.(count := c.count + 1)]),
            Answer(true, Max(allowed - (c.count + 1), 0)))
  }

  class ApiRateLimiter {
    var perMinute: int
    var burst: int
    var counters: map<string, Counter>
    var lastCleanupWindow: int

    function Value(): Limiter
      reads this
    {
      Limiter(perMinute, burst, counters, lastCleanupWindow)
    }

    constructor (perMinute: int, burst: int, now: int)
      ensures Value() == Fresh(perMinute, burst, now)
    {
      this.perMinute := if perMinute <= 0 then 120 else perMinute;
      this.burst := if burst < 0 then 0 else burst;
      counters := map[];
      lastCleanupWindow := Truncate(now);
    }

    method Allow(client: string, now: int) returns (ok: bool, remaining: int)
      modifies this
      ensures Value() == Next(old(Value()), client, now).0
      ensures Answer(ok, remaining) == Next(old(Value()), client, now).1
    {
      hide Truncate;
      var window := Truncate(now);
      if window > lastCleanupWindow {
        Sweep(window);
        lastCleanupWindow := window;
      }
      assert Value() == Swept(old(Value()), window);
      var allowed := perMinute + burst;
      if client !in counters || counters[client].windowStart != window {
        counters := counters[client := Counter(window, 1)];
        return true, Max(allowed - 1, 0);
      }
      var counter := counters[client];
      if counter.count >= allowed {
        return false, 0;
      }
      counter := counter.(count := counter.count + 1);
      counters := counters[client := counter];
      return true, Max(allowed - counter.count, 0);
    }

    // deletes the counters of earlier minutes
    method Sweep(window: int)
      modifies this`counters
      ensures counters == map id | id in old(counters) && old(counters)[id].windowStart >= window :: old(counters)[id]
    {
      var rest := counters.Keys;
      while rest != {}
        invariant rest <= counters.Keys <= old(counters).Keys
        invariant forall id :: id in counters ==> counters[id] == old(counters)[id]
        invariant forall id :: id in old(counters) && id !in rest ==>
          (id in counters <==> old(counters)[id].windowStart >= window)
        decreases |rest|
      {
        var id := Pick(rest);
        rest := rest - {id};
        if counters[id].windowStart < window {
          counters := counters - {id};
        }
      }
    }
  }

  // ---- whole runs

  datatype Call = Call(client: string, at: int)

  /** The limiter and all granted calls, oldest first. */
  function Run(l: Limiter, calls: seq<Call>): (Limiter, seq<Call>) {
    if calls == [] then (l, [])
    else
      var (before, grants) := Run(l, calls[..|calls| - 1]);
      var last := calls[|calls| - 1];
      var (after, answer) := Next(before, last.client, last.at);
      (after, if answer.allowed then grants + [last] else grants)
  }

  ghost predicate Monotone(calls: seq<Call>, from: int) {
    && (forall i :: 0 <= i < |calls| ==> from <= calls[i].at)
    && (forall i, k :: 0 <= i < k < |calls| ==> calls[i].at <= calls[k].at)
  }

  /** The grants of one client in the minute starting at `window`. */
  function Count(grants: seq<Call>, client: string, window: int): nat {
    if grants == [] then 0
    else
      var last := grants[|grants| - 1];
      Count(grants[..|grants| - 1], client, window) + if last.client == client && Truncate(last.at) == window then 1
          else 0
  }

  lemma CountSnoc(grants: seq<Call>, last: Call, client: string, window: int)
    ensures Count(grants + [last], client, window)
            == Count(grants, client, window) + if last.client == client && Truncate(last.at) == window then 1 else 0
  {
    assert (grants + [last])[..|grants|] == grants;
  }

  lemma TruncateIsMonotone(a: int, b: int)
    requires a <= b
    ensures Truncate(a) <= Truncate(b)
  {
    assert a == MINUTE * (a / MINUTE) + a % MINUTE && b == MINUTE * (b / MINUTE) + b % MINUTE;
    assert a / MINUTE <= b / MINUTE;
  }

  /** The counters are exactly the grants of the current minute, nothing lost and nothing stale. */
  ghost predicate Exact(counters: map<string, Counter>, grants: seq<Call>, window: int) {
    && (forall id :: id in counters <==> Count(grants, id, window) > 0)
    && (forall id :: id in counters ==> counters[id] == Counter(window, Count(grants, id, window)))
    && (forall id, w :: w > window ==> Count(grants, id, w) == 0)
  }

  // the sweep empties the table when, and only when, a new minute starts
  lemma SweepIsExact(l: Limiter, grants: seq<Call>, window: int)
    requires Exact(l.counters, grants, l.lastCleanupWindow) && l.lastCleanupWindow <= window
    ensures Exact(Swept(l, window).counters, grants, window) && Swept(l, window).lastCleanupWindow == window
  {
    hide Count;
  }

  lemma StepIsExact(l: Limiter, grants: seq<Call>, call: Call)
    requires Exact(l.counters, grants, l.lastCleanupWindow) && l.lastCleanupWindow <= Truncate(call.at)
    requires l.perMinute + l.burst >= 1
    ensures var (after, answer) := Next(l, call.client, call.at);
            && after.lastCleanupWindow == Truncate(call.at)
            && after.perMinute == l.perMinute && after.burst == l.burst
            && Exact(after.counters, if answer.allowed then grants + [call] else grants, Truncate(call.at))
            && (answer.allowed <==> Count(grants, call.client, Truncate(call.at)) < l.perMinute + l.burst)
            && (answer.allowed ==>
               answer.remaining == l.perMinute + l.burst - 1 - Count(grants, call.client, Truncate(call.at)))
  {
    hide Count, Truncate;
    var window := Truncate(call.at);
    SweepIsExact(l, grants, window);
    forall id, w
      ensures Count(grants + [call], id, w) == Count(grants, id, w) + if call.client == id && window == w then 1 else 0
    {
      CountSnoc(grants, call, id, w);
    }
  }

  lemma {:induction false} RunIsExact(perMinute: int, burst: int, start: int, calls: seq<Call>)
    requires Monotone(calls, start)
    ensures var initial := Fresh(perMinute, burst, start);
            var (l, grants) := Run(initial, calls);
            && l.perMinute == initial.perMinute && l.burst == initial.burst
            && l.lastCleanupWindow == Truncate(if calls == [] then start else calls[|calls| - 1].at)
            && Exact(l.counters, grants, l.lastCleanupWindow)
  {
    if calls != [] {
      hide Count, Truncate, Exact, Next;
      var front, last := calls[..|calls| - 1], calls[|calls| - 1];
      RunIsExact(perMinute, burst, start, front);
      TruncateIsMonotone(if front == [] then start else front[|front| - 1].at, last.at);
      var initial := Fresh(perMinute, burst, start);
      StepIsExact(Run(initial, front).0, Run(initial, front).1, last);
    }
  }

  /**
    A call is granted exactly when its client had fewer than the limit of grants in the same minute, and
    the answer tells how many are left.
  */
  lemma GrantedIffBelowLimit(perMinute: int, burst: int, start: int, calls: seq<Call>, call: Call)
    requires Monotone(calls + [call], start)
    ensures var initial := Fresh(perMinute, burst, start);
            var limit, used := initial.perMinute + initial.burst,
                Count(Run(initial, calls).1, call.client, Truncate(call.at));
            && Next(Run(initial, calls).0, call.client, call.at).1
               == if used < limit then Answer(true, limit - used - 1) else Answer(false, 0)
  {
    var all := calls + [call];
    assert Monotone(calls, start) && forall i :: 0 <= i < |calls| ==> calls[i].at <= call.at by {
      assert forall i :: 0 <= i < |calls| ==> calls[i] == all[i];
      assert call == all[|calls|];
    }
    RunIsExact(perMinute, burst, start, calls);
    assert start <= call.at by {
      assert all[|calls|] == call;
    }
    var initial := Fresh(perMinute, burst, start);
    TruncateIsMonotone(if calls == [] then start else calls[|calls| - 1].at, call.at);
    StepIsExact(Run(initial, calls).0, Run(initial, calls).1, call);
    RefusalLeavesNothing(Run(initial, calls).0, call);
  }

  lemma RefusalLeavesNothing(l: Limiter, call: Call)
    ensures var answer := Next(l, call.client, call.at).1;
            !answer.allowed ==> answer.remaining == 0
  {
  }

  /** No client gets more than the limit in any minute, however the clients' calls interleave. */
  lemma {:induction false} GrantsAreBounded(perMinute: int, burst: int, start: int, calls: seq<Call>, client: string,
                                            window: int)
    requires Monotone(calls, start)
    ensures var initial := Fresh(perMinute, burst, start);
            Count(Run(initial, calls).1, client, window) <= initial.perMinute + initial.burst
  {
    if calls != [] {
      var front, last := calls[..|calls| - 1], calls[|calls| - 1];
      GrantsAreBounded(perMinute, burst, start, front, client, window);
      assert calls == front + [last];
      GrantedIffBelowLimit(perMinute, burst, start, front, last);
      hide Next, Exact, Truncate, Monotone;
      var initial := Fresh(perMinute, burst, start);
      CountSnoc(Run(initial, front).1, last, client, window);
    }
  }
}
