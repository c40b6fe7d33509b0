/**
  The launcher's restart budget: a sliding window over the granted restarts, and a delay that doubles
  with every restart still in the window. Times and durations are counted in nanoseconds.
*/
module RestartPolicies {
  import opened Wrappers

  const SECOND: int := 1_000_000_000

  datatype Policy = Policy(limit: int, window: int, baseDelay: int, maxDelay: int, restarts: seq<int>)

  function WithDefaults(p: Policy): Policy {
    Policy(if p.limit <= 0 then 1 else p.limit,
           if p.window <= 0 then 300 * SECOND else p.window,
           if p.baseDelay <= 0 then 2 * SECOND else p.baseDelay,
           if p.maxDelay <= 0 then 30 * SECOND else p.maxDelay,
           p.restarts)
  }

  /** The entries after `cutoff`, in order. */
  function Recent(times: seq<int>, cutoff: int): (r: seq<int>)
    ensures |r| <= |times|
  {
    if times == [] then []
    else Recent(times[..|times| - 1], cutoff) + if times[|times| - 1] > cutoff then [times[|times| - 1]] else []
  }

  const TWO63: int := 0x8000_0000_0000_0000

  /** Go's int64 arithmetic. */
  function Wrap(x: int): int {
    (x + TWO63) % (2 * TWO63) - TWO63
  }

  function Delay(baseDelay: int, maxDelay: int, attempt: nat): int
    requires attempt >= 1
  {
    var delay := Wrap(baseDelay * Wrap(Pow2(attempt - 1)));
    if delay > maxDelay then maxDelay else delay
  }

  /** One call: the policy after it, and the delay if the restart is granted. */
  function Next(policy: Policy, now: int): (Policy, Option<int>) {
    var p := WithDefaults(policy);
    var recent := Recent(p.restarts, now - p.window);
    if |recent| >= p.limit then (p.(restarts := recent), None)
    else (p.(restarts := recent + [now]), Some(Delay(p.baseDelay, p.maxDelay, |recent| + 1)))
  }

  class RestartPolicy {
    var limit: int
    var window: int
    var baseDelay: int
    var maxDelay: int
    var restarts: seq<int>

    function Value(): Policy
      reads this
    {
      Policy(limit, window, baseDelay, maxDelay, restarts)
    }

    method AllowRestart(now: int) returns (granted: bool, delay: int)
      modifies this
      ensures Value() == Next(old(Value()), now).0
      ensures granted <==> Next(old(Value()), now).1.Some?
      ensures granted ==> Next(old(Value()), now).1 == Some(delay)
      ensures !granted ==> delay == 0
    {
      hide Wrap, Pow2, Recent;
      if limit <= 0 {
        limit := 1;
      }
      if window <= 0 {
        window := 300 * SECOND;
      }
      if baseDelay <= 0 {
        baseDelay := 2 * SECOND;
      }
      if maxDelay <= 0 {
        maxDelay := 30 * SECOND;
      }
      var cutoff := now - window;
      var filtered := [];
      for i := 0 to |restarts|
        modifies {}
        invariant filtered == Recent(restarts[..i], cutoff)
      {
        assert restarts[..i + 1] == restarts[..i] + [restarts[i]];
        RecentSnoc(restarts[..i], restarts[i], cutoff);
        if restarts[i] > cutoff {
          filtered := filtered + [restarts[i]];
        }
      }
      assert restarts[..|restarts|] == restarts;
      restarts := filtered;
      if |restarts| >= limit {
        return false, 0;
      }
      restarts := restarts + [now];
      var attempt := |restarts|;
      delay := Wrap(baseDelay * Wrap(Pow2(attempt - 1)));
      if delay > maxDelay {
        delay := maxDelay;
      }
      granted := true;
    }
  }

  // ---- whole runs

  /** The policy and the granted restarts, oldest first, after calls at the given times. */
  function Run(p: Policy, calls: seq<int>): (Policy, seq<int>) {
    if calls == [] then (p, [])
    else
      var (q, grants) := Run(p, calls[..|calls| - 1]);
      var now := calls[|calls| - 1];
      var (after, delay) := Next(q, now);
      (after, if delay.Some? then grants + [now] else grants)
  }

  ghost predicate Monotone(times: seq<int>) {
    forall i, k :: 0 <= i < k < |times| ==> times[i] <= times[k]
  }

  ghost predicate AllBy(times: seq<int>, now: int) {
    forall i :: 0 <= i < |times| ==> times[i] <= now
  }

  lemma MonotoneSnoc(times: seq<int>, now: int)
    ensures Monotone(times + [now]) <==> Monotone(times) && AllBy(times, now)
    ensures AllBy(times, now) ==> AllBy(times + [now], now)
  {
    var r := times + [now];
    assert forall i :: 0 <= i < |times| ==> r[i] == times[i];
    if Monotone(r) {
      forall i | 0 <= i < |times|
        ensures times[i] <= now
      {
        assert r[i] <= r[|times|];
      }
    }
  }

  lemma AllByLater(times: seq<int>, early: int, late: int)
    requires AllBy(times, early) && early <= late
    ensures AllBy(times, late)
  {
  }

  lemma RecentSnoc(times: seq<int>, last: int, cutoff: int)
    ensures Recent(times + [last], cutoff) == Recent(times, cutoff) + if last > cutoff then [last] else []
  {
    assert (times + [last])[..|times|] == times;
  }

  lemma {:induction false} RecentOfRecent(times: seq<int>, early: int, late: int)
    requires early <= late
    ensures Recent(Recent(times, early), late) == Recent(times, late)
  {
    if times != [] {
      var front, last := times[..|times| - 1], times[|times| - 1];
      RecentOfRecent(front, early, late);
      assert times == front + [last];
      hide Recent;
      RecentSnoc(front, last, early);
      RecentSnoc(front, last, late);
      RecentSnoc(Recent(front, early), last, late);
      assert Recent(front, early) + [] == Recent(front, early);
      assert Recent(front, late) + [] == Recent(front, late);
    }
  }

  /** Forgetting old restarts is harmless: every later cutoff selects the same from the whole history. */
  ghost predicate Remembers(p: Policy, grants: seq<int>, now: int) {
    forall cutoff :: cutoff >= now - p.window ==> Recent(p.restarts, cutoff) == Recent(grants, cutoff)
  }

  lemma StepRemembers(policy: Policy, grants: seq<int>, before: int, now: int)
    requires policy == WithDefaults(policy) && Remembers(policy, grants, before) && before <= now
    ensures var (after, delay) := Next(policy, now);
            Remembers(after, if delay.Some? then grants + [now] else grants, now)
    ensures Next(policy, now).1.Some? <==> |Recent(grants, now - policy.window)| < policy.limit
  {
    hide Recent, Delay;
    var (after, delay) := Next(policy, now);
    var cut := now - policy.window;
    assert Recent(policy.restarts, cut) == Recent(grants, cut);
    forall cutoff | cutoff >= cut
      ensures Recent(after.restarts, cutoff) == Recent(if delay.Some? then grants + [now] else grants, cutoff)
    {
      RecentOfRecent(grants, cut, cutoff);
      RecentSnoc(grants, now, cutoff);
      RecentSnoc(Recent(grants, cut), now, cutoff);
    }
  }

  /** Each restart was granted because fewer than `limit` of all earlier grants fell in the window before it. */
  ghost predicate Budgeted(grants: seq<int>, limit: int, window: int) {
    forall j :: 0 <= j < |grants| ==> |Recent(grants[..j], grants[j] - window)| < limit
  }

  lemma FreshRemembers(p: Policy, grants: seq<int>, now: int)
    ensures p.restarts == grants ==> Remembers(p, grants, now)
  {
  }

  lemma GrantKeepsBudget(grants: seq<int>, now: int, limit: int, window: int)
    requires Budgeted(grants, limit, window)
    ensures |Recent(grants, now - window)| < limit ==> Budgeted(grants + [now], limit, window)
  {
    hide Recent;
    assert forall j :: 0 <= j <= |grants| ==> (grants + [now])[..j] == grants[..j];
    assert grants[..|grants|] == grants;
  }

  lemma EmptyIsBudgeted(grants: seq<int>, limit: int, window: int)
    ensures grants == [] ==> Budgeted(grants, limit, window) && Monotone(grants)
  {
  }

  lemma RunEmpty(p: Policy)
    ensures Run(p, []) == (p, [])
  {
  }

  lemma LastCall(calls: seq<int>, last: int)
    requires calls != [] && AllBy(calls, last)
    ensures calls[|calls| - 1] <= last
  {
  }

  lemma NextKeepsSettings(p: Policy, now: int)
    requires p == WithDefaults(p)
    ensures Next(p, now).0 == p.(restarts := Next(p, now).0.restarts)
  {
  }

  lemma RemembersLater(p: Policy, grants: seq<int>, early: int, late: int)
    requires Remembers(p, grants, early) && early <= late
    ensures Remembers(p, grants, late)
  {
    hide Recent;
  }

  lemma RunStep(p: Policy, calls: seq<int>)
    requires calls != []
    ensures var (q, grants) := Run(p, calls[..|calls| - 1]);
            var (after, delay) := Next(q, calls[|calls| - 1]);
            Run(p, calls) == (after, if delay.Some? then grants + [calls[|calls| - 1]] else grants)
  {
  }

  lemma {:induction false} RunFacts(p: Policy, calls: seq<int>, last: int)
    requires p == WithDefaults(p) && p.restarts == [] && Monotone(calls) && AllBy(calls, last)
    ensures var (q, grants) := Run(p, calls);
            && q == p.(restarts := q.restarts)
            && Budgeted(grants, p.limit, p.window) && Monotone(grants) && AllBy(grants, last)
            && Remembers(q, grants, last)
  {
    var (q, grants) := Run(p, calls);
    hide Recent, Delay, Remembers, Budgeted, Run, Monotone;
    if calls == [] {
      RunEmpty(p);
      FreshRemembers(p, grants, last);
      EmptyIsBudgeted(grants, p.limit, p.window);
    } else {
      var front, now := calls[..|calls| - 1], calls[|calls| - 1];
      assert calls == front + [now];
      MonotoneSnoc(front, now);
      RunFacts(p, front, now);
      RunStep(p, calls);
      var (r, earlier) := Run(p, front);
      StepRemembers(r, earlier, now, now);
      GrantKeepsBudget(earlier, now, p.limit, p.window);
      MonotoneSnoc(earlier, now);
      hide AllBy, Next;
      LastCall(calls, last);
      NextKeepsSettings(r, now);
      AllByLater(grants, now, last);
      RemembersLater(q, grants, now, last);
    }
  }

  /** A call is granted exactly when fewer than `limit` of all grants so far lie less than a window back. */
  lemma GrantedIffBudgetLeft(p: Policy, calls: seq<int>, now: int)
    requires p == WithDefaults(p) && p.restarts == [] && Monotone(calls + [now])
    ensures Next(Run(p, calls).0, now).1.Some? <==> |Recent(Run(p, calls).1, now - p.window)| < p.limit
  {
    hide *;
    MonotoneSnoc(calls, now);
    RunFacts(p, calls, now);
    var q := Run(p, calls).0;
    OnlyRestartsDiffer(p, q);
    StepRemembers(q, Run(p, calls).1, now, now);
  }

  lemma OnlyRestartsDiffer(p: Policy, q: Policy)
    ensures q == p.(restarts := q.restarts) && p == WithDefaults(p) ==> q == WithDefaults(q)
  {
  }

  /** How many entries lie in the half-open interval from `start`, `start` included. */
  function Between(times: seq<int>, start: int, end: int): nat {
    if times == [] then 0
    else Between(times[..|times| - 1], start, end) + if start <= times[|times| - 1] < end then 1 else 0
  }

  lemma {:induction false} BetweenIsRecent(times: seq<int>, start: int, end: int, cutoff: int)
    requires cutoff < start
    ensures Between(times, start, end) <= |Recent(times, cutoff)|
  {
    if times != [] {
      BetweenIsRecent(times[..|times| - 1], start, end, cutoff);
    }
  }

  lemma BudgetedPrefix(grants: seq<int>, limit: int, window: int, n: nat)
    requires Budgeted(grants, limit, window) && n < |grants|
    ensures Budgeted(grants[..n], limit, window)
    ensures |Recent(grants[..n], grants[n] - window)| < limit
  {
    hide Recent;
    assert forall j :: 0 <= j < n ==> grants[..n][j] == grants[j] && grants[..n][..j] == grants[..j];
  }

  lemma {:induction false} BudgetedWindows(grants: seq<int>, limit: int, window: int, start: int)
    requires limit >= 1 && window >= 1 && Budgeted(grants, limit, window) && Monotone(grants)
    ensures Between(grants, start, start + window) <= limit
  {
    if grants != [] {
      var n := |grants| - 1;
      var front := grants[..n];
      hide Recent, WithDefaults, Budgeted;
      BudgetedPrefix(grants, limit, window, n);
      if start <= grants[n] < start + window {
        BetweenIsRecent(front, start, start + window, grants[n] - window);
      } else {
        BudgetedWindows(front, limit, window, start);
      }
    }
  }

  /**
    However often restarts are asked for, no half-open interval of one window's length holds more than `limit`
    grants.
  */
  lemma RestartsAreBounded(policy: Policy, calls: seq<int>, start: int)
    requires policy.restarts == [] && Monotone(calls)
    ensures var p := WithDefaults(policy);
            Between(Run(policy, calls).1, start, start + p.window) <= p.limit
  {
    hide *;
    var p := WithDefaults(policy);
    DefaultsFirst(policy, calls);
    DefaultsArePositive(policy);
    var last := MonotoneEnd(calls);
    RunFacts(p, calls, last);
    BudgetedWindows(Run(p, calls).1, p.limit, p.window, start);
  }

  lemma DefaultsArePositive(policy: Policy)
    ensures var p := WithDefaults(policy);
            p.limit >= 1 && p.window >= 1 && WithDefaults(p) == p && p.restarts == policy.restarts
  {
  }

  lemma MonotoneEnd(times: seq<int>) returns (last: int)
    requires Monotone(times)
    ensures AllBy(times, last)
  {
    last := if times == [] then 0 else times[|times| - 1];
  }

  lemma {:induction false} DefaultsFirst(p: Policy, calls: seq<int>)
    ensures Run(p, calls).1 == Run(WithDefaults(p), calls).1
    ensures calls != [] ==> Run(p, calls).0 == Run(WithDefaults(p), calls).0
  {
    if calls != [] {
      DefaultsFirst(p, calls[..|calls| - 1]);
      assert WithDefaults(WithDefaults(p)) == WithDefaults(p);
    }
  }

  // ---- delays

  lemma Product(x: int, y: int)
    requires x >= 0 && y >= 0
    ensures x * y >= 0
  {
  }

  lemma SmallerFactor(x: int, y: int)
    requires x >= 1 && y >= 1
    ensures x <= x * y && y <= x * y
    ensures x >= 2 ==> 2 * y <= x * y
  {
    Product(x - 1, y);
    Product(x, y - 1);
    Product(if x >= 2 then x - 2 else 0, y);
  }

  function Doubled(baseDelay: int, attempt: nat): int
    requires attempt >= 1
  {
    baseDelay * Pow2(attempt - 1)
  }

  lemma DelayWithoutOverflow(baseDelay: int, maxDelay: int, attempt: nat)
    requires baseDelay >= 1 && maxDelay >= 1 && attempt >= 1 && Doubled(baseDelay, attempt) < TWO63
    ensures Delay(baseDelay, maxDelay, attempt)
            == if Doubled(baseDelay, attempt) > maxDelay then maxDelay else Doubled(baseDelay, attempt)
  {
    SmallerFactor(baseDelay, Pow2(attempt - 1));
  }

  // the first doubling that overflows turns negative
  lemma DelayAtOverflow(baseDelay: int, maxDelay: int, attempt: nat)
    requires baseDelay >= 1 && maxDelay >= 1 && attempt >= 1
    requires TWO63 <= Doubled(baseDelay, attempt) < 2 * TWO63
    ensures Delay(baseDelay, maxDelay, attempt) < 0
  {
    var p := Pow2(attempt - 1);
    SmallerFactor(baseDelay, p);
    if baseDelay == 1 {
      assert Wrap(p) == p - 2 * TWO63;
    } else {
      assert Wrap(p) == p;
      assert Wrap(baseDelay * p) == baseDelay * p - 2 * TWO63;
    }
  }

  lemma {:induction false} FirstOverflow(baseDelay: int, limit: nat) returns (attempt: nat)
    requires 1 <= baseDelay < TWO63 && limit >= 1 && Doubled(baseDelay, limit) >= TWO63
    ensures 1 <= attempt <= limit && TWO63 <= Doubled(baseDelay, attempt) < 2 * TWO63
  {
    if limit == 1 || Doubled(baseDelay, limit - 1) < TWO63 {
      attempt := limit;
      if limit > 1 {
        assert Pow2(limit - 1) == 2 * Pow2(limit - 2);
        assert Doubled(baseDelay, limit) == 2 * Doubled(baseDelay, limit - 1);
      }
    } else {
      attempt := FirstOverflow(baseDelay, limit - 1);
    }
  }

  ghost predicate DelaysDouble(baseDelay: int, maxDelay: int, limit: nat) {
    forall attempt: nat :: 1 <= attempt <= limit ==>
      Delay(baseDelay, maxDelay, attempt)
      == if Doubled(baseDelay, attempt) > maxDelay then maxDelay else Doubled(baseDelay, attempt)
  }

  /** All delays double up to the cap exactly when the largest doubling still fits an int64. */
  lemma DelaysDoubleIff(baseDelay: int, maxDelay: int, limit: nat)
    requires 1 <= baseDelay < TWO63 && 1 <= maxDelay < TWO63 && limit >= 1
    ensures DelaysDouble(baseDelay, maxDelay, limit) <==> Doubled(baseDelay, limit) < TWO63
  {
    hide Delay;
    if Doubled(baseDelay, limit) < TWO63 {
      forall attempt: nat | 1 <= attempt <= limit
        ensures Delay(baseDelay, maxDelay, attempt)
                == if Doubled(baseDelay, attempt) > maxDelay then maxDelay else Doubled(baseDelay, attempt)
      {
        Pow2Grows(attempt - 1, limit - 1);
        DoubledGrows(baseDelay, attempt, limit);
        DelayWithoutOverflow(baseDelay, maxDelay, attempt);
      }
    } else {
      var attempt := FirstOverflow(baseDelay, limit);
      DelayAtOverflow(baseDelay, maxDelay, attempt);
    }
  }

  lemma DoubledGrows(baseDelay: int, attempt: nat, limit: nat)
    requires baseDelay >= 1 && 1 <= attempt <= limit && Pow2(attempt - 1) <= Pow2(limit - 1)
    ensures Doubled(baseDelay, attempt) <= Doubled(baseDelay, limit)
  {
    var d := Pow2(limit - 1) - Pow2(attempt - 1);
    assert Doubled(baseDelay, limit) == Doubled(baseDelay, attempt) + baseDelay * d;
    assert baseDelay * d >= 0;
  }

  // ---- the delays of granted restarts

  function Capped(baseDelay: int, maxDelay: int, attempt: nat): int
    requires attempt >= 1
  {
    if Doubled(baseDelay, attempt) > maxDelay then maxDelay else Doubled(baseDelay, attempt)
  }

  /** After any calls, a granted restart gets the delay of its place among the grants of the last window. */
  lemma GrantHasDelay(p: Policy, calls: seq<int>, now: int)
    requires p == WithDefaults(p) && p.restarts == [] && Monotone(calls + [now])
    ensures var r := Next(Run(p, calls).0, now).1;
            var earlier := |Recent(Run(p, calls).1, now - p.window)|;
            r.Some? ==> earlier < p.limit && r.value == Delay(p.baseDelay, p.maxDelay, earlier + 1)
  {
    hide *;
    MonotoneSnoc(calls, now);
    RunFacts(p, calls, now);
    GrantedIffBudgetLeft(p, calls, now);
    RecentAgree(p, Run(p, calls).0, Run(p, calls).1, now);
  }

  lemma RecentAgree(p: Policy, q: Policy, grants: seq<int>, now: int)
    requires p == WithDefaults(p) && q == p.(restarts := q.restarts) && Remembers(q, grants, now)
    ensures Next(q, now).1.Some? ==>
              Next(q, now).1.value == Delay(p.baseDelay, p.maxDelay, |Recent(grants, now - p.window)| + 1)
  {
    hide Recent, Delay;
  }

  /** Every granted restart, in every run, waits at least the base delay or the cap and at most the cap. */
  ghost predicate DelaysInRange(p: Policy) {
    forall calls, now :: Monotone(calls + [now]) && Next(Run(p, calls).0, now).1.Some? ==>
      (if p.baseDelay < p.maxDelay then p.baseDelay else p.maxDelay) <= Next(Run(p, calls).0, now).1.value <= p.maxDelay
  }

  /** The delays of all runs stay in range if and only if the largest doubling fits an int64. */
  lemma DelaysInRangeIff(p: Policy)
    requires p == WithDefaults(p) && p.restarts == [] && p.baseDelay < TWO63 && p.maxDelay < TWO63
    ensures p.limit >= 1 && (DelaysInRange(p) <==> Doubled(p.baseDelay, p.limit) < TWO63)
  {
    hide Delay, Run, Next, Recent, Doubled, Monotone;
    DelaysDoubleIff(p.baseDelay, p.maxDelay, p.limit);
    if Doubled(p.baseDelay, p.limit) < TWO63 {
      forall calls, now | Monotone(calls + [now]) && Next(Run(p, calls).0, now).1.Some?
        ensures (if p.baseDelay < p.maxDelay then p.baseDelay else p.maxDelay) <= Next(Run(p, calls).0,
            now).1.value <= p.maxDelay
      {
        GrantHasDelay(p, calls, now);
        var attempt := |Recent(Run(p, calls).1, now - p.window)| + 1;
        assert Delay(p.baseDelay, p.maxDelay, attempt) == Capped(p.baseDelay, p.maxDelay, attempt);
        DoubledAtLeastBase(p.baseDelay, attempt);
      }
    } else {
      var attempt := FirstOverflow(p.baseDelay, p.limit);
      DelayAtOverflow(p.baseDelay, p.maxDelay, attempt);
      AtOnce(p, attempt - 1);
      OnceMore(p, attempt - 1);
      TimesAtOnce(attempt);
      assert Zeros(attempt - 1) + [0] == Zeros(attempt);
    }
  }

  lemma DoubledAtLeastBase(baseDelay: int, attempt: nat)
    requires baseDelay >= 1 && attempt >= 1
    ensures Doubled(baseDelay, attempt) >= baseDelay
  {
    SmallerFactor(baseDelay, Pow2(attempt - 1));
  }

  function Zeros(n: nat): (r: seq<int>)
    ensures |r| == n && forall i :: 0 <= i < n ==> r[i] == 0
  {
    seq(n, i => 0)
  }

  lemma TimesAtOnce(n: nat)
    ensures Monotone(Zeros(n))
  {
  }

  /** Restarts asked for at once are all granted up to the limit. */
  lemma {:induction false} AtOnce(p: Policy, n: nat)
    requires p == WithDefaults(p) && p.restarts == [] && n <= p.limit
    ensures Run(p, Zeros(n)) == (p.(restarts := Zeros(n)), Zeros(n))
  {
    hide Delay, Recent, WithDefaults;
    if n == 0 {
      assert Zeros(0) == [];
    } else {
      assert Zeros(n)[..n - 1] == Zeros(n - 1);
      AtOnce(p, n - 1);
      OnceMore(p, n - 1);
      assert Zeros(n - 1) + [0] == Zeros(n);
    }
  }

  lemma OnceMore(p: Policy, n: nat)
    requires p == WithDefaults(p) && n < p.limit
    ensures Next(p.(restarts := Zeros(n)), 0) == (p.(restarts := Zeros(n) + [0]),
                                                  Some(Delay(p.baseDelay, p.maxDelay, n + 1)))
  {
    hide Delay;
    AllRecent(n, 0 - p.window);
  }

  lemma {:induction false} AllRecent(n: nat, cutoff: int)
    requires cutoff < 0
    ensures Recent(Zeros(n), cutoff) == Zeros(n)
  {
    if n > 0 {
      assert Zeros(n)[..n - 1] == Zeros(n - 1);
      AllRecent(n - 1, cutoff);
    }
  }

  /** With the default base delay, the thirty-fourth restart of one run is granted with a negative delay. */
  lemma DefaultDelayCanOverflow(p: Policy)
    requires p == WithDefaults(p) && p.restarts == [] && p.limit >= 34 && p.baseDelay == 2 * SECOND
    ensures Monotone(Zeros(34))
    ensures Next(Run(p, Zeros(33)).0, 0).1.Some? && Next(Run(p, Zeros(33)).0, 0).1.value < 0
  {
    ThirtyThreeDoublings();
    DelayAtOverflow(2 * SECOND, p.maxDelay, 34);
    hide Delay, Run, Next, Recent, Doubled;
    AtOnce(p, 33);
    OnceMore(p, 33);
  }

  lemma ThirtyThreeDoublings()
    ensures TWO63 <= Doubled(2 * SECOND, 34) < 2 * TWO63
  {
    assert Pow2(8) == 256;
    assert Pow2(16) == 65536;
    assert Pow2(24) == 16777216;
    assert Pow2(33) == 8589934592;
  }
}
