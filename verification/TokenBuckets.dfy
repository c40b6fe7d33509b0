/** The provider rate limiter: one token bucket a provider, refilled continuously. Times are seconds. */
module TokenBuckets {

  datatype Bucket = Bucket(tokens: real, maxTokens: real, refillRate: real, lastRefill: real)

  function Fresh(requestsPerMinute: int, now: real): Bucket {
    Bucket(requestsPerMinute as real, requestsPerMinute as real, requestsPerMinute as real / 60.0, now)
  }

  function Min(a: real, b: real): real {
    if a < b then a else b
  }

  function Refilled(b: Bucket, now: real): Bucket {
    b.(tokens := Min(b.maxTokens, b.tokens + (now - b.lastRefill) * b.refillRate), lastRefill := now)
  }

  /** The bucket after one call, and whether the call was allowed. */
  function Take(b: Bucket, now: real): (Bucket, bool) {
    var r := Refilled(b, now);
    if r.tokens >= 1.0 then (r.(tokens := r.tokens - 1.0), true) else (r, false)
  }

  class RateLimiter {
    var buckets: map<string, Bucket>

    constructor ()
      ensures buckets == map[]
    {
      buckets := map[];
    }

    method Configure(name: string, requestsPerMinute: int, now: real)
      modifies this
      ensures buckets == After(old(buckets), Call.Configure(name, requestsPerMinute, now))
    {
      var rps := requestsPerMinute as real / 60.0;
      buckets := buckets[name := Bucket(requestsPerMinute as real, requestsPerMinute as real, rps, now)];
    }

    method Allow(name: string, now: real) returns (allowed: bool)
      modifies this
      ensures buckets == After(old(buckets), Call.Allow(name, now))
      ensures allowed == Allowed(old(buckets), Call.Allow(name, now))
    {
      if name !in buckets {
        return true;
      }
      var b := buckets[name];
      var elapsed := now - b.lastRefill;
      b := b.(tokens := Min(b.maxTokens, b.tokens + elapsed * b.refillRate), lastRefill := now);
      allowed := b.tokens >= 1.0;
      if allowed {
        b := b.(tokens := b.tokens - 1.0);
      }
      buckets := buckets[name := b];
    }
  }

  // ---- whole runs

  datatype Call = Configure(name: string, requestsPerMinute: int, at: real) | Allow(name: string, at: real)

  type Buckets = map<string, Bucket>

  function After(s: Buckets, c: Call): Buckets {
    match c
    case Configure(name, rpm, at) => s[name := Fresh(rpm, at)]
    case Allow(name, at) => if name in s then s[name := Take(s[name], at).0] else s
  }

  predicate Allowed(s: Buckets, c: Call) {
    c.Allow? && (c.name in s ==> Take(s[c.name], c.at).1)
  }

  function Run(s: Buckets, calls: seq<Call>): Buckets {
    if calls == [] then s else After(Run(s, calls[..|calls| - 1]), calls[|calls| - 1])
  }

  /** How many calls for `name` are allowed. */
  function Grants(s: Buckets, calls: seq<Call>, name: string): nat {
    if calls == [] then 0
    else
      var last := calls[|calls| - 1];
      Grants(s, calls[..|calls| - 1], name)
      + if last.name == name && Allowed(Run(s, calls[..|calls| - 1]), last) then 1 else 0
  }

  ghost predicate Monotone(calls: seq<Call>) {
    forall i, k :: 0 <= i < k < |calls| ==> calls[i].at <= calls[k].at
  }

  ghost predicate Within(calls: seq<Call>, from: real, to: real) {
    forall i :: 0 <= i < |calls| ==> from <= calls[i].at <= to
  }

  ghost predicate NotConfigured(calls: seq<Call>, name: string) {
    forall i :: 0 <= i < |calls| ==> !(calls[i].Configure? && calls[i].name == name)
  }

  /** A bucket as it is between two calls: not over its capacity, the rate its capacity a minute. */
  ghost predicate Sound(b: Bucket) {
    b.tokens <= b.maxTokens && b.maxTokens >= 0.0 && b.refillRate == b.maxTokens / 60.0
  }

  lemma FreshIsSound(rpm: int, now: real)
    requires rpm >= 0
    ensures Sound(Fresh(rpm, now))
  {
  }

  // tokens spent since `from` are paid for by the capacity and by the refill since then
  ghost predicate Paid(b: Bucket, was: Bucket, grants: nat, from: real) {
    && Sound(b) && b.maxTokens == was.maxTokens
    && (b.lastRefill < from ==> grants == 0)
    && (b.lastRefill >= from ==> grants as real + b.tokens <= b.maxTokens + b.refillRate * (b.lastRefill - from))
  }

  lemma Product(x: real, y: real)
    requires x >= 0.0 && y >= 0.0
    ensures x * y >= 0.0
  {
  }

  // what a rate yields over two intervals in a row
  lemma Sum(rate: real, x: real, y: real, whole: real)
    requires rate >= 0.0 && y >= 0.0 && whole == x + y
    ensures rate * whole == rate * x + rate * y && rate * y >= 0.0
  {
    Product(rate, y);
  }

  lemma TakeIsPaid(b: Bucket, was: Bucket, grants: nat, from: real, now: real)
    requires Paid(b, was, grants, from) && from <= now && b.lastRefill <= now
    ensures var (after, allowed) := Take(b, now);
            Paid(after, was, grants + if allowed then 1 else 0, from)
  {
    var rate := b.refillRate;
    Product(rate, now - from);
    Sum(rate, b.lastRefill - from, now - b.lastRefill, now - from);
    assert (now - b.lastRefill) * rate == rate * (now - b.lastRefill);
    var gain, spent, before := rate * (now - b.lastRefill), rate * (now - from), rate * (b.lastRefill - from);
    assert Refilled(b, now) == b.(tokens := Min(b.maxTokens, b.tokens + gain), lastRefill := now);
  }

  lemma {:induction false} RunIsPaid(s: Buckets, calls: seq<Call>, name: string, from: real, to: real)
    requires name in s && Sound(s[name])
    requires Monotone(calls) && Within(calls, from, to) && NotConfigured(calls, name)
    requires calls != [] ==> s[name].lastRefill <= calls[0].at
    requires s[name].lastRefill <= from
    ensures name in Run(s, calls) && Paid(Run(s, calls)[name], s[name], Grants(s, calls, name), from)
    ensures Run(s, calls)[name].lastRefill <= if calls == [] then from else calls[|calls| - 1].at
  {
    if calls != [] {
      var front, last := calls[..|calls| - 1], calls[|calls| - 1];
      RunIsPaid(s, front, name, from, to);
      if last.name == name {
        hide Take, Paid;
        assert Run(s, front)[name].lastRefill <= last.at;
        TakeIsPaid(Run(s, front)[name], s[name], Grants(s, front, name), from, last.at);
        TakeSetsTime(Run(s, front)[name], last.at);
      }
    }
  }

  lemma TakeSetsTime(b: Bucket, now: real)
    ensures Take(b, now).0.lastRefill == now
  {
  }

  // a spare token never turns negative
  lemma TakeLeavesNoDebt(b: Bucket, now: real)
    requires Sound(b) && b.tokens >= 0.0 && b.lastRefill <= now
    ensures Take(b, now).0.tokens >= 0.0
  {
    Product(now - b.lastRefill, b.refillRate);
    var gain := (now - b.lastRefill) * b.refillRate;
    assert Refilled(b, now) == b.(tokens := Min(b.maxTokens, b.tokens + gain), lastRefill := now);
  }

  lemma {:induction false} RunLeavesNoDebt(s: Buckets, calls: seq<Call>, name: string, from: real, to: real)
    requires name in s && Sound(s[name]) && s[name].tokens >= 0.0 && s[name].lastRefill <= from
    requires Monotone(calls) && Within(calls, from, to) && NotConfigured(calls, name)
    ensures name in Run(s, calls) && Run(s, calls)[name].tokens >= 0.0
  {
    if calls != [] {
      var front, last := calls[..|calls| - 1], calls[|calls| - 1];
      RunLeavesNoDebt(s, front, name, from, to);
      if last.name == name {
        RunIsPaid(s, front, name, from, to);
        hide Take;
        TakeLeavesNoDebt(Run(s, front)[name], last.at);
      }
    }
  }

  /**
    Whatever other providers do meanwhile, the calls allowed for one provider in any interval number at
    most its capacity plus what the interval refills.
  */
  lemma GrantsAreBounded(s: Buckets, calls: seq<Call>, name: string, from: real, to: real)
    requires name in s && Sound(s[name]) && s[name].tokens >= 0.0 && s[name].lastRefill <= from <= to
    requires Monotone(calls) && Within(calls, from, to) && NotConfigured(calls, name)
    ensures Grants(s, calls, name) as real <= s[name].maxTokens + s[name].refillRate * (to - from)
  {
    hide Run, Grants;
    RunIsPaid(s, calls, name, from, to);
    RunLeavesNoDebt(s, calls, name, from, to);
    PaidIsBounded(Run(s, calls)[name], s[name], Grants(s, calls, name), from, to);
  }

  lemma PaidIsBounded(b: Bucket, was: Bucket, grants: nat, from: real, to: real)
    requires Paid(b, was, grants, from) && Sound(was) && b.tokens >= 0.0 && b.lastRefill <= to && from <= to
    ensures grants as real <= was.maxTokens + was.refillRate * (to - from)
  {
    Product(b.refillRate, to - from);
    if b.lastRefill >= from {
      Sum(b.refillRate, b.lastRefill - from, to - b.lastRefill, to - from);
    }
  }

  /** From the empty limiter on, every bucket configured with a nonnegative rate stays sound and free of debt. */
  ghost predicate AllSound(s: Buckets, now: real) {
    forall name :: name in s ==> Sound(s[name]) && s[name].tokens >= 0.0 && s[name].lastRefill <= now
  }

  lemma {:induction false} RunIsSound(s: Buckets, calls: seq<Call>, now: real)
    requires AllSound(s, if calls == [] then now else calls[0].at) && Monotone(calls)
    requires forall i :: 0 <= i < |calls| && calls[i].Configure? ==> calls[i].requestsPerMinute >= 0
    ensures AllSound(Run(s, calls), if calls == [] then now else calls[|calls| - 1].at)
  {
    if calls != [] {
      var front, last := calls[..|calls| - 1], calls[|calls| - 1];
      if front != [] {
        assert front[0] == calls[0];
      }
      RunIsSound(s, front, last.at);
      var t := Run(s, front);
      assert AllSound(t, last.at);
      match last {
        case Configure(_, rpm, at) => FreshIsSound(rpm, at);
        case Allow(name, at) =>
          if name in t {
            TakeLeavesNoDebt(t[name], at);
          }
      }
    }
  }

  /** How long one token takes. */
  function Pause(maxTokens: real): real
    requires maxTokens > 0.0
  {
    60.0 / maxTokens
  }

  // a token's refill time is enough for the next call
  lemma WaitRefills(b: Bucket, now: real)
    requires Sound(b) && b.maxTokens >= 1.0 && b.tokens >= 0.0 && now - b.lastRefill >= Pause(b.maxTokens)
    ensures Take(b, now).1
  {
    var rate, pause := b.maxTokens / 60.0, Pause(b.maxTokens);
    assert rate * pause == 1.0;
    Sum(rate, pause, now - b.lastRefill - pause, now - b.lastRefill);
    assert (now - b.lastRefill) * rate == rate * (now - b.lastRefill);
  }

  lemma TakeKeepsSound(b: Bucket, now: real)
    requires Sound(b) && b.tokens >= 0.0 && b.lastRefill <= now
    ensures var after := Take(b, now).0;
            Sound(after) && after.tokens >= 0.0 && after.maxTokens == b.maxTokens && after.lastRefill == now
  {
    TakeLeavesNoDebt(b, now);
  }

  /** The calls for `name` leave each other, and the bucket's last refill, time to refill a token. */
  ghost predicate Slow(b: Bucket, calls: seq<Call>, name: string)
    requires b.maxTokens > 0.0
  {
    && (forall i :: 0 <= i < |calls| && calls[i].name == name ==> calls[i].at - b.lastRefill >= Pause(b.maxTokens))
    && (forall i, k :: 0 <= i < k < |calls| && calls[i].name == name && calls[k].name == name ==>
          calls[k].at - calls[i].at >= Pause(b.maxTokens))
  }

  function CallsFor(calls: seq<Call>, name: string): nat {
    if calls == [] then 0
    else CallsFor(calls[..|calls| - 1], name) + if calls[|calls| - 1].name == name then 1 else 0
  }

  /** The bucket was last refilled at the start or by one of its calls. */
  ghost predicate RefilledByCall(b: Bucket, start: real, calls: seq<Call>, name: string) {
    b.lastRefill == start || exists i :: 0 <= i < |calls| && calls[i].name == name && calls[i].at == b.lastRefill
  }

  /** Whatever other providers do meanwhile, no call that is slow enough is refused, if the bucket can hold a token. */
  lemma {:induction false} SlowCallsAreAllowed(s: Buckets, calls: seq<Call>, name: string)
    requires name in s && Sound(s[name]) && s[name].maxTokens >= 1.0 && s[name].tokens >= 0.0
    requires NotConfigured(calls, name) && Slow(s[name], calls, name)
    ensures Grants(s, calls, name) == CallsFor(calls, name)
    ensures name in Run(s, calls)
    ensures var b := Run(s, calls)[name];
            && Sound(b) && b.tokens >= 0.0 && b.maxTokens == s[name].maxTokens
            && RefilledByCall(b, s[name].lastRefill, calls, name)
  {
    if calls != [] {
      hide Pause, Sound, Take;
      var front, last := calls[..|calls| - 1], calls[|calls| - 1];
      SlowCallsAreAllowed(s, front, name);
      var b := Run(s, front)[name];
      if last.name == name {
        assert last.at - b.lastRefill >= Pause(b.maxTokens);
        WaitRefills(b, last.at);
        PauseIsPositive(b.maxTokens);
        TakeKeepsSound(b, last.at);
        assert calls[|calls| - 1].at == last.at;
      } else {
        assert Run(s, calls)[name] == b;
      }
    }
  }

  lemma PauseIsPositive(maxTokens: real)
    requires maxTokens >= 1.0
    ensures Pause(maxTokens) >= 0.0
  {
  }

  /** A bucket that cannot hold a whole token never allows a call. */
  lemma EmptyBucketsAllowNothing(b: Bucket, now: real)
    requires b.maxTokens < 1.0
    ensures !Take(b, now).1 && Take(b, now).0.maxTokens == b.maxTokens
  {
  }
}
