/**
  The lease machine shared by the download queue, the indexer's search requests and the import
  jobs: one job is ready, leased to a worker, or parked. Each store refines it, so what is proved
  here over every run of one job holds of every job of the three stores. Times are in seconds.
*/
module LeaseMachine {
  import opened Wrappers

  type Time = int

  /** The lease length of all three stores: two minutes. */
  const TTL: Time := 120

  datatype Phase = Ready | Leased | Parked

  datatype Cell = Cell(phase: Phase, attempts: nat, maxAttempts: int, notBefore: Time, lease: Option<Time>)

  /** Claim by a worker, recovery of an expired lease, requeue under the attempt limit, any ending, operator retry. */
  datatype Move = Claim | Recover | Requeue | Park | Retry | Stay

  /** `recoveryBackoffForAttempt` and `backoffForAttempt`: powers of two, capped. */
  function Backoff(attempt: int): Time {
    var a := if attempt < 1 then 1 else attempt;
    var delay := Pow2(if a < 7 then a else 7);
    if delay > 300 then 300 else delay
  }

  lemma BackoffGrows(a: int, b: int)
    requires a <= b
    ensures 2 <= Backoff(a) <= Backoff(b) <= 128
  {
    var x, y := if a < 1 then 1 else a, if b < 1 then 1 else b;
    var m, n := if x < 7 then x else 7, if y < 7 then y else 7;
    Pow2Grows(1, m);
    Pow2Grows(m, n);
    Pow2Grows(n, 7);
    assert Pow2(7) == 128 by { assert Pow2(3) == 8; assert Pow2(5) == 32; }
  }

  /** Two seconds at first, twice as long with every attempt, and no more than after the seventh. */
  lemma BackoffDoubles(a: int)
    ensures a <= 1 ==> Backoff(a) == 2
    ensures 1 <= a < 7 ==> Backoff(a + 1) == 2 * Backoff(a)
    ensures a >= 7 ==> Backoff(a) == 128
  {
    assert Pow2(1) == 2 && Pow2(3) == 8;
    assert Pow2(7) == 128 by { assert Pow2(5) == 32; }
    if 1 <= a < 7 {
      BackoffGrows(a, 7);
      BackoffGrows(a + 1, 7);
    }
  }

  /** A recovered job waits for `pause` of its new attempt count; a store without `not_before` pauses for 0. */
  type Pause = int -> Time

  ghost predicate Grows(pause: Pause) {
    forall a, b :: a <= b ==> 0 <= pause(a) <= pause(b)
  }

  ghost predicate Next(c: Cell, c': Cell, m: Move, now: Time, pause: Pause) {
    && c'.maxAttempts == c.maxAttempts
    && match m
       case Claim =>
         && c.phase == Ready && c.notBefore <= now
         && c'.phase == Leased && c'.attempts == c.attempts + 1 && c'.lease == Some(now + TTL)
       case Recover =>
         && c.phase == Leased && c.lease.Some? && c.lease.value <= now
         && c'.attempts == c.attempts + 1 && c'.lease == None
         && (if c'.attempts >= c.maxAttempts then c'.phase == Parked
             else c'.phase == Ready && (pause(c'.attempts) == 0 || c'.notBefore >= now + pause(c'.attempts)))
       case Requeue =>
         c.attempts < c.maxAttempts && c'.phase == Ready && c'.attempts == c.attempts && c'.lease == None
       case Park =>
         c'.phase == Parked && c'.attempts == c.attempts && c'.lease == None
       case Retry =>
         c'.phase == Ready && c'.attempts == c.attempts && c'.lease == None
       case Stay =>
         c' == c
  }

  predicate Fresh(c: Cell) {
    c.phase == Ready && c.attempts == 0 && c.maxAttempts >= 1 && c.lease == None
  }

  /** A step in a job's life: while there is no job it may be created, fresh; from then on it stays. */
  ghost predicate LifeStep(c: Option<Cell>, c': Option<Cell>, m: Move, now: Time, pause: Pause) {
    if c.None? then m == Stay && (c'.Some? ==> Fresh(c'.value))
    else c'.Some? && Next(c.value, c'.value, m, now, pause)
  }

  /** A run of one job: step `i` takes `cells[i]` to `cells[i + 1]` at time `times[i]`, and time never goes back. */
  ghost predicate Run(cells: seq<Option<Cell>>, moves: seq<Move>, times: seq<Time>, pause: Pause) {
    && |cells| == |moves| + 1 && |times| == |moves|
    && (forall i :: 0 <= i < |moves| ==> LifeStep(cells[i], cells[i + 1], moves[i], times[i], pause))
    && (forall i, j :: 0 <= i <= j < |times| ==> times[i] <= times[j])
  }

  /** Not created yet, or just created. */
  predicate New(c: Option<Cell>) {
    c.None? || Fresh(c.value)
  }

  function Count(moves: seq<Move>, m: Move): nat {
    if moves == [] then 0 else Count(moves[..|moves| - 1], m) + if moves[|moves| - 1] == m then 1 else 0
  }

  /** The lease discipline: a lease is held exactly while leased, and claims are paid for by attempts or retries. */
  ghost predicate Disciplined(c: Cell, claims: nat, retries: nat) {
    && (c.phase == Leased <==> c.lease.Some?)
    && claims <= c.attempts && claims <= c.maxAttempts + retries
    && (c.phase == Ready ==> claims < c.maxAttempts + retries)
  }

  lemma {:induction false} RunIsDisciplined(cells: seq<Option<Cell>>, moves: seq<Move>, times: seq<Time>,
                                            pause: Pause)
    requires Run(cells, moves, times, pause) && New(cells[0])
    ensures var c, claims, retries := cells[|moves|], Count(moves, Claim), Count(moves, Retry);
            if c.Some? then Disciplined(c.value, claims, retries) else claims == retries == 0
    decreases |moves|
  {
    if moves != [] {
      var n := |moves| - 1;
      RunIsDisciplined(cells[..n + 1], moves[..n], times[..n], pause);
      assert LifeStep(cells[n], cells[n + 1], moves[n], times[n], pause);
    }
  }

  /** Over any run, from before its creation, a job is claimed at most `maxAttempts` times plus once for every retry. */
  lemma ClaimsAreBounded(cells: seq<Option<Cell>>, moves: seq<Move>, times: seq<Time>, pause: Pause)
    requires Run(cells, moves, times, pause) && New(cells[0]) && cells[|moves|].Some?
    ensures Count(moves, Claim) <= cells[|moves|].value.maxAttempts + Count(moves, Retry)
  {
    RunIsDisciplined(cells, moves, times, pause);
  }

  // what holds of the cell ever after a claim at `t0` as its attempt `a0`, while nobody requeues or retries it
  ghost predicate Spaced(c: Cell, clock: Time, t0: Time, a0: nat, pause: Pause) {
    && c.attempts >= a0
    && (c.lease.Some? ==> c.lease.value >= t0 + TTL)
    && (c.phase == Leased ==> c.lease.Some?)
    && (c.phase == Ready ==> c.notBefore >= t0 + TTL + pause(a0 + 1) || clock >= t0 + TTL + pause(a0 + 1))
  }

  lemma {:induction false} StaysSpaced(cells: seq<Option<Cell>>, moves: seq<Move>, times: seq<Time>, pause: Pause,
                                       i: nat, n: nat)
    requires Run(cells, moves, times, pause) && Grows(pause)
    requires i < n <= |moves| && moves[i] == Claim
    requires forall k :: i < k < n ==> moves[k] != Requeue && moves[k] != Retry
    ensures cells[i + 1].Some? && cells[n].Some?
    ensures Spaced(cells[n].value, times[n - 1], times[i], cells[i + 1].value.attempts, pause)
    decreases n
  {
    assert LifeStep(cells[n - 1], cells[n], moves[n - 1], times[n - 1], pause);
    if i < n - 1 {
      StaysSpaced(cells, moves, times, pause, i, n - 1);
      assert times[i] <= times[n - 2] <= times[n - 1];
    }
  }

  /** Two claims with no requeue or retry between them are a lease and the recovery pause apart. */
  lemma ClaimsAreSpaced(cells: seq<Option<Cell>>, moves: seq<Move>, times: seq<Time>, pause: Pause, i: nat, k: nat)
    requires Run(cells, moves, times, pause) && Grows(pause)
    requires i < k < |moves| && moves[i] == Claim && moves[k] == Claim
    requires forall m :: i < m < k ==> moves[m] != Requeue && moves[m] != Retry
    ensures cells[i + 1].Some? && times[k] >= times[i] + TTL + pause(cells[i + 1].value.attempts + 1)
  {
    StaysSpaced(cells, moves, times, pause, i, k);
    assert LifeStep(cells[k], cells[k + 1], moves[k], times[k], pause);
    assert times[k - 1] <= times[k];
  }
}
