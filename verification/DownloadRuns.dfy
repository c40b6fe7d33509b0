/**
  Runs of the download queue under its workers: submit, poll and recovery workers, any number of
  each, interleaved with operator cancels and retries.
*/
module DownloadRuns {
  import opened Wrappers
  import L = LeaseMachine
  import opened DownloadStore

  // ---- every job of the store is a lease cell

  function CellOf(j: Job): L.Cell {
    var phase := if j.status == Queued then L.Ready
                 else if j.status == Submitted && j.lease.Some? then L.Leased else L.Parked;
    L.Cell(phase, j.attempts, j.maxAttempts, j.notBefore, if phase == L.Leased then j.lease else None)
  }

  /** The job's cell, if there is such a job. */
  function CellIn(s: State, id: int): Option<L.Cell> {
    if id in s.jobs then Some(CellOf(s.jobs[id])) else None
  }

  function MoveOf(s: State, op: Op, id: int): L.Move {
    if id !in s.jobs then L.Stay
    else match op
    case CreateJob(_) => L.Stay
    case ClaimNext(_, i) => if i == id then L.Claim else L.Stay
    case RecoverLeases(order) => if id in order then L.Recover else L.Stay
    case MarkSubmitted(i, _) => if i == id then L.Park else L.Stay
    case UpdateProgress(i, _, _, _) => if i == id then L.Park else L.Stay
    case MarkImported(_, _) => L.Stay
    case Reschedule(i, _, _, terminal) =>
      if i != id then L.Stay
      else if terminal || s.jobs[id].attempts >= s.jobs[id].maxAttempts then L.Park else L.Requeue
    case RetryJob(i) => if i == id then L.Retry else L.Stay
    case AddEvent(_) => L.Stay
  }

  /** Polls and cancels never put a job back in the queue, and a new job comes without a lease. */
  predicate Proper(op: Op) {
    && (op.UpdateProgress? ==> op.status != Queued)
    && (op.CreateJob? ==> op.job.lease == None)
  }

  function RecoveryPause(): L.Pause {
    a => L.Backoff(a)
  }

  /** Each store step moves each job as the lease machine allows, and creates it fresh. */
  lemma StepRefinesLeaseMachine(s: State, s': State, op: Op, now: L.Time, id: int)
    requires Valid(s) && Step(s, s', op, now) && Proper(op)
    ensures L.LifeStep(CellIn(s, id), CellIn(s', id), MoveOf(s, op, id), now, RecoveryPause())
  {
    if op.RecoverLeases? {
      RecoveryPassJobs(s, op.order, now);
    }
    if id in s.jobs {
      KnownJobMoves(s, s', op, now, id);
    } else if op.CreateJob? {
      CreatedJobIsFresh(s, s', op.job, now);
    }
  }

  lemma KnownJobMoves(s: State, s': State, op: Op, now: L.Time, id: int)
    requires Valid(s) && Step(s, s', op, now) && id in s.jobs && Proper(op)
    ensures id in s'.jobs
    ensures L.Next(CellOf(s.jobs[id]), CellOf(s'.jobs[id]), MoveOf(s, op, id), now, RecoveryPause())
  {
    var j := s.jobs[id];
    StayMoves(j, now);
    hide Claimed, SubmittedAs, Progressed, Rescheduled, Retried, Eligible, Expired, Recovered, L.Next, RecoverAll,
        CellOf, RecoveryPause;
    match op {
      case ClaimNext(worker, i) => ClaimMoves(s.jobs[i], worker, now);
      case RecoverLeases(order) =>
        RecoveryPassJobs(s, order, now);
        RecoverMoves(j, now);
      case MarkSubmitted(_, downloadID) => ParkMoves(j, downloadID, j.status, "", "", now);
      case UpdateProgress(_, status, output, err) => ParkMoves(j, "", status, output, err, now);
      case Reschedule(_, err, notBefore, terminal) => RescheduleMoves(j, err, notBefore, terminal, now);
      case RetryJob(_) => RetryMoves(j, now);
      case _ =>
    }
  }

  lemma CreatedJobIsFresh(s: State, s': State, job: Job, now: L.Time)
    requires Step(s, s', CreateJob(job), now) && job.lease == None
    ensures s.nextJobID in s'.jobs && L.Fresh(CellOf(s'.jobs[s.nextJobID]))
  {
  }

  // what each rewriting of a job means to its cell

  lemma StayMoves(j: Job, now: L.Time)
    ensures L.Next(CellOf(j), CellOf(j), L.Stay, now, RecoveryPause())
    ensures forall imported :: CellOf(j.(imported := imported, updatedAt := now)) == CellOf(j)
  {
  }

  lemma ClaimMoves(j: Job, worker: string, now: L.Time)
    requires Eligible(j, now)
    ensures L.Next(CellOf(j), CellOf(Claimed(j, worker, now)), L.Claim, now, RecoveryPause())
  {
  }

  lemma RecoverMoves(j: Job, now: L.Time)
    ensures Expired(j, now) ==> L.Next(CellOf(j), CellOf(Recovered(j, now)), L.Recover, now, RecoveryPause())
  {
  }

  lemma ParkMoves(j: Job, downloadID: string, status: Status, output: string, err: string, now: L.Time)
    ensures L.Next(CellOf(j), CellOf(SubmittedAs(j, downloadID, now)), L.Park, now, RecoveryPause())
    ensures status != Queued ==>
      L.Next(CellOf(j), CellOf(Progressed(j, status, output, err, now)), L.Park, now, RecoveryPause())
  {
  }

  lemma RescheduleMoves(j: Job, err: string, notBefore: L.Time, terminal: bool, now: L.Time)
    ensures L.Next(CellOf(j), CellOf(Rescheduled(j, err, notBefore, terminal, now)),
                   if terminal || j.attempts >= j.maxAttempts then L.Park else L.Requeue, now, RecoveryPause())
  {
  }

  lemma RetryMoves(j: Job, now: L.Time)
    ensures L.Next(CellOf(j), CellOf(Retried(j, now)), L.Retry, now, RecoveryPause())
  {
  }

  /** Ids and counters stay in order at every step. */
  lemma StepKeepsValid(s: State, s': State, op: Op, now: L.Time)
    requires Valid(s) && Step(s, s', op, now)
    ensures Valid(s')
  {
    if op.RecoverLeases? {
      RecoveryPassJobs(s, op.order, now);
    }
  }

  /** A run of the store: `ops[i]` at `times[i]` takes `states[i]` to `states[i + 1]`. */
  ghost predicate Run(states: seq<State>, ops: seq<Op>, times: seq<L.Time>) {
    && |states| == |ops| + 1 && |times| == |ops|
    && Valid(states[0])
    && (forall i :: 0 <= i < |ops| ==> Proper(ops[i]) && Step(states[i], states[i + 1], ops[i], times[i]))
    && (forall i, k :: 0 <= i <= k < |times| ==> times[i] <= times[k])
  }

  lemma {:induction false} RunStaysValid(states: seq<State>, ops: seq<Op>, times: seq<L.Time>, i: nat)
    requires Run(states, ops, times) && i <= |ops|
    ensures Valid(states[i])
  {
    hide Step, Valid;
    if i > 0 {
      RunStaysValid(states, ops, times, i - 1);
      assert Step(states[i - 1], states[i], ops[i - 1], times[i - 1]);
      StepKeepsValid(states[i - 1], states[i], ops[i - 1], times[i - 1]);
    }
  }

  ghost function Cells(states: seq<State>, id: int): (cells: seq<Option<L.Cell>>)
    ensures |cells| == |states| && forall i :: 0 <= i < |states| ==> cells[i] == CellIn(states[i], id)
  {
    seq(|states|, i requires 0 <= i < |states| => CellIn(states[i], id))
  }

  ghost function Moves(states: seq<State>, ops: seq<Op>, id: int): (moves: seq<L.Move>)
    requires |states| == |ops| + 1
    ensures |moves| == |ops| && forall i :: 0 <= i < |ops| ==> moves[i] == MoveOf(states[i], ops[i], id)
  {
    seq(|ops|, i requires 0 <= i < |ops| => MoveOf(states[i], ops[i], id))
  }

  /** Seen from one job, created before or during it, a run of the store is a run of the lease machine. */
  lemma RunRefinesLeaseMachine(states: seq<State>, ops: seq<Op>, times: seq<L.Time>, id: int)
    requires Run(states, ops, times)
    ensures |states| == |ops| + 1 && L.Run(Cells(states, id), Moves(states, ops, id), times, RecoveryPause())
  {
    hide Valid, L.LifeStep, MoveOf, CellIn, RecoveryPause;
    forall i | 0 <= i < |ops|
      ensures L.LifeStep(Cells(states, id)[i], Cells(states, id)[i + 1], Moves(states, ops, id)[i], times[i],
                         RecoveryPause())
    {
      RunStaysValid(states, ops, times, i);
      StepRefinesLeaseMachine(states[i], states[i + 1], ops[i], times[i], id);
    }
  }

  // ---- claims over whole runs

  function ClaimsOf(ops: seq<Op>, id: int): nat {
    if ops == [] then 0
    else
      var op := ops[|ops| - 1];
      ClaimsOf(ops[..|ops| - 1], id) + if op.ClaimNext? && op.id == id then 1 else 0
  }

  function RetriesOf(ops: seq<Op>, id: int): nat {
    if ops == [] then 0
    else RetriesOf(ops[..|ops| - 1], id) + if ops[|ops| - 1] == RetryJob(id) then 1 else 0
  }

  lemma RunSnoc(states: seq<State>, ops: seq<Op>, times: seq<L.Time>, op: Op, s': State, now: L.Time)
    requires Run(states, ops, times) && Proper(op) && Step(states[|states| - 1], s', op, now)
    requires times == [] || times[|times| - 1] <= now
    ensures Run(states + [s'], ops + [op], times + [now])
  {
    hide Step;
    var ss, os, ts := states + [s'], ops + [op], times + [now];
    forall i | 0 <= i < |os|
      ensures Proper(os[i]) && Step(ss[i], ss[i + 1], os[i], ts[i])
    {
      if i < |ops| {
        assert Step(states[i], states[i + 1], ops[i], times[i]);
      }
    }
  }

  /** The moves of one job count its claims and retries. */
  lemma {:induction false} MovesCount(states: seq<State>, ops: seq<Op>, times: seq<L.Time>, id: int, n: nat)
    requires Run(states, ops, times) && n <= |ops|
    ensures L.Count(Moves(states, ops, id)[..n], L.Claim) == ClaimsOf(ops[..n], id)
    ensures L.Count(Moves(states, ops, id)[..n], L.Retry) == RetriesOf(ops[..n], id)
  {
    hide MoveOf, Step;
    if n > 0 {
      var moves := Moves(states, ops, id);
      MoveMeans(states[n - 1], states[n], ops[n - 1], times[n - 1], id);
      MovesCount(states, ops, times, id, n - 1);
      assert moves[..n][..n - 1] == moves[..n - 1] && ops[..n][..n - 1] == ops[..n - 1];
      assert moves[n - 1] == MoveOf(states[n - 1], ops[n - 1], id);
    }
  }

  lemma MoveMeans(s: State, s': State, op: Op, now: L.Time, id: int)
    requires Step(s, s', op, now)
    ensures MoveOf(s, op, id) == L.Claim <==> op.ClaimNext? && op.id == id
    ensures MoveOf(s, op, id) == L.Retry <==> op == RetryJob(id)
  {
  }

  /**
    In any run every job that is created in it, or fresh at its start, is claimed at most `MaxAttempts` times
    plus once per retry.
  */
  lemma ClaimsAreBounded(states: seq<State>, ops: seq<Op>, times: seq<L.Time>, id: int)
    requires Run(states, ops, times) && L.New(CellIn(states[0], id)) && id in states[|ops|].jobs
    ensures ClaimsOf(ops, id) <= states[|ops|].jobs[id].maxAttempts + RetriesOf(ops, id)
  {
    RunRefinesLeaseMachine(states, ops, times, id);
    MovesCount(states, ops, times, id, |ops|);
    hide Run, L.Run, L.New, ClaimsOf, RetriesOf, RecoveryPause;
    var moves := Moves(states, ops, id);
    assert moves[..|ops|] == moves && ops[..|ops|] == ops;
    L.ClaimsAreBounded(Cells(states, id), moves, times, RecoveryPause());
  }

  /**
    Two claims of one job with no retry or reschedule of it between them are at least the lease
    length plus the recovery backoff apart.
  */
  lemma ClaimsAreSpaced(states: seq<State>, ops: seq<Op>, times: seq<L.Time>, id: int, i: nat, k: nat)
    requires Run(states, ops, times)
    requires i < k < |ops| && ops[i].ClaimNext? && ops[i].id == id && ops[k].ClaimNext? && ops[k].id == id
    requires forall m :: i < m < k ==>
               !(ops[m].RetryJob? && ops[m].id == id) && !(ops[m].Reschedule? && ops[m].id == id)
    ensures id in states[i + 1].jobs
    ensures times[k] >= times[i] + L.TTL + L.Backoff(states[i + 1].jobs[id].attempts + 1)
  {
    RunRefinesLeaseMachine(states, ops, times, id);
    PauseGrows();
    assert Step(states[i], states[i + 1], ops[i], times[i]) && Step(states[k], states[k + 1], ops[k], times[k]);
    L.ClaimsAreSpaced(Cells(states, id), Moves(states, ops, id), times, RecoveryPause(), i, k);
  }

  lemma PauseGrows()
    ensures L.Grows(RecoveryPause())
  {
    forall a, b | a <= b
      ensures 0 <= RecoveryPause()(a) <= RecoveryPause()(b)
    {
      L.BackoffGrows(a, b);
    }
  }
}
