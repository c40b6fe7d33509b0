/** The in-memory import-job store: leases without a not-before time, and one job per download. */
module ImportStore {
  import opened Wrappers
  import opened L = LeaseMachine

  datatype Status = Queued | Running | NeedsReview | Imported | Failed | Skipped

  datatype Job = Job(
    id: int, downloadJobID: int, workID: string, editionID: string, sourcePath: string, targetPath: string,
    status: Status, attempts: nat, maxAttempts: int, lastError: string,
    lockedAt: Option<Time>, lockedBy: string, lease: Option<Time>, createdAt: Time, updatedAt: Time)

  datatype Download = Download(id: int, workID: string, editionID: string, outputPath: string)

  datatype Error = NotFound

  datatype State = State(jobs: map<int, Job>, byDownload: map<int, int>, nextJobID: int)

  function Created(id: int, d: Download, now: Time): Job {
    Job(id, d.id, d.workID, d.editionID, d.outputPath, "", Queued, 0, 3, "", None, "", None, now, now)
  }

  function Claimed(j: Job, worker: string, now: Time): Job {
    j.(status := Running, attempts := j.attempts + 1, lockedAt := Some(now), lockedBy := worker,
       lease := Some(now + TTL), updatedAt := now)
  }

  function Expired(j: Job, now: Time): bool {
    j.status == Running && j.lease.Some? && j.lease.value <= now
  }

  /** Any operation that ends a claim or moves an unclaimed job: the lock and the lease go. */
  function Released(j: Job, status: Status, err: string, now: Time): Job {
    j.(status := status, lastError := err, lockedAt := None, lockedBy := "", lease := None, updatedAt := now)
  }

  function Recovered(j: Job, now: Time): Job {
    var next := j.(attempts := j.attempts + 1);
    if next.attempts >= j.maxAttempts then Released(next, Failed, "lease expired; recovered as failed", now)
    else Released(next, Queued, "lease expired; recovered for retry", now)
  }

  function AfterFailure(j: Job, terminal: bool): Status {
    if terminal || j.attempts >= j.maxAttempts then Failed else Queued
  }

  /** Running, locked and leased for exactly the TTL are one and the same. */
  predicate Coherent(j: Job) {
    (j.status == Running <==> j.lockedAt.Some?)
    && j.lease == if j.lockedAt.Some? then Some(j.lockedAt.value + TTL) else None
  }

  /** Jobs and downloads are in bijection, and every lease is coherent. */
  ghost predicate Valid(s: State) {
    && 1 <= s.nextJobID
    && (forall id :: id in s.jobs ==> s.jobs[id].id == id && 1 <= id < s.nextJobID && Coherent(s.jobs[id]))
    && (forall id :: id in s.jobs ==>
          s.jobs[id].downloadJobID in s.byDownload && s.byDownload[s.jobs[id].downloadJobID] == id)
    && (forall d :: d in s.byDownload ==> s.byDownload[d] in s.jobs && s.jobs[s.byDownload[d]].downloadJobID == d)
  }

  datatype Op =
    | Create(download: Download)
    | ClaimNext(worker: string, id: int)
    | RecoverLeases(chosen: set<int>)
    | MarkImported(id: int, targetPath: string)
    | MarkNeedsReview(id: int, reason: string)
    | MarkFailed(id: int, err: string, terminal: bool)
    | RetryJob(id: int)
    | Approve(id: int, workID: string, editionID: string)
    | Skip(id: int, reason: string)

  function ExpiredIDs(s: State, now: Time): set<int> {
    set id | id in s.jobs && Expired(s.jobs[id], now)
  }

  ghost predicate Step(s: State, s': State, op: Op, now: Time) {
    match op
    case Create(d) =>
      if d.id in s.byDownload then s' == s
      else s' == State(s.jobs[s.nextJobID := Created(s.nextJobID, d, now)], s.byDownload[d.id := s.nextJobID],
                       s.nextJobID + 1)
    case ClaimNext(worker, id) =>
      && id in s.jobs && s.jobs[id].status == Queued
      && (forall k :: k in s.jobs && s.jobs[k].status == Queued ==> s.jobs[id].createdAt <= s.jobs[k].createdAt)
      && s' == s.(jobs := s.jobs[id := Claimed(s.jobs[id], worker, now)])
    case RecoverLeases(chosen) =>
      && chosen <= ExpiredIDs(s, now)
      && s' == s.(jobs := map id | id in s.jobs :: if id in chosen then Recovered(s.jobs[id], now) else s.jobs[id])
    case MarkImported(id, targetPath) =>
      id in s.jobs && s' == s.(jobs := s.jobs[id := Released(s.jobs[id], Imported, "", now).(targetPath := targetPath)])
    case MarkNeedsReview(id, reason) =>
      id in s.jobs && s' == s.(jobs := s.jobs[id := Released(s.jobs[id], NeedsReview, reason, now)])
    case MarkFailed(id, err, terminal) =>
      id in s.jobs && s' == s.(jobs := s.jobs[id := Released(s.jobs[id], AfterFailure(s.jobs[id], terminal), err, now)])
    case RetryJob(id) =>
      id in s.jobs && s' == s.(jobs := s.jobs[id := Released(s.jobs[id], Queued, "", now)])
    case Approve(id, workID, editionID) =>
      id in s.jobs
          && s' == s.(jobs := s.jobs[id := Released(s.jobs[id], Queued, "", now).(workID := workID,
              editionID := editionID)])
    case Skip(id, reason) =>
      id in s.jobs && s' == s.(jobs := s.jobs[id := Released(s.jobs[id], Skipped, reason, now)])
  }

  lemma UpdateKeepsValid(s: State, id: int, j: Job)
    requires Valid(s) && id in s.jobs && j.id == id && j.downloadJobID == s.jobs[id].downloadJobID && Coherent(j)
    ensures Valid(s.(jobs := s.jobs[id := j]))
  {
  }

  lemma JobFacts(s: State, id: int)
    requires Valid(s) && id in s.jobs
    ensures s.jobs[id].id == id && Coherent(s.jobs[id]) && s.jobs[id].downloadJobID in s.byDownload
  {
  }

  lemma CreateKeepsValid(s: State, d: Download, now: Time)
    requires Valid(s)
    ensures d.id in s.byDownload ==> s.byDownload[d.id] in s.jobs
    ensures d.id !in s.byDownload ==> s.nextJobID !in s.jobs
    ensures d.id !in s.byDownload ==>
              Valid(State(s.jobs[s.nextJobID := Created(s.nextJobID, d, now)], s.byDownload[d.id := s.nextJobID],
                          s.nextJobID + 1))
  {
  }

  lemma RecoveryKeepsValid(s: State, s': State, chosen: set<int>, now: Time)
    requires Valid(s) && Step(s, s', RecoverLeases(chosen), now)
    ensures Valid(s')
  {
    forall id | id in s'.jobs
      ensures s'.jobs[id].id == id && s'.jobs[id].downloadJobID == s.jobs[id].downloadJobID && Coherent(s'.jobs[id])
    {
      JobFacts(s, id);
    }
  }

  class Store {
    var nextJobID: int
    var jobs: map<int, Job>
    var byDownload: map<int, int>

    ghost function Snapshot(): State
      reads this
    {
      State(jobs, byDownload, nextJobID)
    }

    constructor ()
      ensures Valid(Snapshot()) && Snapshot() == State(map[], map[], 1)
    {
      nextJobID, jobs, byDownload := 1, map[], map[];
    }

    /** One import job per download, whoever asks. */
    method CreateOrGetFromDownload(d: Download, now: Time) returns (job: Job)
      requires Valid(Snapshot())
      modifies this
      ensures Valid(Snapshot()) && Step(old(Snapshot()), Snapshot(), Create(d), now)
      ensures d.id in byDownload && byDownload[d.id] in jobs && job == jobs[byDownload[d.id]]
      ensures forall id :: id in old(jobs) ==> id in jobs && jobs[id] == old(jobs)[id]
    {
      hide Valid;
      CreateKeepsValid(Snapshot(), d, now);
      if d.id in byDownload {
        return jobs[byDownload[d.id]];
      }
      job := Job(nextJobID, d.id, d.workID, d.editionID, d.outputPath, "", Queued, 0, 3, "", None, "", None, now, now);
      nextJobID := nextJobID + 1;
      jobs := jobs[job.id := job];
      byDownload := byDownload[d.id := job.id];
    }

    method ClaimNextQueued(worker: string, now: Time) returns (r: Option<Job>)
      requires Valid(Snapshot())
      modifies this
      ensures Valid(Snapshot())
      ensures r.None? ==> Snapshot() == old(Snapshot()) && forall k :: k in jobs ==> jobs[k].status != Queued
      ensures r.Some? ==>
                && r.value.id in jobs && jobs[r.value.id] == r.value
                && Step(old(Snapshot()), Snapshot(), ClaimNext(worker, r.value.id), now)
    {
      hide Valid;
      var selected: Option<Job> := None;
      var rest := jobs.Keys;
      while rest != {}
        modifies {}
        invariant rest <= jobs.Keys
        invariant selected.Some? ==>
                    selected.value.id in jobs && jobs[selected.value.id] == selected.value
                        && selected.value.status == Queued
        invariant forall k :: k in jobs && k !in rest && jobs[k].status == Queued ==>
                    selected.Some? && selected.value.createdAt <= jobs[k].createdAt
      {
        var id := Pick(rest);
        rest := rest - {id};
        JobFacts(Snapshot(), id);
        if jobs[id].status == Queued && (selected.None? || jobs[id].createdAt < selected.value.createdAt) {
          selected := Some(jobs[id]);
        }
      }
      if selected.None? {
        return None;
      }
      var job := selected.value.(status := Running, attempts := selected.value.attempts + 1);
      job := job.(lockedAt := Some(now), lockedBy := worker, lease := Some(now + TTL), updatedAt := now);
      UpdateKeepsValid(Snapshot(), job.id, job);
      jobs := jobs[job.id := job];
      r := Some(job);
    }

    method RecoverExpiredLeases(now: Time, limit: int) returns (recovered: nat, ghost chosen: set<int>)
      requires Valid(Snapshot())
      modifies this
      ensures Valid(Snapshot()) && Step(old(Snapshot()), Snapshot(), RecoverLeases(chosen), now)
      ensures recovered == |chosen|
      ensures var max := if limit <= 0 then 100 else limit;
              var expired := |ExpiredIDs(old(Snapshot()), now)|;
              recovered == if expired < max then expired else max
    {
      hide Valid, Recovered, ExpiredIDs, Step;
      var max := if limit <= 0 then 100 else limit;
      ghost var s0 := Snapshot();
      ghost var expired := ExpiredIDs(s0, now);
      recovered, chosen := 0, {};
      RecoverNothing(s0, now);
      var rest := jobs.Keys;
      while rest != {}
        invariant rest <= s0.jobs.Keys == jobs.Keys
        invariant chosen == expired - rest && recovered == |chosen| <= max
        invariant Step(s0, Snapshot(), RecoverLeases(chosen), now)
        invariant Valid(Snapshot())
        decreases rest
      {
        if recovered >= max {
          break;
        }
        var id := Pick(rest);
        ShrinkRest(expired, rest, id);
        RecoverSpares(s0, Snapshot(), chosen, id, now);
        rest := rest - {id};
        if jobs[id].status != Running || jobs[id].lease.None? || jobs[id].lease.value > now {
          continue;
        }
        RecoverExtends(s0, Snapshot(), chosen, id, now);
        RecoverLease(id, now);
        recovered := recovered + 1;
        chosen := chosen + {id};
      }
      assert recovered < max ==> chosen == expired;
      SmallerSet(chosen, expired);
    }

    /** The body of the recovery loop, for a job whose lease has expired. */
    method RecoverLease(id: int, now: Time)
      requires Valid(Snapshot()) && id in jobs
      modifies this
      ensures Valid(Snapshot())
              && Snapshot() == old(Snapshot()).(jobs := old(jobs)[id := Recovered(old(jobs)[id], now)])
    {
      hide Valid;
      RecoverOneKeepsValid(Snapshot(), id, now);
      var job := jobs[id];
      job := job.(attempts := job.attempts + 1);
      if job.attempts >= job.maxAttempts {
        job := job.(status := Failed, lastError := "lease expired; recovered as failed");
      } else {
        job := job.(status := Queued, lastError := "lease expired; recovered for retry");
      }
      jobs := jobs[id := job.(lockedAt := None, lockedBy := "", lease := None, updatedAt := now)];
    }

    /** `MarkImported`, `MarkNeedsReview`, `MarkFailed`, `Retry`, `Approve` and `Skip`. */
    method Finish(op: Op, now: Time) returns (r: Result<(), Error>)
      requires Valid(Snapshot()) && !op.Create? && !op.ClaimNext? && !op.RecoverLeases?
      modifies this
      ensures Valid(Snapshot())
      ensures op.id !in old(jobs) ==> r == Err(NotFound) && Snapshot() == old(Snapshot())
      ensures op.id in old(jobs) ==> r == Ok(()) && Step(old(Snapshot()), Snapshot(), op, now)
    {
      hide Valid;
      if op.id !in jobs {
        return Err(NotFound);
      }
      JobFacts(Snapshot(), op.id);
      var job := jobs[op.id];
      match op {
        case MarkImported(_, targetPath) => job := job.(status := Imported, targetPath := targetPath, lastError := "");
        case MarkNeedsReview(_, reason) => job := job.(status := NeedsReview, lastError := reason);
        case MarkFailed(_, err, terminal) =>
          job := job.(status := if terminal || job.attempts >= job.maxAttempts then Failed else Queued,
                      lastError := err);
        case RetryJob(_) => job := job.(status := Queued, lastError := "");
        case Approve(_, workID, editionID) => job := job.(workID := workID, editionID := editionID, status := Queued,
                                                          lastError := "");
        case Skip(_, reason) => job := job.(status := Skipped, lastError := reason);
      }
      job := job.(lockedAt := None, lockedBy := "", lease := None, updatedAt := now);
      UpdateKeepsValid(Snapshot(), op.id, job);
      jobs := jobs[op.id := job];
      r := Ok(());
    }

    /** Puts the incoming directory of an unknown download under review. */
    method ReviewOrphan(d: Download, now: Time) returns (ghost id: int)
      requires Valid(Snapshot()) && d.id !in byDownload
      modifies this
      ensures Valid(Snapshot())
      ensures id !in old(jobs) && byDownload == old(byDownload)[d.id := id]
      ensures id in jobs && jobs == old(jobs)[id := jobs[id]]
      ensures jobs[id].status == NeedsReview && jobs[id].sourcePath == d.outputPath && jobs[id].downloadJobID == d.id
      ensures jobs[id].workID == d.workID && jobs[id].editionID == d.editionID && jobs[id].attempts == 0
      ensures jobs[id].lastError == "orphan incoming directory detected; review required"
    {
      hide Valid;
      CreateKeepsValid(Snapshot(), d, now);
      var job := CreateOrGetFromDownload(d, now);
      id := job.id;
      var _ := Finish(MarkNeedsReview(job.id, "orphan incoming directory detected; review required"), now);
    }

    /**
      `reconcileIncomingOrphans`: gives every incoming directory named by a positive number, and not
      yet known, an import job under review.
    */
    method ReconcileIncomingOrphans(dirs: seq<Directory>, lookup: int -> Option<Download>, now: Time)
      returns (reconciled: nat)
      requires Valid(Snapshot())
      modifies this
      ensures Valid(Snapshot())
      ensures forall k :: 0 <= k < |dirs| && Numbered(dirs[k]) ==> dirs[k].number.value in byDownload
      ensures OnlyOrphansAdded(old(jobs), jobs, dirs, lookup) && reconciled == |jobs| - |old(jobs)|
    {
      hide Valid, FirstOf;
      reconciled := 0;
      for i := 0 to |dirs|
        invariant Valid(Snapshot())
        invariant forall k :: 0 <= k < i && Numbered(dirs[k]) ==> dirs[k].number.value in byDownload
        invariant OnlyOrphansAdded(old(jobs), jobs, dirs, lookup) && reconciled == |jobs| - |old(jobs)|
      {
        if dirs[i].number.None? || dirs[i].number.value <= 0 || dirs[i].number.value in byDownload {
          continue;
        }
        var downloadID := dirs[i].number.value;
        var d := Download(downloadID, "", "", dirs[i].path);
        if lookup(downloadID).Some? {
          d := lookup(downloadID).value.(id := downloadID, outputPath := dirs[i].path);
        }
        IsFirstOf(dirs, i);
        ghost var before := jobs;
        ghost var id := ReviewOrphan(d, now);
        OneMoreOrphan(old(jobs), before, id, jobs[id], dirs, lookup);
        reconciled := reconciled + 1;
      }
    }
  }

  /** An entry of the incoming directory: its path, and the number its name reads as, if it does. */
  datatype Directory = Directory(path: string, number: Option<int>)

  predicate Numbered(d: Directory) {
    d.number.Some? && d.number.value > 0
  }

  /** The path of the first directory of that number: `7` and `07` are one number and two directories. */
  ghost predicate FirstOf(dirs: seq<Directory>, number: int, path: string) {
    exists k :: 0 <= k < |dirs| && dirs[k] == Directory(path, Some(number))
                && forall m :: 0 <= m < k ==> dirs[m].number != Some(number)
  }

  lemma IsFirstOf(dirs: seq<Directory>, i: nat)
    requires i < |dirs| && Numbered(dirs[i]) && forall k :: 0 <= k < i && Numbered(dirs[k]) ==>
               dirs[k].number != dirs[i].number
    ensures FirstOf(dirs, dirs[i].number.value, dirs[i].path)
  {
    assert dirs[i] == Directory(dirs[i].path, Some(dirs[i].number.value));
  }

  /**
    The new jobs are exactly reviews of orphan directories, the first of their number; the known ones are
    untouched.
  */
  ghost predicate OnlyOrphansAdded(jobs: map<int, Job>, jobs': map<int, Job>, dirs: seq<Directory>,
                                   lookup: int -> Option<Download>) {
    && (forall id :: id in jobs ==> id in jobs' && jobs'[id] == jobs[id])
    && (forall id :: id in jobs' && id !in jobs ==> IsReview(jobs'[id], dirs, lookup))
  }

  /** Such a review is for the work and edition of the download job of that number, if there still is one. */
  ghost predicate IsReview(j: Job, dirs: seq<Directory>, lookup: int -> Option<Download>) {
    && j.status == NeedsReview && j.attempts == 0 && j.lastError != ""
    && j.downloadJobID > 0 && FirstOf(dirs, j.downloadJobID, j.sourcePath)
    && match lookup(j.downloadJobID)
       case Some(d) => j.workID == d.workID && j.editionID == d.editionID
       case None => j.workID == "" && j.editionID == ""
  }

  lemma OneMoreOrphan(jobs: map<int, Job>, jobs': map<int, Job>, id: int, j: Job, dirs: seq<Directory>,
                      lookup: int -> Option<Download>)
    requires OnlyOrphansAdded(jobs, jobs', dirs, lookup) && id !in jobs' && IsReview(j, dirs, lookup)
    ensures OnlyOrphansAdded(jobs, jobs'[id := j], dirs, lookup) && |jobs'[id := j]| == |jobs'| + 1
  {
    hide IsReview;
  }

  lemma RecoverNothing(s: State, now: Time)
    ensures Step(s, s, RecoverLeases({}), now) && ExpiredIDs(s, now) - s.jobs.Keys == {}
  {
    assert s.jobs == map id | id in s.jobs :: s.jobs[id];
  }

  lemma RecoverSpares(s0: State, s: State, chosen: set<int>, id: int, now: Time)
    requires Step(s0, s, RecoverLeases(chosen), now) && id in s0.jobs && id !in chosen
    ensures id in s.jobs && s.jobs[id] == s0.jobs[id]
    ensures id in ExpiredIDs(s0, now) <==> Expired(s0.jobs[id], now)
  {
  }

  lemma RecoverExtends(s0: State, s: State, chosen: set<int>, id: int, now: Time)
    requires Step(s0, s, RecoverLeases(chosen), now) && id in s0.jobs && id !in chosen && Expired(s0.jobs[id], now)
    ensures id in s.jobs
    ensures Step(s0, s.(jobs := s.jobs[id := Recovered(s.jobs[id], now)]), RecoverLeases(chosen + {id}), now)
  {
  }

  lemma RecoverOneKeepsValid(s: State, id: int, now: Time)
    requires Valid(s) && id in s.jobs
    ensures Valid(s.(jobs := s.jobs[id := Recovered(s.jobs[id], now)]))
  {
    JobFacts(s, id);
    UpdateKeepsValid(s, id, Recovered(s.jobs[id], now));
  }

  // ---- every job is a lease cell; an import job has no not-before time and no recovery pause

  function CellOf(j: Job): Cell {
    var phase := if j.status == Queued then Ready else if j.status == Running then Leased else Parked;
    Cell(phase, j.attempts, j.maxAttempts, 0, j.lease)
  }

  /** The job's cell, if there is such a job. */
  function CellIn(s: State, id: int): Option<Cell> {
    if id in s.jobs then Some(CellOf(s.jobs[id])) else None
  }

  function MoveOf(s: State, op: Op, id: int): Move {
    if id !in s.jobs then Stay
    else match op
    case Create(_) => Stay
    case ClaimNext(_, i) => if i == id then L.Claim else Stay
    case RecoverLeases(chosen) => if id in chosen then L.Recover else Stay
    case MarkFailed(i, _, terminal) =>
      if i != id then Stay else if AfterFailure(s.jobs[id], terminal) == Failed then Park else Requeue
    case RetryJob(i) => if i == id then L.Retry else Stay
    case Approve(i, _, _) => if i == id then L.Retry else Stay
    case _ => if op.id == id then Park else Stay
  }

  function NoPause(): Pause {
    _ => 0
  }

  lemma JobRefinesLeaseMachine(j: Job, now: Time)
    requires Coherent(j) && 0 <= now
    ensures L.Next(CellOf(j), CellOf(j), Stay, now, NoPause())
    ensures j.status == Queued ==>
              forall worker :: L.Next(CellOf(j), CellOf(Claimed(j, worker, now)), L.Claim, now, NoPause())
    ensures Expired(j, now) ==> L.Next(CellOf(j), CellOf(Recovered(j, now)), L.Recover, now, NoPause())
    ensures forall err :: L.Next(CellOf(j), CellOf(Released(j, Queued, err, now)), L.Retry, now, NoPause())
    ensures forall err :: j.attempts < j.maxAttempts ==>
              L.Next(CellOf(j), CellOf(Released(j, Queued, err, now)), Requeue, now, NoPause())
    ensures forall status, err :: status != Queued && status != Running ==>
              L.Next(CellOf(j), CellOf(Released(j, status, err, now)), Park, now, NoPause())
  {
  }

  /** Each store step moves each job as the lease machine allows, and creates it fresh. */
  lemma StepRefinesLeaseMachine(s: State, s': State, op: Op, now: Time, id: int)
    requires Valid(s) && Step(s, s', op, now) && 0 <= now
    ensures L.LifeStep(CellIn(s, id), CellIn(s', id), MoveOf(s, op, id), now, NoPause())
  {
    if id in s.jobs {
      KnownJobMoves(s, s', op, now, id);
    }
  }

  lemma KnownJobMoves(s: State, s': State, op: Op, now: Time, id: int)
    requires Valid(s) && Step(s, s', op, now) && id in s.jobs && 0 <= now
    ensures id in s'.jobs && L.Next(CellOf(s.jobs[id]), CellOf(s'.jobs[id]), MoveOf(s, op, id), now, NoPause())
  {
    JobFacts(s, id);
    JobRefinesLeaseMachine(s.jobs[id], now);
    if op.Create? {
      CreateKeepsValid(s, op.download, now);
    }
    hide Valid, Recovered, Claimed, Released, Coherent, CellOf, L.Next, NoPause;
    match op {
      case MarkImported(i, path) => SameCell(Released(s.jobs[i], Imported, "", now), path, "", "");
      case Approve(i, workID, editionID) => SameCell(Released(s.jobs[i], Queued, "", now), "", workID, editionID);
      case _ =>
    }
  }

  lemma SameCell(j: Job, path: string, workID: string, editionID: string)
    ensures CellOf(j.(targetPath := path)) == CellOf(j)
            && CellOf(j.(workID := workID, editionID := editionID)) == CellOf(j)
  {
  }

  lemma StepKeepsValid(s: State, s': State, op: Op, now: Time)
    requires Valid(s) && Step(s, s', op, now)
    ensures Valid(s')
  {
    hide Valid;
    match op {
      case Create(d) => CreateKeepsValid(s, d, now);
      case RecoverLeases(chosen) => RecoveryKeepsValid(s, s', chosen, now);
      case _ =>
        JobFacts(s, op.id);
        UpdateKeepsValid(s, op.id, s'.jobs[op.id]);
        assert s' == s.(jobs := s.jobs[op.id := s'.jobs[op.id]]);
    }
  }

  ghost predicate Run(states: seq<State>, ops: seq<Op>, times: seq<Time>) {
    && |states| == |ops| + 1 && |times| == |ops|
    && Valid(states[0])
    && (forall i :: 0 <= i < |ops| ==> Step(states[i], states[i + 1], ops[i], times[i]))
    && (forall i, k :: 0 <= i <= k < |times| ==> 0 <= times[i] <= times[k])
  }

  lemma {:induction false} RunStaysValid(states: seq<State>, ops: seq<Op>, times: seq<Time>, i: nat)
    requires Run(states, ops, times) && i <= |ops|
    ensures Valid(states[i])
  {
    if i > 0 {
      RunStaysValid(states, ops, times, i - 1);
      StepKeepsValid(states[i - 1], states[i], ops[i - 1], times[i - 1]);
    }
  }

  ghost function Cells(states: seq<State>, id: int): (cells: seq<Option<Cell>>)
    ensures |cells| == |states| && forall i :: 0 <= i < |states| ==> cells[i] == CellIn(states[i], id)
  {
    seq(|states|, i requires 0 <= i < |states| => CellIn(states[i], id))
  }

  ghost function Moves(states: seq<State>, ops: seq<Op>, id: int): (moves: seq<Move>)
    requires |states| == |ops| + 1
    ensures |moves| == |ops| && forall i :: 0 <= i < |ops| ==> moves[i] == MoveOf(states[i], ops[i], id)
  {
    seq(|ops|, i requires 0 <= i < |ops| => MoveOf(states[i], ops[i], id))
  }

  /** Seen from one job, created before or during it, a run of the store is a run of the lease machine. */
  lemma RunRefinesLeaseMachine(states: seq<State>, ops: seq<Op>, times: seq<Time>, id: int)
    requires Run(states, ops, times)
    ensures |states| == |ops| + 1 && L.Run(Cells(states, id), Moves(states, ops, id), times, NoPause())
  {
    hide Valid, Step, CellIn, MoveOf, L.LifeStep, NoPause;
    forall i | 0 <= i < |ops|
      ensures L.LifeStep(Cells(states, id)[i], Cells(states, id)[i + 1], Moves(states, ops, id)[i], times[i], NoPause())
    {
      RunStaysValid(states, ops, times, i);
      assert Step(states[i], states[i + 1], ops[i], times[i]);
      StepRefinesLeaseMachine(states[i], states[i + 1], ops[i], times[i], id);
    }
  }

  /**
    In any run every import job that is created in it, or fresh at its start, is attempted at most `maxAttempts`
    times plus once per retry or approval, and every job a lease apart.
  */
  lemma ImportAttemptsAreBoundedAndSpaced(states: seq<State>, ops: seq<Op>, times: seq<Time>, id: int)
    requires Run(states, ops, times)
    ensures |states| == |ops| + 1
    ensures L.New(CellIn(states[0], id)) && id in states[|ops|].jobs ==>
              AttemptsOf(ops, id) <= states[|ops|].jobs[id].maxAttempts + RetriesOf(ops, id)
    ensures forall i, k :: 0 <= i < k < |ops| && ClaimsWithoutRequeue(Moves(states, ops, id), i, k) ==>
              times[k] >= times[i] + TTL
  {
    RunRefinesLeaseMachine(states, ops, times, id);
    MovesCount(states, ops, times, id, |ops|);
    hide Run, L.Run, L.New, AttemptsOf, RetriesOf;
    var cells, moves := Cells(states, id), Moves(states, ops, id);
    assert moves[..|ops|] == moves && ops[..|ops|] == ops;
    if L.New(CellIn(states[0], id)) && id in states[|ops|].jobs {
      L.ClaimsAreBounded(cells, moves, times, NoPause());
    }
    forall i, k | 0 <= i < k < |ops| && ClaimsWithoutRequeue(moves, i, k)
      ensures times[k] >= times[i] + TTL
    {
      L.ClaimsAreSpaced(cells, moves, times, NoPause(), i, k);
    }
  }

  /** How often a job is claimed. */
  function AttemptsOf(ops: seq<Op>, id: int): nat {
    if ops == [] then 0
    else
      var op := ops[|ops| - 1];
      AttemptsOf(ops[..|ops| - 1], id) + if op.ClaimNext? && op.id == id then 1 else 0
  }

  /** How often an operator retries or approves it. */
  function RetriesOf(ops: seq<Op>, id: int): nat {
    if ops == [] then 0
    else
      var op := ops[|ops| - 1];
      RetriesOf(ops[..|ops| - 1], id) + if (op.RetryJob? || op.Approve?) && op.id == id then 1 else 0
  }

  lemma {:induction false} MovesCount(states: seq<State>, ops: seq<Op>, times: seq<Time>, id: int, n: nat)
    requires Run(states, ops, times) && n <= |ops|
    ensures L.Count(Moves(states, ops, id)[..n], L.Claim) == AttemptsOf(ops[..n], id)
    ensures L.Count(Moves(states, ops, id)[..n], L.Retry) == RetriesOf(ops[..n], id)
  {
    hide MoveOf, Step, Valid;
    if n > 0 {
      var moves := Moves(states, ops, id);
      assert Step(states[n - 1], states[n], ops[n - 1], times[n - 1]);
      MoveMeans(states[n - 1], states[n], ops[n - 1], times[n - 1], id);
      MovesCount(states, ops, times, id, n - 1);
      assert moves[..n][..n - 1] == moves[..n - 1] && ops[..n][..n - 1] == ops[..n - 1];
      assert moves[n - 1] == MoveOf(states[n - 1], ops[n - 1], id);
    }
  }

  lemma MoveMeans(s: State, s': State, op: Op, now: Time, id: int)
    requires Step(s, s', op, now)
    ensures MoveOf(s, op, id) == L.Claim <==> op.ClaimNext? && op.id == id
    ensures MoveOf(s, op, id) == L.Retry <==> (op.RetryJob? || op.Approve?) && op.id == id
  {
  }

  ghost predicate ClaimsWithoutRequeue(moves: seq<Move>, i: nat, k: nat) {
    && i < k < |moves| && moves[i] == L.Claim && moves[k] == L.Claim
    && forall m :: i < m < k ==> moves[m] != Requeue && moves[m] != L.Retry
  }
}
