/** The in-memory download queue: a mutex-guarded store whose methods are atomic steps on its state. */
module DownloadStore {
  import opened Wrappers
  import opened LeaseMachine

  datatype Status = Queued | Submitted | Downloading | Repairing | Unpacking | Completed | Failed | Canceled

  /** The request payload: the uri, the search request (0 if absent) and the attempted candidates, if recorded. */
  datatype Payload = Payload(uri: string, searchRequestID: int, attempted: Option<seq<int>>)

  datatype Job = Job(
    id: int, grabID: int, candidateID: int, workID: string, clientName: string, upgradeAction: string,
    status: Status, downloadID: string, outputPath: string, imported: bool, payload: Payload, lastError: string,
    attempts: nat, maxAttempts: int, notBefore: Time,
    lockedAt: Option<Time>, lockedBy: string, lease: Option<Time>, createdAt: Time, updatedAt: Time)

  datatype Event = Event(id: int, jobID: int, eventType: string, message: string, createdAt: Time)

  datatype State = State(jobs: map<int, Job>, events: map<int, seq<Event>>, nextJobID: int, nextEventID: int)

  datatype Error = NotFound

  /** The zero `time.Time`, standing for "not set". */
  const ZERO_TIME: Time := 0

  // ---- what each operation does to one job

  function Initial(job: Job, id: int, now: Time): Job {
    job.(id := id, status := Queued, attempts := 0, imported := false, createdAt := now, updatedAt := now,
         maxAttempts := if job.maxAttempts <= 0 then 3 else job.maxAttempts,
         notBefore := if job.notBefore == ZERO_TIME then now else job.notBefore)
  }

  predicate Eligible(j: Job, now: Time) {
    j.status == Queued && j.notBefore <= now
  }

  function Claimed(j: Job, worker: string, now: Time): Job {
    j.(status := Submitted, attempts := j.attempts + 1, lockedAt := Some(now), lockedBy := worker,
       lease := Some(now + TTL), updatedAt := now)
  }

  predicate Expired(j: Job, now: Time) {
    j.status == Submitted && j.lease.Some? && j.lease.value <= now
  }

  function Recovered(j: Job, now: Time): Job {
    var next := j.attempts + 1;
    var freed := j.(attempts := next, lastError := "lease expired; recovered", lockedAt := None, lockedBy := "",
                    lease := None, updatedAt := now);
    if next >= j.maxAttempts then freed.(status := Failed, notBefore := now)
    else freed.(status := Queued, notBefore := now + Backoff(next))
  }

  function Rescheduled(j: Job, err: string, notBefore: Time, terminal: bool, now: Time): Job {
    j.(status := if terminal || j.attempts >= j.maxAttempts then Failed else Queued, lastError := err,
       notBefore := notBefore, lockedAt := None, lockedBy := "", lease := None, updatedAt := now)
  }

  function Progressed(j: Job, status: Status, output: string, err: string, now: Time): Job {
    j.(status := status, lastError := err, outputPath := if output != "" then output else j.outputPath,
       lease := None, updatedAt := now)
  }

  function SubmittedAs(j: Job, downloadID: string, now: Time): Job {
    j.(downloadID := downloadID, status := Downloading, lockedAt := None, lockedBy := "", lease := None,
       updatedAt := now)
  }

  function Retried(j: Job, now: Time): Job {
    j.(status := Queued, lastError := "", notBefore := now, lockedAt := None, lockedBy := "", lease := None,
       updatedAt := now)
  }

  // ---- what each operation does to the store

  function EventsOf(s: State, id: int): seq<Event> {
    if id in s.events then s.events[id] else []
  }

  function Logged(s: State, e: Event): State {
    s.(events := s.events[e.jobID := EventsOf(s, e.jobID) + [e.(id := s.nextEventID)]],
       nextEventID := s.nextEventID + 1)
  }

  function RecoverOne(s: State, id: int, now: Time): State
    requires id in s.jobs
  {
    Logged(s.(jobs := s.jobs[id := Recovered(s.jobs[id], now)]),
           RecoveryEvent(0, id, now))
  }

  function RecoverAll(s: State, order: seq<int>, now: Time): (s': State)
    requires forall id :: id in order ==> id in s.jobs
    ensures s'.jobs.Keys == s.jobs.Keys
  {
    if order == [] then s
    else RecoverOne(RecoverAll(s, order[..|order| - 1], now), order[|order| - 1], now)
  }

  function ExpiredIDs(s: State, now: Time): set<int> {
    set id | id in s.jobs && Expired(s.jobs[id], now)
  }

  ghost predicate Distinct(order: seq<int>) {
    forall i, k :: 0 <= i < k < |order| ==> order[i] != order[k]
  }

  datatype Op =
    | CreateJob(job: Job)
    | ClaimNext(worker: string, id: int)
    | RecoverLeases(order: seq<int>)
    | MarkSubmitted(id: int, downloadID: string)
    | UpdateProgress(id: int, status: Status, output: string, err: string)
    | MarkImported(id: int, imported: bool)
    | Reschedule(id: int, err: string, notBefore: Time, terminal: bool)
    | RetryJob(id: int)
    | AddEvent(event: Event)

  /** The atomic steps of the store. */
  ghost predicate Step(s: State, s': State, op: Op, now: Time) {
    match op
    case CreateJob(job) =>
      s' == s.(jobs := s.jobs[s.nextJobID := Initial(job, s.nextJobID, now)], nextJobID := s.nextJobID + 1)
    case ClaimNext(worker, id) =>
      && id in s.jobs && Eligible(s.jobs[id], now)
      && (forall k :: k in s.jobs && Eligible(s.jobs[k], now) ==> s.jobs[id].createdAt <= s.jobs[k].createdAt)
      && s' == s.(jobs := s.jobs[id := Claimed(s.jobs[id], worker, now)])
    case RecoverLeases(order) =>
      && Distinct(order)
      && (forall id :: id in order ==> id in ExpiredIDs(s, now))
      && s' == RecoverAll(s, order, now)
    case MarkSubmitted(id, downloadID) =>
      id in s.jobs && s' == s.(jobs := s.jobs[id := SubmittedAs(s.jobs[id], downloadID, now)])
    case UpdateProgress(id, status, output, err) =>
      id in s.jobs && s' == s.(jobs := s.jobs[id := Progressed(s.jobs[id], status, output, err, now)])
    case MarkImported(id, imported) =>
      id in s.jobs && s' == s.(jobs := s.jobs[id := s.jobs[id].(imported := imported, updatedAt := now)])
    case Reschedule(id, err, notBefore, terminal) =>
      id in s.jobs && s' == s.(jobs := s.jobs[id := Rescheduled(s.jobs[id], err, notBefore, terminal, now)])
    case RetryJob(id) =>
      id in s.jobs && s' == s.(jobs := s.jobs[id := Retried(s.jobs[id], now)])
    case AddEvent(event) =>
      event.jobID in s.jobs && s' == Logged(s, event.(createdAt := now))
  }

  /** Jobs sit under their own ids and every id handed out so far is below the counter. */
  ghost predicate Valid(s: State) {
    && (forall id :: id in s.jobs ==> s.jobs[id].id == id && 1 <= id < s.nextJobID)
    && 1 <= s.nextJobID
  }

  class Store {
    var nextJobID: int
    var nextEventID: int
    var jobs: map<int, Job>
    var events: map<int, seq<Event>>

    ghost function Snapshot(): State
      reads this
    {
      State(jobs, events, nextJobID, nextEventID)
    }

    constructor ()
      ensures Snapshot() == State(map[], map[], 1, 1) && Valid(Snapshot())
    {
      nextJobID, nextEventID, jobs, events := 1, 1, map[], map[];
    }

    method Create(job: Job, now: Time) returns (created: Job)
      requires Valid(Snapshot())
      modifies this
      ensures Valid(Snapshot()) && Step(old(Snapshot()), Snapshot(), CreateJob(job), now)
      ensures created.id in jobs && jobs[created.id] == created && created.id !in old(jobs)
    {
      created := job;
      if created.maxAttempts <= 0 {
        created := created.(maxAttempts := 3);
      }
      if created.notBefore == ZERO_TIME {
        created := created.(notBefore := now);
      }
      created := created.(id := nextJobID, status := Queued, attempts := 0, imported := false, createdAt := now,
                          updatedAt := now);
      nextJobID := nextJobID + 1;
      jobs := jobs[created.id := created];
    }

    method GetJob(id: int) returns (r: Result<Job, Error>)
      ensures r == if id in jobs then Ok(jobs[id]) else Err(NotFound)
    {
      if id !in jobs {
        return Err(NotFound);
      }
      r := Ok(jobs[id]);
    }

    /** The oldest eligible job, whatever the order in which the map is walked. */
    method ClaimNextQueued(worker: string, now: Time) returns (r: Option<Job>)
      requires Valid(Snapshot())
      modifies this
      ensures Valid(Snapshot())
      ensures r.None? ==> Snapshot() == old(Snapshot()) && forall k :: k in jobs ==> !Eligible(jobs[k], now)
      ensures r.Some? ==>
                && r.value.id in jobs && jobs[r.value.id] == r.value
                && Step(old(Snapshot()), Snapshot(), ClaimNext(worker, r.value.id), now)
    {
      var selected: Option<Job> := None;
      var rest := jobs.Keys;
      while rest != {}
        modifies {}
        invariant rest <= jobs.Keys
        invariant selected.Some? ==>
                    selected.value.id in jobs && jobs[selected.value.id] == selected.value
                        && Eligible(selected.value, now)
        invariant forall k :: k in jobs && k !in rest && Eligible(jobs[k], now) ==>
                    selected.Some? && selected.value.createdAt <= jobs[k].createdAt
      {
        var id := Pick(rest);
        rest := rest - {id};
        var job := jobs[id];
        if job.status == Queued && !(job.notBefore > now) {
          if selected.None? || job.createdAt < selected.value.createdAt {
            selected := Some(job);
          }
        }
      }
      if selected.None? {
        return None;
      }
      var job := selected.value;
      job := job.(status := Submitted, attempts := job.attempts + 1);
      job := job.(lockedAt := Some(now), lockedBy := worker, lease := Some(now + TTL), updatedAt := now);
      jobs := jobs[job.id := job];
      r := Some(job);
    }

    /** Recovers exactly `min(limit, number expired)` jobs, each with one event under a fresh id. */
    method RecoverExpiredLeases(now: Time, limit: int) returns (recovered: nat, ghost order: seq<int>)
      requires Valid(Snapshot())
      modifies this
      ensures Valid(Snapshot()) && Step(old(Snapshot()), Snapshot(), RecoverLeases(order), now)
      ensures recovered == |order|
      ensures var max := if limit <= 0 then 100 else limit;
              var expired := |ExpiredIDs(old(Snapshot()), now)|;
              recovered == if expired < max then expired else max
    {
      hide RecoverOne, Recovered, Logged, EventsOf, Valid, Backoff, Step;
      var max := if limit <= 0 then 100 else limit;
      ghost var s0 := Snapshot();
      ghost var expired := ExpiredIDs(s0, now);
      recovered, order := 0, [];
      var rest := jobs.Keys;
      while rest != {}
        invariant rest <= s0.jobs.Keys == jobs.Keys
        invariant forall id :: id in order ==> id in expired && id !in rest
        invariant Distinct(order) && recovered == |order| <= max
        invariant Snapshot() == RecoverAll(s0, order, now)
        invariant forall id :: id in rest ==> jobs[id] == s0.jobs[id]
        invariant forall id :: id in expired && id !in rest ==> id in order
        invariant Valid(Snapshot())
        decreases rest
      {
        if recovered >= max {
          break;
        }
        var id := Pick(rest);
        rest := rest - {id};
        if jobs[id].status != Submitted || jobs[id].lease.None? || jobs[id].lease.value > now {
          continue;
        }
        assert (order + [id])[..|order|] == order;
        RecoverLease(id, now);
        recovered := recovered + 1;
        order := order + [id];
      }
      DistinctWithin(order, expired);
      RecoverStep(s0, Snapshot(), order, now);
    }

    /** The body of the recovery loop, for a job whose lease has expired. */
    method RecoverLease(id: int, now: Time)
      requires Valid(Snapshot()) && id in jobs
      modifies this
      ensures Valid(Snapshot()) && Snapshot() == RecoverOne(old(Snapshot()), id, now)
      ensures jobs == old(jobs)[id := Recovered(old(jobs)[id], now)]
    {
      var job := jobs[id];
      var nextAttempt := job.attempts + 1;
      job := job.(attempts := nextAttempt, lastError := "lease expired; recovered", lockedAt := None, lockedBy := "",
                  lease := None, updatedAt := now);
      if nextAttempt >= job.maxAttempts {
        job := job.(status := Failed, notBefore := now);
      } else {
        job := job.(status := Queued, notBefore := now + Backoff(nextAttempt));
      }
      jobs := jobs[id := job];
      var event := Event(nextEventID, job.id, "lease_recovered", "submitted lease expired; job recovered", now);
      nextEventID := nextEventID + 1;
      events := events[job.id := (if job.id in events then events[job.id] else []) + [event]];
    }

    method Submit(id: int, downloadID: string, now: Time) returns (r: Result<(), Error>)
      requires Valid(Snapshot())
      modifies this
      ensures Valid(Snapshot())
      ensures id !in old(jobs) ==> r == Err(NotFound) && Snapshot() == old(Snapshot())
      ensures id in old(jobs) ==> r == Ok(()) && Step(old(Snapshot()), Snapshot(), MarkSubmitted(id, downloadID), now)
    {
      if id !in jobs {
        return Err(NotFound);
      }
      var job := jobs[id];
      job := job.(downloadID := downloadID, status := Downloading, lockedAt := None, lockedBy := "", lease := None,
                  updatedAt := now);
      jobs := jobs[id := job];
      r := Ok(());
    }

    method Update(id: int, status: Status, output: string, err: string, now: Time) returns (r: Result<(), Error>)
      requires Valid(Snapshot())
      modifies this
      ensures Valid(Snapshot())
      ensures id !in old(jobs) ==> r == Err(NotFound) && Snapshot() == old(Snapshot())
      ensures id in old(jobs) ==>
                r == Ok(()) && Step(old(Snapshot()), Snapshot(), UpdateProgress(id, status, output, err), now)
    {
      if id !in jobs {
        return Err(NotFound);
      }
      var job := jobs[id].(status := status, lastError := err);
      if output != "" {
        job := job.(outputPath := output);
      }
      jobs := jobs[id := job.(lease := None, updatedAt := now)];
      r := Ok(());
    }

    method Cancel(id: int, now: Time) returns (r: Result<(), Error>)
      requires Valid(Snapshot())
      modifies this
      ensures Valid(Snapshot())
      ensures id !in old(jobs) ==> r == Err(NotFound) && Snapshot() == old(Snapshot())
      ensures id in old(jobs) ==>
                r == Ok(()) && Step(old(Snapshot()), Snapshot(), UpdateProgress(id, Canceled, "", ""), now)
    {
      r := Update(id, Canceled, "", "", now);
    }

    method SetImported(id: int, imported: bool, now: Time) returns (r: Result<(), Error>)
      requires Valid(Snapshot())
      modifies this
      ensures Valid(Snapshot())
      ensures id !in old(jobs) ==> r == Err(NotFound) && Snapshot() == old(Snapshot())
      ensures id in old(jobs) ==> r == Ok(()) && Step(old(Snapshot()), Snapshot(), MarkImported(id, imported), now)
    {
      if id !in jobs {
        return Err(NotFound);
      }
      jobs := jobs[id := jobs[id].(imported := imported, updatedAt := now)];
      r := Ok(());
    }

    method RescheduleJob(id: int, err: string, notBefore: Time, terminal: bool, now: Time)
      returns (r: Result<(), Error>)
      requires Valid(Snapshot())
      modifies this
      ensures Valid(Snapshot())
      ensures id !in old(jobs) ==> r == Err(NotFound) && Snapshot() == old(Snapshot())
      ensures id in old(jobs) ==>
                r == Ok(()) && Step(old(Snapshot()), Snapshot(), Reschedule(id, err, notBefore, terminal), now)
    {
      if id !in jobs {
        return Err(NotFound);
      }
      var job := jobs[id];
      if terminal || job.attempts >= job.maxAttempts {
        job := job.(status := Failed);
      } else {
        job := job.(status := Queued);
      }
      jobs := jobs[id := job.(lastError := err, notBefore := notBefore, lockedAt := None, lockedBy := "",
                              lease := None, updatedAt := now)];
      r := Ok(());
    }

    method Retry(id: int, now: Time) returns (r: Result<(), Error>)
      requires Valid(Snapshot())
      modifies this
      ensures Valid(Snapshot())
      ensures id !in old(jobs) ==> r == Err(NotFound) && Snapshot() == old(Snapshot())
      ensures id in old(jobs) ==> r == Ok(()) && Step(old(Snapshot()), Snapshot(), RetryJob(id), now)
    {
      if id !in jobs {
        return Err(NotFound);
      }
      jobs := jobs[id := jobs[id].(status := Queued, lastError := "", notBefore := now, lockedAt := None,
                                   lockedBy := "",
                                   lease := None, updatedAt := now)];
      r := Ok(());
    }

    method LogEvent(event: Event, now: Time) returns (r: Result<Event, Error>)
      requires Valid(Snapshot())
      modifies this
      ensures Valid(Snapshot())
      ensures event.jobID !in old(jobs) ==> r == Err(NotFound) && Snapshot() == old(Snapshot())
      ensures event.jobID in old(jobs) ==> Step(old(Snapshot()), Snapshot(), AddEvent(event), now)
      ensures event.jobID in old(jobs) ==> r == Ok(event.(id := old(nextEventID), createdAt := now))
    {
      if event.jobID !in jobs {
        return Err(NotFound);
      }
      var stored := event.(id := nextEventID);
      nextEventID := nextEventID + 1;
      stored := stored.(createdAt := now);
      events := events[stored.jobID := (if stored.jobID in events then events[stored.jobID] else []) + [stored]];
      r := Ok(stored);
    }
  }

  lemma RecoverStep(s: State, s': State, order: seq<int>, now: Time)
    requires Distinct(order) && forall id :: id in order ==> id in s.jobs && id in ExpiredIDs(s, now)
    requires s' == RecoverAll(s, order, now)
    ensures Step(s, s', RecoverLeases(order), now)
  {
  }

  /** Distinct members of a set are at most as many as the set, and all of it only if they exhaust it. */
  lemma {:induction false} DistinctWithin(order: seq<int>, s: set<int>)
    requires Distinct(order) && forall id :: id in order ==> id in s
    ensures |order| <= |s|
    ensures (forall id :: id in s ==> id in order) ==> |order| == |s|
  {
    if order == [] {
      assert (forall id :: id in s ==> id in order) ==> s == {};
    } else {
      var last := order[|order| - 1];
      var front := order[..|order| - 1];
      assert forall id :: id in order <==> id in front || id == last;
      assert last !in front;
      DistinctWithin(front, s - {last});
    }
  }

  function RecoveryEvent(eventID: int, jobID: int, now: Time): Event {
    Event(eventID, jobID, "lease_recovered", "submitted lease expired; job recovered", now)
  }

  /** A recovery pass applies `Recovered` to the chosen jobs and to no other. */
  lemma {:induction false} RecoveryPassJobs(s: State, order: seq<int>, now: Time)
    requires Distinct(order) && forall id :: id in order ==> id in s.jobs
    ensures var s' := RecoverAll(s, order, now);
            && s'.nextEventID == s.nextEventID + |order| && s'.nextJobID == s.nextJobID
            && forall id :: id in s.jobs ==>
               s'.jobs[id] == if id in order then Recovered(s.jobs[id], now) else s.jobs[id]
  {
    if order != [] {
      var n := |order| - 1;
      assert forall id :: id in order <==> id in order[..n] || id == order[n];
      assert order[n] !in order[..n];
      RecoveryPassJobs(s, order[..n], now);
    }
  }

  lemma RecoverOneLogs(s: State, id: int, now: Time, k: int)
    requires id in s.jobs
    ensures EventsOf(RecoverOne(s, id, now), k) ==
            if k == id then EventsOf(s, id) + [RecoveryEvent(s.nextEventID, id, now)] else EventsOf(s, k)
  {
  }

  lemma {:induction false} RecoveryPassSpares(s: State, order: seq<int>, now: Time, id: int)
    requires id !in order && forall k :: k in order ==> k in s.jobs
    ensures EventsOf(RecoverAll(s, order, now), id) == EventsOf(s, id)
  {
    if order != [] {
      var front := order[..|order| - 1];
      RecoveryPassSpares(s, front, now, id);
      RecoverOneLogs(RecoverAll(s, front, now), order[|order| - 1], now, id);
    }
  }

  /** It logs exactly one event for each of them, under consecutive fresh ids. */
  lemma {:induction false} RecoveryPassLogs(s: State, order: seq<int>, now: Time, k: nat)
    requires Distinct(order) && (forall id :: id in order ==> id in s.jobs) && k < |order|
    ensures EventsOf(RecoverAll(s, order, now), order[k]) ==
            EventsOf(s, order[k]) + [RecoveryEvent(s.nextEventID + k, order[k], now)]
  {
    hide RecoverOne, EventsOf, RecoveryEvent;
    var n := |order| - 1;
    var front := order[..n];
    assert forall id :: id in front ==> id in order;
    if k < n {
      RecoveryPassLogs(s, front, now, k);
      RecoverOneLogs(RecoverAll(s, front, now), order[n], now, order[k]);
    } else {
      RecoveryPassJobs(s, front, now);
      RecoveryPassSpares(s, front, now, order[n]);
      RecoverOneLogs(RecoverAll(s, front, now), order[n], now, order[n]);
    }
  }
}
