/**
  The download manager's workers and API as steps over the store. Workers may be interleaved in any
  way and act on stale copies of jobs; the download client answers arbitrarily.
*/
module DownloadWorkers {
  import opened Wrappers
  import opened Text
  import L = LeaseMachine
  import opened DownloadStore
  import opened DownloadRuns

  /** The client's state text, as `normalizeState` reads it. */
  function NormalizeState(state: string): (status: Status)
    ensures status != Queued
  {
    var s := ToLower(Trim(state));
    if s == "queued" || s == "submitted" then Submitted
    else if s == "repairing" then Repairing
    else if s == "unpacking" then Unpacking
    else if s == "completed" then Completed
    else if s == "failed" then Failed
    else if s == "canceled" then Canceled
    else Downloading
  }

  predicate Active(status: Status) {
    status == Submitted || status == Downloading || status == Repairing || status == Unpacking
  }

  /**
    The store, the claimed submissions whose outcome no worker has recorded yet, and the listed jobs no poll
    worker has asked about yet. A job recovered under a slow worker can be in flight twice.
  */
  datatype System = System(store: State, inflight: multiset<int>, polled: multiset<int>)

  datatype Action =
    | Enqueue(job: Job)                                             // enqueueGrabCandidate
    | ClaimForSubmit(worker: string, id: int)                       // submitWorker takes a job
    | SubmitAccepted(id: int, downloadID: string)                   // the client took the download
    | SubmitFailed(id: int, err: string, notBefore: L.Time, terminal: bool)
    | SubmitReplaced(id: int, err: string)                          // a fallback candidate replaced the job
    | PollList(ids: set<int>)                                       // pollWorker lists jobs
    | PollResult(id: int, state: string, output: string)            // the client reported a state
    | PollFailed(id: int, err: string)                              // the client lost the download or failed
    | Recovery(order: seq<int>)
    | Cancel(id: int)
    | Retry(id: int)
    | Imported(id: int, imported: bool)
    | Note(event: Event)

  /** The store operation an action performs; listing jobs performs none. */
  function OpOf(a: Action): Option<Op> {
    match a
    case Enqueue(job) => Some(CreateJob(job))
    case ClaimForSubmit(worker, id) => Some(ClaimNext(worker, id))
    case SubmitAccepted(id, downloadID) => Some(MarkSubmitted(id, downloadID))
    case SubmitFailed(id, err, notBefore, terminal) => Some(Reschedule(id, err, notBefore, terminal))
    case SubmitReplaced(id, err) => Some(UpdateProgress(id, Failed, "", err))
    case PollList(_) => None
    case PollResult(id, state, output) => Some(UpdateProgress(id, NormalizeState(state), output, ""))
    case PollFailed(id, err) => Some(UpdateProgress(id, Failed, "", err))
    case Recovery(order) => Some(RecoverLeases(order))
    case Cancel(id) => Some(UpdateProgress(id, Canceled, "", ""))
    case Retry(id) => Some(RetryJob(id))
    case Imported(id, imported) => Some(MarkImported(id, imported))
    case Note(event) => Some(AddEvent(event))
  }

  /** What the manager guarantees about the arguments it passes, given non-blank ids from the client. */
  ghost predicate Guard(y: System, a: Action) {
    match a
    case Enqueue(job) => job.lease == None && job.lockedAt == None
    case SubmitAccepted(id, downloadID) => id in y.inflight && !Blank(downloadID)
    case SubmitFailed(id, _, _, _) => id in y.inflight
    case SubmitReplaced(id, _) => id in y.inflight
    case PollList(ids) =>
      forall id :: id in ids ==>
          id in y.store.jobs && Active(y.store.jobs[id].status) && !Blank(y.store.jobs[id].downloadID)
    case PollResult(id, _, _) => id in y.polled
    case PollFailed(id, _) => id in y.polled
    case _ => true
  }

  function InFlightAfter(y: System, a: Action): multiset<int> {
    match a
    case ClaimForSubmit(_, id) => y.inflight + multiset{id}
    case SubmitAccepted(id, _) => y.inflight - multiset{id}
    case SubmitFailed(id, _, _, _) => y.inflight - multiset{id}
    case SubmitReplaced(id, _) => y.inflight - multiset{id}
    case _ => y.inflight
  }

  function PolledAfter(y: System, a: Action): multiset<int> {
    match a
    case PollList(ids) => y.polled + multiset(ids)
    case PollResult(id, _, _) => y.polled - multiset{id}
    case PollFailed(id, _) => y.polled - multiset{id}
    case _ => y.polled
  }

  ghost predicate SystemStep(y: System, y': System, a: Action, now: L.Time) {
    && Guard(y, a)
    && y'.inflight == InFlightAfter(y, a) && y'.polled == PolledAfter(y, a)
    && (if OpOf(a).None? then y'.store == y.store else Step(y.store, y'.store, OpOf(a).value, now))
  }

  /** Some worker or timer still owns every job that has not ended. */
  predicate Healthy(j: Job) {
    match j.status
    case Queued => j.lease == None
    case Submitted => (j.lockedAt.Some? && j.lease == Some(j.lockedAt.value + L.TTL))
        || (j.lease == None && !Blank(j.downloadID))
    case Downloading => j.lease == None && !Blank(j.downloadID)
    case Repairing => j.lease == None && !Blank(j.downloadID)
    case Unpacking => j.lease == None && !Blank(j.downloadID)
    case Completed => j.lease == None
    case Failed => j.lease == None
    case Canceled => j.lease == None
  }

  ghost predicate NotStranded(y: System) {
    && (forall id :: id in y.store.jobs ==> Healthy(y.store.jobs[id]))
    && (forall id :: id in y.polled ==> id in y.store.jobs && !Blank(y.store.jobs[id].downloadID))
  }

  lemma RecoveredJobs(s: State, order: seq<int>, now: L.Time)
    requires Distinct(order) && forall id :: id in order ==> id in ExpiredIDs(s, now)
    ensures forall id :: id in order ==> id in s.jobs
    ensures var jobs := RecoverAll(s, order, now).jobs;
            forall id :: id in jobs ==>
                id in s.jobs && jobs[id] == if id in order then Recovered(s.jobs[id], now) else s.jobs[id]
  {
    RecoveryPassJobs(s, order, now);
  }

  lemma StepKeepsHealthy(y: System, y': System, a: Action, now: L.Time, id: int)
    requires Valid(y.store) && NotStranded(y) && SystemStep(y, y', a, now)
    requires id in y'.store.jobs
    ensures Healthy(y'.store.jobs[id])
  {
    hide Blank, NormalizeState, Valid, InFlightAfter, PolledAfter, Step, Healthy;
    if OpOf(a).Some? {
      StoreKeepsHealthy(y.store, y'.store, a, now, id);
    }
  }

  lemma StoreKeepsHealthy(s: State, s': State, a: Action, now: L.Time, id: int)
    requires Valid(s) && OpOf(a).Some? && Step(s, s', OpOf(a).value, now) && id in s'.jobs
    requires id in s.jobs ==> Healthy(s.jobs[id])
    requires a.Enqueue? ==> a.job.lease == None && a.job.lockedAt == None
    requires a.SubmitAccepted? ==> !Blank(a.downloadID)
    requires a.PollResult? || a.PollFailed? ==> a.id in s.jobs && !Blank(s.jobs[a.id].downloadID)
    ensures Healthy(s'.jobs[id])
  {
    hide Blank, NormalizeState, RecoverAll, Valid, ExpiredIDs, EventsOf;
    match a {
      case Recovery(order) => RecoveredJobs(s, order, now);
      case _ =>
    }
  }

  // a download id, once set, is never blanked, so a poll may act on a stale list
  lemma DownloadIDsStay(s: State, s': State, a: Action, now: L.Time, id: int)
    requires Valid(s) && OpOf(a).Some? && Step(s, s', OpOf(a).value, now)
    requires a.SubmitAccepted? ==> !Blank(a.downloadID)
    requires id in s.jobs && !Blank(s.jobs[id].downloadID)
    ensures id in s'.jobs && !Blank(s'.jobs[id].downloadID)
  {
    hide Blank;
    match a {
      case Recovery(order) => RecoveryPassJobs(s, order, now);
      case _ =>
    }
  }

  lemma StepStrandsNothing(y: System, y': System, a: Action, now: L.Time)
    requires Valid(y.store) && NotStranded(y) && SystemStep(y, y', a, now)
    ensures Valid(y'.store) && NotStranded(y')
  {
    hide Healthy, Step, Valid, Blank;
    if OpOf(a).Some? {
      StepKeepsValid(y.store, y'.store, OpOf(a).value, now);
    }
    forall id | id in y'.store.jobs
      ensures Healthy(y'.store.jobs[id])
    {
      StepKeepsHealthy(y, y', a, now, id);
    }
    forall id | id in y.polled && OpOf(a).Some?
      ensures id in y'.store.jobs && !Blank(y'.store.jobs[id].downloadID)
    {
      DownloadIDsStay(y.store, y'.store, a, now, id);
    }
  }

  ghost predicate SystemRun(ys: seq<System>, actions: seq<Action>, times: seq<L.Time>) {
    && |ys| == |actions| + 1 && |times| == |actions|
    && ys[0] == System(State(map[], map[], 1, 1), multiset{}, multiset{})
    && (forall i :: 0 <= i < |actions| ==> SystemStep(ys[i], ys[i + 1], actions[i], times[i]))
    && (forall i, k :: 0 <= i <= k < |times| ==> times[i] <= times[k])
  }

  /** No job is ever stranded, in any reachable state. */
  lemma {:induction false} NoJobIsStranded(ys: seq<System>, actions: seq<Action>, times: seq<L.Time>, i: nat)
    requires SystemRun(ys, actions, times) && i <= |actions|
    ensures Valid(ys[i].store) && NotStranded(ys[i])
  {
    if i > 0 {
      NoJobIsStranded(ys, actions, times, i - 1);
      StepStrandsNothing(ys[i - 1], ys[i], actions[i - 1], times[i - 1]);
    }
  }

  // ---- what the client's words come to

  /** The client was asked about the job and answered with this word, in whatever case and with spaces around it. */
  predicate Reports(a: Action, id: int, word: string) {
    a.PollResult? && a.id == id && ToLower(Trim(a.state)) == word
  }

  predicate ReportsKnownWord(a: Action, id: int) {
    exists word :: word in {"queued", "submitted", "repairing", "unpacking", "completed", "failed", "canceled"}
                   && Reports(a, id, word)
  }

  /** The action is about this job and sets its status. */
  predicate Touches(a: Action, id: int) {
    match a
    case Recovery(order) => id in order
    case ClaimForSubmit(_, i) => i == id
    case SubmitAccepted(i, _) => i == id
    case SubmitFailed(i, _, _, _) => i == id
    case SubmitReplaced(i, _) => i == id
    case PollResult(i, _, _) => i == id
    case PollFailed(i, _) => i == id
    case Cancel(i) => i == id
    case Retry(i) => i == id
    case _ => false
  }

  /** Exactly which actions on the job lead to which status, from the client's word itself. */
  ghost predicate StatusFits(j: Job, j': Job, a: Action, id: int) {
    && (j'.status == Completed <==> Reports(a, id, "completed"))
    && (j'.status == Canceled <==> a == Cancel(id) || Reports(a, id, "canceled"))
    && (j'.status == Failed <==>
          || Reports(a, id, "failed") || a.PollFailed? || a.SubmitReplaced?
          || (a.SubmitFailed? && (a.terminal || j.attempts >= j.maxAttempts))
          || (a.Recovery? && j.attempts + 1 >= j.maxAttempts))
    && (j'.status == Submitted <==> a.ClaimForSubmit? || Reports(a, id, "queued") || Reports(a, id, "submitted"))
    && (j'.status == Repairing <==> Reports(a, id, "repairing"))
    && (j'.status == Unpacking <==> Reports(a, id, "unpacking"))
    && (j'.status == Downloading <==> a.SubmitAccepted? || (a.PollResult? && !ReportsKnownWord(a, id)))
    && j'.outputPath == if a.PollResult? && a.output != "" then a.output else j.outputPath
  }

  /** A step changes the status and output path of a job only if it is about it, and then to what fits the action. */
  lemma StatusAfterStep(y: System, y': System, a: Action, now: L.Time, id: int)
    requires Valid(y.store) && SystemStep(y, y', a, now) && id in y.store.jobs
    ensures id in y'.store.jobs
    ensures var j, j' := y.store.jobs[id], y'.store.jobs[id];
            if Touches(a, id) then StatusFits(j, j', a, id)
            else j'.status == j.status && j'.outputPath == j.outputPath
  {
    hide ReportsKnownWord, Trim, ToLower, Valid, InFlightAfter, PolledAfter, EventsOf, RecoverAll, ExpiredIDs,
        L.Backoff, NormalizeState, StatusFits;
    match a {
      case PollList(_) =>
      case Recovery(order) =>
        RecoveredJobs(y.store, order, now);
        RecoveredFits(y.store.jobs[id], a, now, id);
      case Enqueue(job) => FreshID(y.store, id);
      case PollResult(i, _, _) =>
        if i == id {
          ReportFits(y.store.jobs[id], a, now, id);
        }
      case _ => OtherFits(y.store.jobs[id], y'.store.jobs[id], y.store, y'.store, a, now, id);
    }
  }

  lemma ReportFits(j: Job, a: Action, now: L.Time, id: int)
    requires a.PollResult? && a.id == id
    ensures StatusFits(j, Progressed(j, NormalizeState(a.state), a.output, "", now), a, id)
  {
    KnownWords(a, id);
    hide ReportsKnownWord, Trim, ToLower;
  }

  lemma RecoveredFits(j: Job, a: Action, now: L.Time, id: int)
    requires a.Recovery?
    ensures StatusFits(j, Recovered(j, now), a, id)
  {
    hide L.Backoff;
  }

  lemma OtherFits(j: Job, j': Job, s: State, s': State, a: Action, now: L.Time, id: int)
    requires !a.PollResult? && !a.Recovery? && !a.PollList? && !a.Enqueue?
    requires id in s.jobs && s.jobs[id] == j && Step(s, s', OpOf(a).value, now) && id in s'.jobs && s'.jobs[id] == j'
    ensures if Touches(a, id) then StatusFits(j, j', a, id) else j'.status == j.status && j'.outputPath == j.outputPath
  {
    hide ReportsKnownWord, Trim, ToLower, EventsOf, NormalizeState, Eligible;
  }

  /** The error on record is that of the last failure, and an answer, a cancel or a retry clears it. */
  lemma ErrorAfterStep(y: System, y': System, a: Action, now: L.Time, id: int)
    requires SystemStep(y, y', a, now) && id in y.store.jobs && Touches(a, id) && id in y'.store.jobs
    ensures a.PollResult? || a.Cancel? || a.Retry? ==> y'.store.jobs[id].lastError == ""
    ensures a.PollFailed? ==> y'.store.jobs[id].lastError == a.err
    ensures a.SubmitReplaced? ==> y'.store.jobs[id].lastError == a.err
    ensures a.SubmitFailed? ==> y'.store.jobs[id].lastError == a.err
  {
    hide NormalizeState, InFlightAfter, PolledAfter, RecoverAll, ExpiredIDs;
  }

  lemma KnownWords(a: Action, id: int)
    ensures ReportsKnownWord(a, id)
            <==> || Reports(a, id, "queued") || Reports(a, id, "submitted") || Reports(a, id, "repairing")
                 || Reports(a, id, "unpacking") || Reports(a, id, "completed") || Reports(a, id, "failed")
                 || Reports(a, id, "canceled")
  {
    hide Reports;
  }

  lemma NewJobIsQueued(y: System, y': System, a: Action, now: L.Time, id: int)
    requires Valid(y.store) && SystemStep(y, y', a, now) && id !in y.store.jobs && id in y'.store.jobs
    ensures y'.store.jobs[id].status == Queued && y'.store.jobs[id].attempts == 0
  {
    hide Valid, EventsOf, RecoverAll, ExpiredIDs, Claimed, Progressed, SubmittedAs, Rescheduled, Retried, Recovered,
        InFlightAfter, PolledAfter, NormalizeState;
    if a.Recovery? {
      RecoveredJobs(y.store, a.order, now);
    }
  }

  /** In every reachable state a completed job was reported completed by the client and left alone since. */
  lemma {:induction false} CompletedWasReported(ys: seq<System>, actions: seq<Action>, times: seq<L.Time>, id: int,
                                                n: nat) returns (k: nat)
    requires SystemRun(ys, actions, times) && n <= |actions|
    requires id in ys[n].store.jobs && ys[n].store.jobs[id].status == Completed
    ensures k < n && Reports(actions[k], id, "completed")
    ensures forall m :: k < m < n ==> !Touches(actions[m], id)
    ensures actions[k].output != "" ==> ys[n].store.jobs[id].outputPath == actions[k].output
  {
    hide SystemStep, Valid, NotStranded, Touches, Reports, ReportsKnownWord;
    if n == 0 {
      assert false;
    }
    NoJobIsStranded(ys, actions, times, n - 1);
    assert SystemStep(ys[n - 1], ys[n], actions[n - 1], times[n - 1]);
    if id !in ys[n - 1].store.jobs {
      NewJobIsQueued(ys[n - 1], ys[n], actions[n - 1], times[n - 1], id);
      assert false;
    } else {
      StatusAfterStep(ys[n - 1], ys[n], actions[n - 1], times[n - 1], id);
      if Touches(actions[n - 1], id) {
        k := n - 1;
        ReportIsPoll(actions[k], id, "completed");
      } else {
        k := CompletedWasReported(ys, actions, times, id, n - 1);
      }
    }
  }

  lemma ReportIsPoll(a: Action, id: int, word: string)
    ensures Reports(a, id, word) ==> a.PollResult?
  {
  }

  // ---- cancel

  predicate IsCanceled(y: System, id: int) {
    id in y.store.jobs && y.store.jobs[id].status == Canceled
  }

  /** The steps that overwrite a cancel: outcomes of a submission, poll answers other than canceled, and a retry. */
  predicate Revives(a: Action, id: int) {
    match a
    case SubmitAccepted(i, _) => i == id
    case SubmitFailed(i, _, _, _) => i == id
    case SubmitReplaced(i, _) => i == id
    case PollResult(i, state, _) => i == id && ToLower(Trim(state)) != "canceled"
    case PollFailed(i, _) => i == id
    case Retry(i) => i == id
    case _ => false
  }

  /** A canceled job stays canceled over a step if and only if the step is none of those. */
  lemma CanceledUnlessRevived(y: System, y': System, a: Action, now: L.Time, id: int)
    requires Valid(y.store) && SystemStep(y, y', a, now) && IsCanceled(y, id)
    ensures id in y'.store.jobs
    ensures IsCanceled(y', id) <==> !Revives(a, id)
  {
    hide Blank, Trim, ToLower, RecoverAll, Valid, InFlightAfter, PolledAfter, EventsOf;
    match a {
      case PollList(_) =>
      case Recovery(order) => RecoveredJobs(y.store, order, now);
      case Enqueue(job) => FreshID(y.store, id);
      case _ =>
    }
  }

  lemma FreshID(s: State, id: int)
    requires Valid(s) && id in s.jobs
    ensures id != s.nextJobID
  {
  }

  /** No submission of the job is in flight, and no poll worker has it on its list. */
  predicate Quiet(y: System, id: int) {
    id !in y.inflight && id !in y.polled
  }

  lemma QuietStays(y: System, y': System, a: Action, now: L.Time, id: int)
    requires Valid(y.store) && SystemStep(y, y', a, now) && IsCanceled(y, id) && Quiet(y, id) && a != Retry(id)
    ensures IsCanceled(y', id) && Quiet(y', id)
  {
    CanceledUnlessRevived(y, y', a, now, id);
    hide Blank, NormalizeState, Valid, RecoverAll, ExpiredIDs, Logged, Claimed, Recovered, Progressed, SubmittedAs,
        Rescheduled;
  }

  /** Any further run of the system. */
  ghost predicate RunFrom(y: System, ys: seq<System>, actions: seq<Action>, times: seq<L.Time>) {
    && |ys| == |actions| + 1 && |times| == |actions| && ys[0] == y
    && (forall i :: 0 <= i < |actions| ==> SystemStep(ys[i], ys[i + 1], actions[i], times[i]))
  }

  /** Whatever happens, short of a retry by the operator, the job stays canceled. */
  ghost predicate CancelIsFinal(y: System, id: int) {
    forall ys, actions, times :: RunFrom(y, ys, actions, times) && Retry(id) !in actions ==>
        IsCanceled(ys[|actions|], id)
  }

  /** A cancel is final if and only if no submission of the job is in flight and no poll worker has listed it. */
  lemma CancelIsFinalIff(y: System, id: int)
    requires Valid(y.store) && IsCanceled(y, id)
    ensures CancelIsFinal(y, id) <==> Quiet(y, id)
  {
    if Quiet(y, id) {
      forall ys, actions, times | RunFrom(y, ys, actions, times) && Retry(id) !in actions
        ensures IsCanceled(ys[|actions|], id)
      {
        StaysQuiet(y, ys, actions, times, id, |actions|);
      }
    } else {
      var a := if id in y.inflight then SubmitAccepted(id, "dl-1") else PollFailed(id, "gone");
      var y';
      if id in y.inflight {
        y' := SubmissionRevives(y, id);
      } else {
        y' := PollRevives(y, id);
      }
      hide SystemStep, IsCanceled, Valid, Quiet;
      var ys, actions, times := [y, y'], [a], [0];
      assert RunFrom(y, ys, actions, times) && Retry(id) !in actions && !IsCanceled(ys[|actions|], id);
    }
  }

  lemma SubmissionRevives(y: System, id: int) returns (y': System)
    requires IsCanceled(y, id) && id in y.inflight
    ensures SystemStep(y, y', SubmitAccepted(id, "dl-1"), 0) && !IsCanceled(y', id)
  {
    TrimmedIsFixed("dl-1");
    hide Trim;
    var j := SubmittedAs(y.store.jobs[id], "dl-1", 0);
    y' := System(y.store.(jobs := y.store.jobs[id := j]), y.inflight - multiset{id}, y.polled);
  }

  lemma PollRevives(y: System, id: int) returns (y': System)
    requires IsCanceled(y, id) && id in y.polled
    ensures SystemStep(y, y', PollFailed(id, "gone"), 0) && !IsCanceled(y', id)
  {
    var j := Progressed(y.store.jobs[id], Failed, "", "gone", 0);
    y' := System(y.store.(jobs := y.store.jobs[id := j]), y.inflight, y.polled - multiset{id});
  }

  lemma {:induction false} StaysQuiet(y: System, ys: seq<System>, actions: seq<Action>, times: seq<L.Time>, id: int,
                                      n: nat)
    requires Valid(y.store) && IsCanceled(y, id) && Quiet(y, id)
    requires RunFrom(y, ys, actions, times) && Retry(id) !in actions && n <= |actions|
    ensures Valid(ys[n].store) && IsCanceled(ys[n], id) && Quiet(ys[n], id)
  {
    hide Valid, SystemStep, IsCanceled, Quiet;
    if n > 0 {
      StaysQuiet(y, ys, actions, times, id, n - 1);
      assert actions[n - 1] in actions;
      StoreStaysValid(ys[n - 1], ys[n], actions[n - 1], times[n - 1]);
      QuietStays(ys[n - 1], ys[n], actions[n - 1], times[n - 1], id);
    }
  }

  lemma StoreStaysValid(y: System, y': System, a: Action, now: L.Time)
    requires Valid(y.store) && SystemStep(y, y', a, now)
    ensures Valid(y'.store)
  {
    hide Step, Valid, Guard;
    if OpOf(a).Some? {
      StepKeepsValid(y.store, y'.store, OpOf(a).value, now);
    }
  }

  /** Over any run, a job canceled at `i` is canceled throughout to `n` if and only if no step between revives it. */
  lemma {:induction false} CanceledThroughoutIff(ys: seq<System>, actions: seq<Action>, times: seq<L.Time>, id: int,
                                                 i: nat, n: nat)
    requires SystemRun(ys, actions, times) && i <= n <= |actions| && IsCanceled(ys[i], id)
    ensures (forall k :: i <= k <= n ==> IsCanceled(ys[k], id))
            <==> (forall k :: i <= k < n ==> !Revives(actions[k], id))
    decreases n
  {
    hide SystemStep, Valid, NotStranded, IsCanceled, Revives;
    if i < n {
      CanceledThroughoutIff(ys, actions, times, id, i, n - 1);
      NoJobIsStranded(ys, actions, times, n - 1);
      if IsCanceled(ys[n - 1], id) {
        CanceledUnlessRevived(ys[n - 1], ys[n], actions[n - 1], times[n - 1], id);
      }
    }
  }

  /** From the empty store: a job claimed, canceled while its submission is in flight, and downloading after all. */
  lemma CanceledJobCanRevive(job: Job) returns (ys: seq<System>, actions: seq<Action>, times: seq<L.Time>)
    requires job.lease == None && job.lockedAt == None && job.notBefore == ZERO_TIME
    ensures SystemRun(ys, actions, times) && |actions| == 4
    ensures IsCanceled(ys[3], 1) && 1 in ys[4].store.jobs && ys[4].store.jobs[1].status == Downloading
  {
    var s0, s1 := State(map[], map[], 1, 1), State(map[1 := Initial(job, 1, 0)], map[], 2, 1);
    var s2 := s1.(jobs := map[1 := Claimed(s1.jobs[1], "w", 0)]);
    var s3 := s1.(jobs := map[1 := Progressed(s2.jobs[1], Canceled, "", "", 0)]);
    var y3 := System(s3, multiset{1}, multiset{});
    var y4 := SubmissionRevives(y3, 1);
    ys := [System(s0, multiset{}, multiset{}), System(s1, multiset{}, multiset{}),
           System(s2, multiset{1}, multiset{}), y3, y4];
    actions := [Enqueue(job), ClaimForSubmit("w", 1), Cancel(1), SubmitAccepted(1, "dl-1")];
    times := [0, 0, 0, 0];
    hide Blank, NormalizeState, RecoverAll, ExpiredIDs, Logged, SubmittedAs;
    assert SystemStep(ys[0], ys[1], actions[0], 0);
    assert SystemStep(ys[1], ys[2], actions[1], 0);
    assert SystemStep(ys[2], ys[3], actions[2], 0);
    SubmittedIsDownloading(y3, y4);
    hide SystemStep;
  }

  lemma SubmittedIsDownloading(y: System, y': System)
    requires SystemStep(y, y', SubmitAccepted(1, "dl-1"), 0)
    ensures 1 in y'.store.jobs && y'.store.jobs[1].status == Downloading
  {
    hide Blank;
  }

  // ---- a run of the system is a run of the store

  function StoreOps(actions: seq<Action>): seq<Op> {
    if actions == [] then []
    else
      var op := OpOf(actions[|actions| - 1]);
      StoreOps(actions[..|actions| - 1]) + if op.Some? then [op.value] else []
  }

  lemma StepsAreProper(y: System, y': System, a: Action, now: L.Time)
    requires SystemStep(y, y', a, now)
    ensures OpOf(a).Some? ==> Proper(OpOf(a).value)
  {
    hide NormalizeState;
  }

  /** Leaving out the listings, the store goes through a run of its own operations. */
  lemma {:induction false} SystemRunIsStoreRun(ys: seq<System>, actions: seq<Action>, times: seq<L.Time>, n: nat)
      returns (states: seq<State>, at: seq<L.Time>)
    requires SystemRun(ys, actions, times) && n <= |actions|
    ensures Run(states, StoreOps(actions[..n]), at) && states[0] == ys[0].store && states[|states| - 1] == ys[n].store
    ensures at == [] || (n > 0 && at[|at| - 1] <= times[n - 1])
    decreases n
  {
    hide Step, Guard;
    if n == 0 {
      states, at := [ys[0].store], [];
    } else {
      states, at := SystemRunIsStoreRun(ys, actions, times, n - 1);
      assert actions[..n][..n - 1] == actions[..n - 1];
      assert SystemStep(ys[n - 1], ys[n], actions[n - 1], times[n - 1]);
      StepsAreProper(ys[n - 1], ys[n], actions[n - 1], times[n - 1]);
      if OpOf(actions[n - 1]).Some? {
        RunSnoc(states, StoreOps(actions[..n - 1]), at, OpOf(actions[n - 1]).value, ys[n].store, times[n - 1]);
        states, at := states + [ys[n].store], at + [times[n - 1]];
      }
    }
  }

  lemma {:induction false} SameClaims(actions: seq<Action>, id: int)
    ensures ClaimsOf(StoreOps(actions), id) == SystemClaims(actions, id)
    ensures RetriesOf(StoreOps(actions), id) == SystemRetries(actions, id)
  {
    hide OpOf;
    if actions != [] {
      var a := actions[|actions| - 1];
      var front, op := StoreOps(actions[..|actions| - 1]), OpOf(a);
      SameClaims(actions[..|actions| - 1], id);
      ClaimsMean(a, id);
      assert front + [] == front;
      if op.Some? {
        assert (front + [op.value])[..|front|] == front;
      }
    }
  }

  lemma ClaimsMean(a: Action, id: int)
    ensures a.ClaimForSubmit? && a.id == id <==> OpOf(a).Some? && OpOf(a).value.ClaimNext? && OpOf(a).value.id == id
    ensures a == Retry(id) <==> OpOf(a) == Some(RetryJob(id))
  {
  }

  /** How often a submit worker takes the job. */
  function SystemClaims(actions: seq<Action>, id: int): nat {
    if actions == [] then 0
    else
      var a := actions[|actions| - 1];
      SystemClaims(actions[..|actions| - 1], id) + if a.ClaimForSubmit? && a.id == id then 1 else 0
  }

  function SystemRetries(actions: seq<Action>, id: int): nat {
    if actions == [] then 0
    else
      var a := actions[|actions| - 1];
      SystemRetries(actions[..|actions| - 1], id) + if a == Retry(id) then 1 else 0
  }

  /** Over any run of the workers, every job is submitted at most `MaxAttempts` times plus once per retry. */
  lemma SubmissionsAreBounded(ys: seq<System>, actions: seq<Action>, times: seq<L.Time>, id: int)
    requires SystemRun(ys, actions, times) && id in ys[|actions|].store.jobs
    ensures SystemClaims(actions, id) <= ys[|actions|].store.jobs[id].maxAttempts + SystemRetries(actions, id)
  {
    hide SystemStep, Step;
    var n := |actions|;
    var states, at := SystemRunIsStoreRun(ys, actions, times, n);
    assert actions[..n] == actions;
    ClaimsAreBounded(states, StoreOps(actions), at, id);
    SameClaims(actions, id);
  }

  // ---- what the workers have in hand

  /** How often the outcome of a submission of the job is recorded. */
  function Outcomes(actions: seq<Action>, id: int): nat {
    if actions == [] then 0
    else
      var a := actions[|actions| - 1];
      Outcomes(actions[..|actions| - 1], id)
      + if (a.SubmitAccepted? || a.SubmitFailed? || a.SubmitReplaced?) && a.id == id then 1 else 0
  }

  /** How often the job is listed by a poll worker. */
  function Listings(actions: seq<Action>, id: int): nat {
    if actions == [] then 0
    else
      var a := actions[|actions| - 1];
      Listings(actions[..|actions| - 1], id) + if a.PollList? && id in a.ids then 1 else 0
  }

  /** How often a listed job gets its answer. */
  function PollAnswers(actions: seq<Action>, id: int): nat {
    if actions == [] then 0
    else
      var a := actions[|actions| - 1];
      PollAnswers(actions[..|actions| - 1], id) + if (a.PollResult? || a.PollFailed?) && a.id == id then 1 else 0
  }

  /**
    Every claim has at most one outcome and every listing at most one answer: what is in flight are the claims
    without outcome, and what poll workers hold are the listings without answer.
  */
  lemma {:induction false} HandsAreExact(ys: seq<System>, actions: seq<Action>, times: seq<L.Time>, id: int, n: nat)
    requires SystemRun(ys, actions, times) && n <= |actions|
    ensures ys[n].inflight[id] + Outcomes(actions[..n], id) == SystemClaims(actions[..n], id)
    ensures ys[n].polled[id] + PollAnswers(actions[..n], id) == Listings(actions[..n], id)
  {
    hide Step, OpOf;
    if n > 0 {
      HandsAreExact(ys, actions, times, id, n - 1);
      assert SystemStep(ys[n - 1], ys[n], actions[n - 1], times[n - 1]);
      assert actions[..n][..n - 1] == actions[..n - 1];
      HandsChange(ys[n - 1], ys[n], actions[n - 1], times[n - 1], id);
    }
  }

  lemma HandsChange(y: System, y': System, a: Action, now: L.Time, id: int)
    requires SystemStep(y, y', a, now)
    ensures y'.inflight[id]
            + (if (a.SubmitAccepted? || a.SubmitFailed? || a.SubmitReplaced?) && a.id == id then 1 else 0)
            == y.inflight[id] + if a.ClaimForSubmit? && a.id == id then 1 else 0
    ensures y'.polled[id] + (if (a.PollResult? || a.PollFailed?) && a.id == id then 1 else 0)
            == y.polled[id] + if a.PollList? && id in a.ids then 1 else 0
  {
    hide Step, OpOf;
  }

  // ---- the event log

  /** One job's log: its own events, in the order of ids already handed out. */
  ghost predicate JobLog(events: seq<Event>, id: int, next: int) {
    && (forall i :: 0 <= i < |events| ==> events[i].jobID == id && 1 <= events[i].id < next)
    && (forall i, k :: 0 <= i < k < |events| ==> events[i].id < events[k].id)
  }

  ghost predicate NoSharedID(a: seq<Event>, b: seq<Event>) {
    forall i, k :: 0 <= i < |a| && 0 <= k < |b| ==> a[i].id != b[k].id
  }

  /** Event ids are handed out once over all jobs, and each job's log ascends. */
  ghost predicate LogInOrder(s: State) {
    && 1 <= s.nextEventID
    && (forall id :: JobLog(EventsOf(s, id), id, s.nextEventID))
    && (forall a, b :: a != b ==> NoSharedID(EventsOf(s, a), EventsOf(s, b)))
  }

  lemma AppendToLog(events: seq<Event>, other: seq<Event>, e: Event, id: int, otherID: int, next: int)
    requires JobLog(events, id, next) && JobLog(other, otherID, next) && NoSharedID(events, other)
    requires e.jobID == id && e.id == next && 1 <= next
    ensures JobLog(events + [e], id, next + 1) && JobLog(other, otherID, next + 1)
    ensures NoSharedID(events + [e], other) && NoSharedID(other, events + [e])
  {
  }

  lemma OtherLogs(a: seq<Event>, b: seq<Event>)
    requires NoSharedID(a, b)
    ensures NoSharedID(b, a)
  {
  }

  lemma LoggedAt(s: State, e: Event, id: int)
    ensures EventsOf(Logged(s, e), id) ==
            if id == e.jobID then EventsOf(s, id) + [e.(id := s.nextEventID)] else EventsOf(s, id)
  {
  }

  lemma LoggingKeepsOrder(s: State, e: Event)
    requires LogInOrder(s)
    ensures LogInOrder(Logged(s, e))
  {
    hide EventsOf, JobLog, NoSharedID;
    var s', own, stored := Logged(s, e), EventsOf(s, e.jobID), e.(id := s.nextEventID);
    forall id
      ensures JobLog(EventsOf(s', id), id, s'.nextEventID)
    {
      LoggedAt(s, e, id);
      NothingShared(s, e.jobID);
      var other := if id == e.jobID then [] else EventsOf(s, id);
      AppendToLog(own, other, stored, e.jobID, id, s.nextEventID);
    }
    forall a, b | a != b
      ensures NoSharedID(EventsOf(s', a), EventsOf(s', b))
    {
      LoggedAt(s, e, a);
      LoggedAt(s, e, b);
      if a == e.jobID {
        AppendToLog(own, EventsOf(s, b), stored, a, b, s.nextEventID);
      } else if b == e.jobID {
        OtherLogs(EventsOf(s, a), own);
        AppendToLog(own, EventsOf(s, a), stored, b, a, s.nextEventID);
      }
    }
  }

  lemma NothingShared(s: State, id: int)
    ensures JobLog([], id, s.nextEventID) && NoSharedID(EventsOf(s, id), [])
    ensures forall k :: JobLog([], k, s.nextEventID)
  {
  }

  lemma SameLogInOrder(s: State, s': State)
    requires LogInOrder(s) && s'.events == s.events && s'.nextEventID == s.nextEventID
    ensures LogInOrder(s')
  {
    assert forall id :: EventsOf(s', id) == EventsOf(s, id);
  }

  lemma {:induction false} RecoveryKeepsOrder(s: State, order: seq<int>, now: L.Time)
    requires LogInOrder(s) && forall id :: id in order ==> id in s.jobs
    ensures LogInOrder(RecoverAll(s, order, now))
  {
    hide LogInOrder;
    if order != [] {
      var front, last := order[..|order| - 1], order[|order| - 1];
      RecoveryKeepsOrder(s, front, now);
      var mid := RecoverAll(s, front, now);
      var moved := mid.(jobs := mid.jobs[last := Recovered(mid.jobs[last], now)]);
      SameLogInOrder(mid, moved);
      LoggingKeepsOrder(moved, RecoveryEvent(0, last, now));
    }
  }

  lemma StepKeepsLogInOrder(s: State, s': State, op: Op, now: L.Time)
    requires LogInOrder(s) && Step(s, s', op, now)
    ensures LogInOrder(s')
  {
    hide LogInOrder;
    match op {
      case RecoverLeases(order) => RecoveryKeepsOrder(s, order, now);
      case AddEvent(event) => LoggingKeepsOrder(s, event.(createdAt := now));
      case _ => SameLogInOrder(s, s');
    }
  }

  /** In every reachable state, event ids are unique over all jobs and each job's log ascends. */
  lemma {:induction false} LogStaysInOrder(ys: seq<System>, actions: seq<Action>, times: seq<L.Time>, i: nat)
    requires SystemRun(ys, actions, times) && i <= |actions|
    ensures LogInOrder(ys[i].store)
  {
    if i > 0 {
      LogStaysInOrder(ys, actions, times, i - 1);
      if OpOf(actions[i - 1]).Some? {
        StepKeepsLogInOrder(ys[i - 1].store, ys[i].store, OpOf(actions[i - 1]).value, times[i - 1]);
      }
    }
  }
}
