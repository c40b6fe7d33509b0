/**
  Candidate fallback: when the client cannot fetch a candidate, the manager grabs another one from
  the same search and queues a replacement job that remembers what was attempted.
*/
module Fallback {
  import opened Wrappers
  import opened Text
  import opened LeaseMachine
  import opened DownloadStore

  datatype Candidate = Candidate(id: int, searchRequestID: int, uri: string)

  datatype Grab = Grab(id: int, candidateID: int, entityID: string)

  datatype Failure = IndexerFailed | NoURI | NoClient

  // ---- attempted candidates

  function Positive(ids: seq<int>): (r: seq<int>)
    ensures forall id :: id in r <==> id in ids && id > 0
  {
    if ids == [] then []
    else if ids[0] > 0 then [ids[0]] + Positive(ids[1..]) else Positive(ids[1..])
  }

  /** `attemptedCandidateIDs` */
  function AttemptedIDs(job: Job): seq<int> {
    match job.payload.attempted
    case None => if job.candidateID > 0 then [job.candidateID] else []
    case Some(ids) => Positive(ids)
  }

  /** The candidates a job is known to have tried: its recorded ones and its own. */
  function Attempted(job: Job): set<int> {
    (set id | id in AttemptedIDs(job)) + (if job.candidateID > 0 then {job.candidateID} else {})
  }

  /** `appendAttemptedCandidate`: the positive ids once each, in order, then the new one. */
  method AppendAttempted(existing: seq<int>, candidateID: int) returns (out: seq<int>)
    ensures Distinct(out)
    ensures forall id :: id in out <==> id > 0 && (id in existing || id == candidateID)
  {
    out := [];
    var seen: set<int> := {};
    for i := 0 to |existing|
      invariant Distinct(out)
      invariant forall id :: id in seen <==> id in out
      invariant forall id :: id in out <==> id > 0 && id in existing[..i]
    {
      if existing[i] > 0 && existing[i] !in seen {
        seen := seen + {existing[i]};
        out := out + [existing[i]];
      }
    }
    if candidateID > 0 && candidateID !in seen {
      out := out + [candidateID];
    }
  }

  /** `candidateIDsFromSet`: the positive members, in the map's order. */
  method IDsFromSet(values: set<int>) returns (out: seq<int>)
    ensures forall id :: id in out <==> id in values && id > 0
  {
    out := [];
    var rest := values;
    while rest != {}
      invariant rest <= values
      invariant forall id :: id in out <==> id in values && id !in rest && id > 0
    {
      var id := Pick(rest);
      rest := rest - {id};
      if id > 0 {
        out := out + [id];
      }
    }
  }

  /** `usedCandidateSetForWork`: everything the listed jobs of this work have chosen or attempted. */
  method UsedForWork(jobs: seq<Job>, workID: string) returns (used: set<int>)
    ensures used == set j, id | j in jobs && Trim(j.workID) == Trim(workID) && id in Attempted(j) :: id
  {
    used := {};
    for i := 0 to |jobs|
      invariant used == set j, id | j in jobs[..i] && Trim(j.workID) == Trim(workID) && id in Attempted(j) :: id
    {
      var own: set<int> := {};
      if Trim(jobs[i].workID) == Trim(workID) {
        if jobs[i].candidateID > 0 {
          own := own + {jobs[i].candidateID};
        }
        own := own + set id | id in AttemptedIDs(jobs[i]);
        assert own == Attempted(jobs[i]);
      }
      assert forall j :: j in jobs[..i + 1] <==> j in jobs[..i] || j == jobs[i];
      used := used + own;
    }
    assert jobs[..|jobs|] == jobs;
  }

  /** `job'` replaces `job` with candidate `chosen` of the listing, never tried before. */
  ghost predicate Replaces(job: Job, job': Job, listing: seq<Candidate>, chosen: int) {
    && (exists c :: c in listing && c.id == chosen)
    && chosen != 0 && chosen !in Attempted(job)
    && (set id | id in AttemptedIDs(job')) == Attempted(job) + (if chosen > 0 then {chosen} else {})
    && job'.status == Queued && job'.maxAttempts == 3
  }

  /** No uri, no id, already attempted by this job, or already used for its work. */
  ghost predicate Unusable(c: Candidate, job: Job, recent: seq<Job>) {
    || c.id == 0 || c.uri == "" || c.id == job.candidateID || c.id in Attempted(job)
    || exists j :: j in recent && Trim(j.workID) == Trim(job.workID) && c.id in Attempted(j)
  }

  /** The `i`-th candidate is the first one that can be used and grabbed. */
  ghost predicate FirstUsable(listing: seq<Candidate>, grabs: nat -> Option<Grab>, job: Job, recent: seq<Job>, i: nat) {
    && i < |listing| && grabs(i).Some? && !Unusable(listing[i], job, recent)
    && forall k :: 0 <= k < i && grabs(k).Some? ==> Unusable(listing[k], job, recent)
  }

  /** No candidate of the list names another search request. */
  ghost predicate AllFrom(listing: seq<Candidate>, searchRequestID: int) {
    forall c :: c in listing ==> c.searchRequestID == 0 || c.searchRequestID == searchRequestID
  }

  class Manager {
    const store: Store

    constructor (store: Store)
      ensures this.store == store
    {
      this.store := store;
    }

    /** `enqueueGrabCandidate`; `picked` is what `pickClient` would choose. */
    method EnqueueGrab(grab: Grab, candidate: Candidate, preferred: string, picked: string, upgradeAction: string,
                       attempted: seq<int>, now: Time)
      returns (r: Result<Job, Failure>)
      requires Valid(store.Snapshot())
      modifies store
      ensures Valid(store.Snapshot())
      ensures r.Err? ==> store.Snapshot() == old(store.Snapshot())
      ensures r.Err? <==> candidate.uri == "" || (Blank(preferred) && picked == "")
      ensures r.Ok? ==>
                && r.value.id in store.jobs && r.value.id !in old(store.jobs) && store.jobs[r.value.id] == r.value
                && (forall id :: id in old(store.jobs) ==> id in store.jobs && store.jobs[id] == old(store.jobs)[id])
                && r.value.status == Queued && r.value.maxAttempts == 3 && r.value.lease == None
                   && r.value.lockedAt == None
                && r.value.clientName == (if Blank(preferred) then picked else Trim(preferred))
                && r.value.grabID == grab.id && r.value.candidateID == grab.candidateID
                && r.value.workID == grab.entityID
                && r.value.payload.uri == candidate.uri && r.value.payload.attempted == Some(attempted)
                && r.value.payload.searchRequestID == (if candidate.searchRequestID > 0 then candidate.searchRequestID
                   else 0)
                && r.value.upgradeAction == (if Blank(upgradeAction) then "ask" else upgradeAction)
                && r.value.attempts == 0 && r.value.notBefore == now && !r.value.imported
                && r.value.downloadID == r.value.outputPath == r.value.lastError == r.value.lockedBy == ""
      ensures r.Ok? ==>
                store.Snapshot().events == old(store.Snapshot()).events[r.value.id :=
                  EventsOf(old(store.Snapshot()), r.value.id)
                  + [Event(old(store.nextEventID), r.value.id, "queued", "download job queued from grab", now)]]
    {
      if candidate.uri == "" {
        return Err(NoURI);
      }
      var clientName := Trim(preferred);
      if clientName == "" {
        clientName := picked;
      }
      if clientName == "" {
        return Err(NoClient);
      }
      var action := if Blank(upgradeAction) then "ask" else upgradeAction;
      var payload := Payload(candidate.uri, if candidate.searchRequestID > 0 then candidate.searchRequestID else 0,
                             Some(attempted));
      var job := Job(0, grab.id, grab.candidateID, grab.entityID, clientName, action, Queued, "", "", false, payload,
                     "",
                     0, 3, now, None, "", None, ZERO_TIME, ZERO_TIME);
      var created := store.Create(job, now);
      var _ := store.LogEvent(Event(0, created.id, "queued", "download job queued from grab", now), now);
      r := Ok(created);
    }

    /**
      `tryFallbackCandidate`. `listing` answers the candidate list of the search request, `grabs[i]`
      the grab of its i-th candidate, `recent` the store's latest jobs.
    */
    method TryFallback(job: Job, listing: Result<seq<Candidate>, Failure>, grabs: nat -> Option<Grab>,
                       recent: seq<Job>, searchRequestID: int, picked: string, now: Time)
      returns (replacement: Option<Job>, ghost chosen: int)
      requires Valid(store.Snapshot())
      modifies store
      ensures Valid(store.Snapshot())
      ensures replacement.None? ==> store.Snapshot() == old(store.Snapshot())
      ensures replacement.Some? <==>
                searchRequestID != 0 && listing.Ok? && (!Blank(job.clientName) || picked != "")
                && SomeUsable(listing.value, grabs, job, recent)
      ensures replacement.Some? ==>
                && Replaces(job, replacement.value, listing.value, chosen)
                && (forall j :: j in recent && Trim(j.workID) == Trim(job.workID) ==> chosen !in Attempted(j))
                && GrabsFirstUsable(replacement.value, listing.value, grabs, job, recent, chosen)
                && replacement.value.clientName == (if Blank(job.clientName) then picked else Trim(job.clientName))
                && (searchRequestID > 0 && AllFrom(listing.value, searchRequestID) ==>
                      replacement.value.payload.searchRequestID == searchRequestID)
                && replacement.value.id in store.jobs && store.jobs[replacement.value.id] == replacement.value
                && replacement.value.id !in old(store.jobs)
                && (forall id :: id in old(store.jobs) ==> id in store.jobs && store.jobs[id] == old(store.jobs)[id])
      ensures replacement.None? && searchRequestID != 0 && listing.Ok? && (!Blank(job.clientName) || picked != "") ==>
                forall i :: 0 <= i < |listing.value| && grabs(i).Some? ==> Unusable(listing.value[i], job, recent)
    {
      hide Valid, Blank, Trim, Attempted, Replaces, Unusable, SomeUsable, GrabsFirstUsable;
      replacement, chosen := None, 0;
      if searchRequestID == 0 || listing.Err? {
        return;
      }
      var attempted := (set id | id in AttemptedIDs(job) && id > 0) + {job.candidateID};
      var used := UsedForWork(recent, job.workID);
      var candidates := listing.value;
      NoneUsable(candidates, grabs, job, recent);
      for i := 0 to |candidates|
        invariant Valid(store.Snapshot()) && store.Snapshot() == old(store.Snapshot())
        invariant !Blank(job.clientName) || picked != "" ==>
                    forall k :: 0 <= k < i && grabs(k).Some? ==> Unusable(candidates[k], job, recent)
        invariant Blank(job.clientName) && picked == "" ==> replacement.None?
      {
        var candidate := candidates[i];
        SkippedIffUnusable(candidate, job, recent, attempted, used);
        if candidate.id == 0 || candidate.id in attempted || candidate.id in used || candidate.uri == "" {
          continue;
        }
        if candidate.searchRequestID == 0 {
          candidate := candidate.(searchRequestID := searchRequestID);
        }
        if grabs(i).None? {
          continue;
        }
        var ids := IDsFromSet(attempted);
        ids := AppendAttempted(ids, candidate.id);
        var enqueued := EnqueueGrab(grabs(i).value, candidate, job.clientName, picked, job.upgradeAction, ids, now);
        if enqueued.Err? {
          continue;
        }
        chosen := candidate.id;
        GrabbedFrom(enqueued.value, candidates, grabs, job, recent, i);
        UnusedForWork(candidates[i], job, recent);
        ChosenReplaces(job, enqueued.value, candidates, i, attempted, ids);
        return Some(enqueued.value), candidate.id;
      }
    }
  }

  /** The new job fetches that candidate for the grab's work, with the old job's upgrade action. */
  ghost predicate IsGrabOf(job': Job, job: Job, c: Candidate, grab: Grab, chosen: int) {
    && chosen == c.id && job'.payload.uri == c.uri && job'.grabID == grab.id && job'.candidateID == grab.candidateID
    && job'.workID == grab.entityID
    && job'.upgradeAction == if Blank(job.upgradeAction) then "ask" else job.upgradeAction
  }

  ghost predicate SomeUsable(listing: seq<Candidate>, grabs: nat -> Option<Grab>, job: Job, recent: seq<Job>) {
    exists i: nat :: FirstUsable(listing, grabs, job, recent, i)
  }

  ghost predicate GrabsFirstUsable(job': Job, listing: seq<Candidate>, grabs: nat -> Option<Grab>, job: Job,
                                   recent: seq<Job>, chosen: int) {
    exists i: nat ::
      FirstUsable(listing, grabs, job, recent, i) && IsGrabOf(job', job, listing[i], grabs(i).value, chosen)
  }

  lemma GrabbedFrom(job': Job, listing: seq<Candidate>, grabs: nat -> Option<Grab>, job: Job, recent: seq<Job>, i: nat)
    requires i < |listing| && grabs(i).Some?
    requires !Unusable(listing[i], job, recent)
    requires forall k :: 0 <= k < i && grabs(k).Some? ==> Unusable(listing[k], job, recent)
    requires var c, grab := listing[i], grabs(i).value;
             && job'.payload.uri == c.uri && job'.grabID == grab.id && job'.candidateID == grab.candidateID
             && job'.workID == grab.entityID
             && job'.upgradeAction == if Blank(job.upgradeAction) then "ask" else job.upgradeAction
    ensures SomeUsable(listing, grabs, job, recent)
    ensures GrabsFirstUsable(job', listing, grabs, job, recent, listing[i].id)
  {
    hide Unusable, Blank;
    assert FirstUsable(listing, grabs, job, recent, i);
    assert IsGrabOf(job', job, listing[i], grabs(i).value, listing[i].id);
  }

  lemma NoneUsable(listing: seq<Candidate>, grabs: nat -> Option<Grab>, job: Job, recent: seq<Job>)
    ensures (forall k :: 0 <= k < |listing| && grabs(k).Some? ==> Unusable(listing[k], job, recent))
            ==> !SomeUsable(listing, grabs, job, recent)
  {
    hide Unusable;
  }

  lemma UnusedForWork(c: Candidate, job: Job, recent: seq<Job>)
    requires !Unusable(c, job, recent)
    ensures forall j :: j in recent && Trim(j.workID) == Trim(job.workID) ==> c.id !in Attempted(j)
  {
    hide Trim, Attempted;
  }

  lemma SkippedIffUnusable(c: Candidate, job: Job, recent: seq<Job>, attempted: set<int>, used: set<int>)
    requires attempted == (set id | id in AttemptedIDs(job) && id > 0) + {job.candidateID}
    requires used == set j, id | j in recent && Trim(j.workID) == Trim(job.workID) && id in Attempted(j) :: id
    ensures c.id == 0 || c.id in attempted || c.id in used || c.uri == "" <==> Unusable(c, job, recent)
  {
    hide Trim;
  }

  lemma ChosenReplaces(job: Job, job': Job, listing: seq<Candidate>, i: nat, attempted: set<int>, ids: seq<int>)
    requires i < |listing| && listing[i].id != 0 && listing[i].id !in attempted
    requires attempted == (set id | id in AttemptedIDs(job) && id > 0) + {job.candidateID}
    requires job'.payload.attempted == Some(ids)
    requires forall id :: id in ids <==> id > 0 && (id in attempted || id == listing[i].id)
    requires job'.status == Queued && job'.maxAttempts == 3
    ensures Replaces(job, job', listing, listing[i].id)
  {
    assert listing[i] in listing;
  }

  /** A chain of replacement jobs over one fixed candidate list. */
  ghost predicate Chain(jobs: seq<Job>, chosen: seq<int>, listing: seq<Candidate>) {
    && |jobs| == |chosen| + 1
    && forall k :: 0 <= k < |chosen| ==> Replaces(jobs[k], jobs[k + 1], listing, chosen[k])
  }

  function IDs(listing: seq<Candidate>): set<int> {
    set c | c in listing :: c.id
  }

  /** Along a chain the attempted set strictly grows by the candidate chosen. */
  lemma {:induction false} ChainAttempts(jobs: seq<Job>, chosen: seq<int>, listing: seq<Candidate>, k: nat)
    requires Chain(jobs, chosen, listing) && (forall c :: c in listing ==> c.id >= 0) && k <= |chosen|
    ensures Attempted(jobs[0]) <= Attempted(jobs[k])
    ensures forall i :: 0 <= i < k ==> chosen[i] in Attempted(jobs[k]) && chosen[i] !in Attempted(jobs[i])
  {
    if k > 0 {
      ChainAttempts(jobs, chosen, listing, k - 1);
      assert Replaces(jobs[k - 1], jobs[k], listing, chosen[k - 1]);
    }
  }

  /** Fallback terminates: no candidate is chosen twice, and a chain is no longer than the untried part of the list. */
  lemma ChainIsBounded(jobs: seq<Job>, chosen: seq<int>, listing: seq<Candidate>)
    requires Chain(jobs, chosen, listing) && forall c :: c in listing ==> c.id >= 0
    ensures Distinct(chosen)
    ensures |chosen| <= |IDs(listing) - Attempted(jobs[0]) - {0}|
  {
    forall i, k | 0 <= i < k < |chosen|
      ensures chosen[i] != chosen[k]
    {
      ChainAttempts(jobs, chosen, listing, k);
      assert Replaces(jobs[k], jobs[k + 1], listing, chosen[k]);
    }
    forall x | x in chosen
      ensures x in IDs(listing) - Attempted(jobs[0]) - {0}
    {
      var k :| 0 <= k < |chosen| && chosen[k] == x;
      ChainAttempts(jobs, chosen, listing, k);
      assert Replaces(jobs[k], jobs[k + 1], listing, chosen[k]);
    }
    DistinctWithin(chosen, IDs(listing) - Attempted(jobs[0]) - {0});
  }
}
