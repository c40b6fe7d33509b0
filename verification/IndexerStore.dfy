/** The in-memory indexer store: search-request leases, the request-key index, candidates and grabs. */
module IndexerStore {
  import opened Wrappers
  import opened LeaseMachine
  import opened Sorting

  datatype Status = Queued | Running | Succeeded | Failed

  datatype Request = Request(
    id: int, key: string, entityType: string, entityID: string, status: Status, attempts: nat, maxAttempts: int,
    lastError: string, notBefore: Time, lockedAt: Option<Time>, lockedBy: string, lease: Option<Time>,
    createdAt: Time, updatedAt: Time)

  /** A release found by a backend, with its fingerprint and the score of its ranking. */
  datatype Release = Release(title: string, fingerprint: string, score: real)

  datatype Candidate = Candidate(id: int, requestID: int, release: Release, createdAt: Time)

  datatype Grab = Grab(id: int, candidateID: int, fingerprint: string, entityType: string, entityID: string,
                       createdAt: Time)

  datatype Error = NotFound

  datatype State = State(
    requests: map<int, Request>, keyToID: map<string, int>,
    byRequest: map<int, seq<Candidate>>, byID: map<int, Candidate>,
    grabs: map<int, Grab>, grabIndex: map<string, int>,
    nextRequest: int, nextCandidate: int, nextGrab: int)

  // ---- leases

  function Created(id: int, key: string, entityType: string, entityID: string, maxAttempts: int, now: Time): Request {
    Request(id, key, entityType, entityID, Queued, 0, maxAttempts, "", now, None, "", None, now, now)
  }

  function Locked(r: Request, worker: string, now: Time): Request {
    r.(status := Running, lockedAt := Some(now), lockedBy := worker, lease := Some(now + TTL),
       attempts := r.attempts + 1, updatedAt := now)
  }

  predicate Expired(r: Request, now: Time) {
    r.status == Running && r.lease.Some? && r.lease.value <= now
  }

  function Recovered(r: Request, now: Time): Request {
    var next := r.attempts + 1;
    var freed := r.(attempts := next, lastError := "lease expired; recovered", lockedAt := None, lockedBy := "",
                    lease := None, updatedAt := now);
    if next >= r.maxAttempts then freed.(status := Failed, notBefore := now)
    else freed.(status := Queued, notBefore := now + Backoff(next))
  }

  function Rescheduled(r: Request, err: string, notBefore: Time, terminal: bool, now: Time): Request {
    r.(status := if terminal || r.attempts >= r.maxAttempts then Failed else Queued, lastError := err,
       notBefore := notBefore, lockedAt := None, lockedBy := "", lease := None, updatedAt := now)
  }

  function Finished(r: Request, now: Time): Request {
    r.(status := Succeeded, lastError := "", lockedAt := None, lockedBy := "", lease := None, updatedAt := now)
  }

  /** Running, locked and leased for exactly the TTL are one and the same. */
  predicate Coherent(r: Request) {
    && (r.status == Running <==> r.lockedAt.Some?)
    && r.lease == if r.lockedAt.Some? then Some(r.lockedAt.value + TTL) else None
  }

  // ---- grabs

  /** The joined fingerprint index key. */
  function GrabKey(fingerprint: string, entityType: string, entityID: string): string {
    fingerprint + "|" + entityType + "|" + entityID
  }

  function KeyOf(g: Grab): string {
    GrabKey(g.fingerprint, g.entityType, g.entityID)
  }

  // ---- invariants

  /** Request keys and requests are in bijection. */
  ghost predicate RequestsIndexed(requests: map<int, Request>, keyToID: map<string, int>, next: int) {
    && (forall id :: id in requests ==>
          requests[id].id == id && 1 <= id < next && requests[id].key in keyToID && keyToID[requests[id].key] == id)
    && (forall key :: key in keyToID ==> keyToID[key] in requests && requests[keyToID[key]].key == key)
    && 1 <= next
  }

  ghost predicate LeasesCoherent(requests: map<int, Request>) {
    forall id :: id in requests ==> Coherent(requests[id])
  }

  /** A listed candidate is the one stored under its id. */
  ghost predicate Listed(byID: map<int, Candidate>, list: seq<Candidate>, requestID: int) {
    && (forall i :: 0 <= i < |list| ==>
          list[i].requestID == requestID && list[i].id in byID && byID[list[i].id] == list[i])
    && (forall i, k :: 0 <= i < k < |list| ==> list[i].id != list[k].id)
  }

  ghost predicate CandidatesIndexed(byRequest: map<int, seq<Candidate>>, byID: map<int, Candidate>, next: int) {
    && (forall id :: id in byID ==> byID[id].id == id && 1 <= id < next)
    && (forall r :: r in byRequest ==> Listed(byID, byRequest[r], r))
    && 1 <= next
  }

  /** Fingerprinted grabs and index entries are in bijection. */
  ghost predicate GrabsIndexed(grabs: map<int, Grab>, grabIndex: map<string, int>, next: int) {
    && (forall id :: id in grabs ==> grabs[id].id == id && 1 <= id < next)
    && (forall k :: k in grabIndex ==>
          grabIndex[k] in grabs && KeyOf(grabs[grabIndex[k]]) == k && grabs[grabIndex[k]].fingerprint != "")
    && (forall id :: id in grabs && grabs[id].fingerprint != "" ==>
          KeyOf(grabs[id]) in grabIndex && grabIndex[KeyOf(grabs[id])] == id)
    && 1 <= next
  }

  ghost predicate Valid(s: State) {
    && RequestsIndexed(s.requests, s.keyToID, s.nextRequest)
    && LeasesCoherent(s.requests)
    && CandidatesIndexed(s.byRequest, s.byID, s.nextCandidate)
    && GrabsIndexed(s.grabs, s.grabIndex, s.nextGrab)
  }

  /** Rewriting a request under its own id and key keeps the store valid if its lease stays coherent. */
  lemma UpdateKeepsValid(s: State, id: int, r: Request)
    requires Valid(s) && id in s.requests && r.id == id && r.key == s.requests[id].key && Coherent(r)
    ensures Valid(s.(requests := s.requests[id := r]))
  {
  }

  lemma CreatingKeepsValid(s: State, key: string, entityType: string, entityID: string, maxAttempts: int, now: Time)
    requires Valid(s) && key !in s.keyToID
    ensures var r := Created(s.nextRequest, key, entityType, entityID, maxAttempts, now);
            Valid(s.(requests := s.requests[r.id := r], keyToID := s.keyToID[key := r.id], nextRequest := r.id + 1))
  {
    hide CandidatesIndexed, GrabsIndexed;
  }

  lemma RequestFacts(s: State, id: int)
    requires Valid(s) && id in s.requests
    ensures s.requests[id].id == id && Coherent(s.requests[id])
  {
  }

  // ---- steps

  /** `SELECT ... WHERE status='queued' AND not_before <= now ORDER BY created_at LIMIT 1`, then the locking update. */
  ghost predicate SqlLock(s: State, s': State, id: int, worker: string, now: Time) {
    && SqlSelectable(s, id, now)
    && (forall k :: SqlSelectable(s, k, now) ==> s.requests[id].createdAt <= s.requests[k].createdAt)
    && s' == s.(requests := s.requests[id := Locked(s.requests[id], worker, now)])
  }

  predicate SqlSelectable(s: State, id: int, now: Time) {
    id in s.requests && s.requests[id].status == Queued && s.requests[id].notBefore <= now
  }

  function Records(releases: seq<Release>, requestID: int, first: int, now: Time): (r: seq<Candidate>)
    ensures |r| == |releases|
    ensures forall i :: 0 <= i < |r| ==> r[i] == Candidate(first + i, requestID, releases[i], now)
  {
    seq(|releases|, i requires 0 <= i < |releases| => Candidate(first + i, requestID, releases[i], now))
  }

  /** The by-id map after adding records one by one. */
  function Stored(byID: map<int, Candidate>, records: seq<Candidate>): map<int, Candidate> {
    if records == [] then byID
    else var last := records[|records| - 1]; Stored(byID, records[..|records| - 1])[last.id := last]
  }

  lemma {:induction false} StoredFacts(byID: map<int, Candidate>, records: seq<Candidate>, first: int)
    requires forall i :: 0 <= i < |records| ==> records[i].id == first + i
    ensures forall id :: id in Stored(byID, records) <==> id in byID || first <= id < first + |records|
    ensures forall id :: id in Stored(byID, records) ==>
              Stored(byID, records)[id] == if first <= id < first + |records| then records[id - first] else byID[id]
  {
    if records != [] {
      StoredFacts(byID, records[..|records| - 1], first);
    }
  }

  /** Newest first; ties on creation time go to the higher id. */
  predicate Newer(a: Candidate, b: Candidate) {
    a.createdAt > b.createdAt || (a.createdAt == b.createdAt && a.id > b.id)
  }

  function Kept(list: seq<Candidate>, max: nat): seq<Candidate> {
    if |list| <= max then list else Sort(list, Newer)[..max]
  }

  lemma NewerIsStrict()
    ensures StrictOrder(Newer)
  {
  }

  /** The entries of a list that pruning drops. */
  function Dropped(list: seq<Candidate>, max: nat): set<Candidate> {
    set c | c in list && c !in Kept(list, max)
  }

  /** The by-id map without the dropped candidates. */
  function Without(byID: map<int, Candidate>, dropped: set<Candidate>): map<int, Candidate> {
    map id | id in byID && byID[id] !in dropped :: byID[id]
  }

  lemma SortedListing(byID: map<int, Candidate>, list: seq<Candidate>, r: int)
    requires Listed(byID, list, r)
    ensures var sorted := Sort(list, Newer);
            && Listed(byID, sorted, r) && Ascending(sorted, Newer)
            && forall c :: c in sorted <==> c in list
  {
    var sorted := Sort(list, Newer);
    NewerIsStrict();
    SortAscends(list, Newer);
    SortPermutes(list, Newer);
    forall i | 0 <= i < |sorted|
      ensures sorted[i].requestID == r && sorted[i].id in byID && byID[sorted[i].id] == sorted[i]
    {
      assert sorted[i] in list;
    }
  }

  /** Pruning one list drops its tail beyond the `max` newest, entry by entry. */
  lemma KeptIsNewest(byID: map<int, Candidate>, list: seq<Candidate>, r: int, max: nat)
    requires Listed(byID, list, r)
    ensures Listed(byID, Kept(list, max), r)
    ensures forall c :: c in Kept(list, max) ==> c in list
    ensures |Kept(list, max)| == if |list| <= max then |list| else max
    ensures forall c, d :: c in Kept(list, max) && d in Dropped(list, max) ==> Newer(c, d)
    ensures |list| > max ==> forall c :: c in Dropped(list, max) <==> c in Sort(list, Newer)[max..]
  {
    var sorted := Sort(list, Newer);
    SortedListing(byID, list, r);
    if |list| > max {
      assert sorted == sorted[..max] + sorted[max..];
      forall i | 0 <= i < max
        ensures sorted[..max][i] in list && sorted[..max][i] !in sorted[max..]
      {
        assert sorted[..max][i] == sorted[i] && sorted[i] in sorted;
      }
      assert forall c :: c in sorted[..max] ==> c !in sorted[max..];
      forall c, d | c in sorted[..max] && d in sorted[max..]
        ensures Newer(c, d)
      {
        var i :| 0 <= i < max && sorted[i] == c;
        var k :| max <= k < |sorted| && sorted[k] == d;
      }
    }
  }

  // ---- pruning against ranking

  /** Best-scored first, as a search stores its releases. */
  ghost predicate Ranked(releases: seq<Release>) {
    forall i, k :: 0 <= i < k < |releases| ==> releases[i].score >= releases[k].score
  }

  function Reversed(list: seq<Candidate>): (r: seq<Candidate>)
    ensures |r| == |list| && forall i :: 0 <= i < |r| ==> r[i] == list[|list| - 1 - i]
  {
    seq(|list|, i requires 0 <= i < |list| => list[|list| - 1 - i])
  }

  /** Freshly stored candidates are newer the later they come in the ranking. */
  lemma RecordsSortReversed(releases: seq<Release>, requestID: int, first: int, now: Time)
    ensures var records := Records(releases, requestID, first, now); Sort(records, Newer) == Reversed(records)
  {
    var records := Records(releases, requestID, first, now);
    NewerIsStrict();
    assert TotalOn(records, Newer);
    SortAscends(records, Newer);
    SortPermutes(records, Newer);
    assert Ascending(Reversed(records), Newer);
    hide Newer, Sort;
    ReversedHasMembers(records);
    AscendingIsDetermined(Sort(records, Newer), Reversed(records), Newer);
  }

  lemma ReversedHasMembers(list: seq<Candidate>)
    ensures forall c :: c in Reversed(list) <==> c in list
  {
    forall c | c in list
      ensures c in Reversed(list)
    {
      var i :| 0 <= i < |list| && list[i] == c;
      assert Reversed(list)[|list| - 1 - i] == c;
    }
  }

  /** Pruning the candidates of one search keeps the tail of its ranking, worst first. */
  lemma PruneKeepsRankingTail(releases: seq<Release>, requestID: int, first: int, now: Time, max: nat)
    requires max < |releases|
    ensures var records := Records(releases, requestID, first, now);
            Kept(records, max) == Reversed(records[|records| - max..])
  {
    RecordsSortReversed(releases, requestID, first, now);
    hide Sort, Newer;
  }

  /** No dropped candidate outscores a kept one. */
  ghost predicate KeepsBest(list: seq<Candidate>, kept: seq<Candidate>) {
    forall k, d :: k in kept && d in list && d !in kept ==> k.release.score >= d.release.score
  }

  /**
    Pruning a ranked search keeps a best-scored `max` if and only if nothing is dropped or all of its releases
    score the same, which the first and the last one tell.
  */
  lemma PruneKeepsBestIff(releases: seq<Release>, requestID: int, first: int, now: Time, max: nat)
    requires Ranked(releases) && max >= 1
    ensures var records := Records(releases, requestID, first, now);
            KeepsBest(records, Kept(records, max))
            <==> |releases| <= max || releases[0].score == releases[|releases| - 1].score
  {
    hide Kept, Reversed, Ranked;
    var n, records := |releases|, Records(releases, requestID, first, now);
    if n <= max {
      ShortListIsKept(records, max);
    } else {
      PruneKeepsRankingTail(releases, requestID, first, now, max);
      TailMembers(records, max);
      var kept := Kept(records, max);
      assert records[n - 1] in kept && records[0] in records && records[0] !in kept;
      RankedEnds(releases);
      forall k, d | k in kept && d in records && d !in kept && releases[0].score == releases[n - 1].score
        ensures k.release.score >= d.release.score
      {
        var i :| 0 <= i < n && records[i] == k;
        var j :| 0 <= j < n && records[j] == d;
        AllScoreTheSame(releases, i);
        AllScoreTheSame(releases, j);
      }
    }
  }

  lemma ShortListIsKept(list: seq<Candidate>, max: nat)
    requires |list| <= max
    ensures Kept(list, max) == list
  {
  }

  lemma RankedEnds(releases: seq<Release>)
    requires Ranked(releases) && releases != []
    ensures releases[0].score >= releases[|releases| - 1].score
  {
  }

  lemma AllScoreTheSame(releases: seq<Release>, i: nat)
    requires Ranked(releases) && i < |releases| && releases[0].score == releases[|releases| - 1].score
    ensures releases[i].score == releases[0].score
  {
  }

  /** The kept tail holds exactly the candidates from its start on. */
  lemma TailMembers(records: seq<Candidate>, max: nat)
    requires max < |records| && forall i, k :: 0 <= i < k < |records| ==> records[i] != records[k]
    ensures forall i :: 0 <= i < |records| ==>
              (records[i] in Reversed(records[|records| - max..]) <==> i >= |records| - max)
    ensures forall c :: c in Reversed(records[|records| - max..]) ==> c in records
  {
    var n := |records| - max;
    ReversedHasMembers(records[n..]);
    hide Reversed;
    forall i | 0 <= i < |records|
      ensures records[i] in records[n..] <==> i >= n
    {
      if i >= n {
        assert records[n..][i - n] == records[i];
      }
    }
  }

  /** Of two releases scored 0.9 and 0.3, a prune to one keeps the worse. */
  lemma PruneCanKeepWorse(good: Release, bad: Release, requestID: int, first: int, now: Time)
    requires good.score == 0.9 && bad.score == 0.3
    ensures var records := Records([good, bad], requestID, first, now); Kept(records, 1) == [records[1]]
  {
    PruneKeepsRankingTail([good, bad], requestID, first, now, 1);
    hide Kept;
    var records := Records([good, bad], requestID, first, now);
    assert records[1..] == [records[1]];
    assert Reversed([records[1]]) == [records[1]];
  }

  class Store {
    var nextRequest: int
    var nextCandidate: int
    var nextGrab: int
    var requests: map<int, Request>
    var keyToID: map<string, int>
    var byRequest: map<int, seq<Candidate>>
    var byID: map<int, Candidate>
    var grabs: map<int, Grab>
    var grabIndex: map<string, int>

    ghost function Snapshot(): State
      reads this
    {
      State(requests, keyToID, byRequest, byID, grabs, grabIndex, nextRequest, nextCandidate, nextGrab)
    }

    constructor ()
      ensures Valid(Snapshot()) && Snapshot() == State(map[], map[], map[], map[], map[], map[], 1, 1, 1)
    {
      nextRequest, nextCandidate, nextGrab := 1, 1, 1;
      requests, keyToID, byRequest, byID, grabs, grabIndex := map[], map[], map[], map[], map[], map[];
    }

    method CreateOrGetSearchRequest(key: string, entityType: string, entityID: string, maxAttempts: int, now: Time)
      returns (r: Request)
      requires Valid(Snapshot())
      modifies this
      ensures Valid(Snapshot())
      ensures key in old(keyToID) ==> Snapshot() == old(Snapshot()) && r == requests[keyToID[key]]
      ensures key !in old(keyToID) ==>
                && r == Created(old(nextRequest), key, entityType, entityID, maxAttempts, now)
                && Snapshot() == old(Snapshot()).(requests := old(requests)[r.id := r],
                                                  keyToID := old(keyToID)[key := r.id],
                                                  nextRequest := r.id + 1)
    {
      if key in keyToID {
        return requests[keyToID[key]];
      }
      hide Valid;
      CreatingKeepsValid(Snapshot(), key, entityType, entityID, maxAttempts, now);
      r := Request(nextRequest, key, entityType, entityID, Queued, 0, maxAttempts, "", now, None, "", None, now, now);
      nextRequest := nextRequest + 1;
      requests := requests[r.id := r];
      keyToID := keyToID[key := r.id];
    }

    /**
      The in-memory lock step. Its filter also admits a running request that nobody locked; in a
      valid store there is none, so the step is the SQL one.
    */
    method TryLockNextSearchRequest(worker: string, now: Time) returns (r: Option<Request>)
      requires Valid(Snapshot())
      modifies this
      ensures Valid(Snapshot())
      ensures r.None? ==> Snapshot() == old(Snapshot()) && forall k :: !SqlSelectable(old(Snapshot()), k, now)
      ensures r.Some? ==>
                && r.value.id in requests && requests[r.value.id] == r.value
                && SqlLock(old(Snapshot()), Snapshot(), r.value.id, worker, now)
    {
      hide RequestsIndexed, LeasesCoherent, CandidatesIndexed, GrabsIndexed;
      var selected: Option<Request> := None;
      var rest := requests.Keys;
      while rest != {}
        modifies {}
        invariant rest <= requests.Keys
        invariant selected.Some? ==>
                    && selected.value.id in requests && requests[selected.value.id] == selected.value
                       && SqlSelectable(Snapshot(), selected.value.id, now)
        invariant forall k :: k in requests && k !in rest && SqlSelectable(Snapshot(), k, now) ==>
                    selected.Some? && selected.value.createdAt <= requests[k].createdAt
      {
        var id := Pick(rest);
        rest := rest - {id};
        var rec := requests[id];
        RequestFacts(Snapshot(), id);
        if rec.status != Queued && rec.status != Running {
          continue;
        }
        if rec.status == Running && rec.lockedAt.Some? {
          continue;
        }
        if rec.notBefore > now {
          continue;
        }
        if selected.None? || rec.createdAt < selected.value.createdAt {
          selected := Some(rec);
        }
      }
      if selected.None? {
        return None;
      }
      var rec := selected.value.(status := Running, lockedAt := Some(now), lockedBy := worker, lease := Some(now + TTL),
                                 attempts := selected.value.attempts + 1, updatedAt := now);
      UpdateKeepsValid(Snapshot(), rec.id, rec);
      requests := requests[rec.id := rec];
      r := Some(rec);
    }

    /** Recovers `min(limit, number expired)` running requests. */
    method RecoverExpiredSearchRequests(now: Time, limit: int) returns (recovered: nat, ghost chosen: set<int>)
      requires Valid(Snapshot())
      modifies this
      ensures Valid(Snapshot())
      ensures recovered == |chosen| && RecoverStep(old(Snapshot()), Snapshot(), chosen, now)
      ensures var max := if limit <= 0 then 100 else limit;
              var expired := |ExpiredIDs(old(Snapshot()), now)|;
              recovered == if expired < max then expired else max
    {
      hide *;
      var max := if limit <= 0 then 100 else limit;
      ghost var s0 := Snapshot();
      RequestsOfSnapshot();
      ghost var expired := ExpiredIDs(s0, now);
      recovered, chosen := 0, {};
      RecoverNothing(s0, now);
      var rest := requests.Keys;
      while rest != {}
        invariant rest <= s0.requests.Keys
        invariant chosen == expired - rest && recovered == |chosen| <= max
        invariant RecoverStep(s0, Snapshot(), chosen, now)
        invariant Valid(Snapshot())
        decreases rest
      {
        if recovered >= max {
          break;
        }
        var id := Pick(rest);
        RequestsOfSnapshot();
        ShrinkRest(expired, rest, id);
        InExpired(s0, id, now);
        rest := rest - {id};
        RecoverSpares(s0, Snapshot(), chosen, id, now);
        if requests[id].status != Running || requests[id].lease.None? || requests[id].lease.value > now {
          continue;
        }
        RecoverExtends(s0, Snapshot(), chosen, id, now);
        RecoverRequest(id, now);
        recovered := recovered + 1;
        chosen := chosen + {id};
      }
      assert rest == {} ==> chosen == expired;
      SmallerSet(chosen, expired);
    }

    lemma RequestsOfSnapshot()
      ensures Snapshot().requests == requests
    {
    }

    /** The body of the recovery loop, for a request whose lease has expired. */
    method RecoverRequest(id: int, now: Time)
      requires Valid(Snapshot()) && id in requests
      modifies this
      ensures Valid(Snapshot())
      ensures Snapshot() == old(Snapshot()).(requests := old(requests)[id := Recovered(old(requests)[id], now)])
    {
      hide RequestsIndexed, LeasesCoherent, CandidatesIndexed, GrabsIndexed;
      RequestFacts(Snapshot(), id);
      var rec := requests[id];
      var nextAttempt := rec.attempts + 1;
      rec := rec.(attempts := nextAttempt, lastError := "lease expired; recovered", lockedAt := None, lockedBy := "",
                  lease := None, updatedAt := now);
      if nextAttempt >= rec.maxAttempts {
        rec := rec.(status := Failed, notBefore := now);
      } else {
        rec := rec.(status := Queued, notBefore := now + Backoff(nextAttempt));
      }
      UpdateKeepsValid(Snapshot(), id, rec);
      requests := requests[id := rec];
    }

    method RescheduleSearchRequest(id: int, err: string, notBefore: Time, terminal: bool, now: Time)
      returns (r: Result<(), Error>)
      requires Valid(Snapshot())
      modifies this
      ensures Valid(Snapshot())
      ensures id !in old(requests) ==> r == Err(NotFound) && Snapshot() == old(Snapshot())
      ensures id in old(requests) ==>
                && r == Ok(())
                && Snapshot() == old(Snapshot()).(requests := old(requests)[id := Rescheduled(old(requests)[id], err,
                    notBefore, terminal, now)])
    {
      if id !in requests {
        return Err(NotFound);
      }
      hide RequestsIndexed, LeasesCoherent, CandidatesIndexed, GrabsIndexed;
      RequestFacts(Snapshot(), id);
      var rec := requests[id];
      if terminal || rec.attempts >= rec.maxAttempts {
        rec := rec.(status := Failed);
      } else {
        rec := rec.(status := Queued);
      }
      UpdateKeepsValid(Snapshot(), id, Rescheduled(requests[id], err, notBefore, terminal, now));
      requests := requests[id := rec.(lastError := err, notBefore := notBefore, lockedAt := None, lockedBy := "",
                                      lease := None, updatedAt := now)];
      r := Ok(());
    }

    method MarkSearchRequestSucceeded(id: int, now: Time) returns (r: Result<(), Error>)
      requires Valid(Snapshot())
      modifies this
      ensures Valid(Snapshot())
      ensures id !in old(requests) ==> r == Err(NotFound) && Snapshot() == old(Snapshot())
      ensures id in old(requests) ==>
                r == Ok(())
                    && Snapshot() == old(Snapshot()).(requests := old(requests)[id := Finished(old(requests)[id], now)])
    {
      if id !in requests {
        return Err(NotFound);
      }
      hide RequestsIndexed, LeasesCoherent, CandidatesIndexed, GrabsIndexed;
      RequestFacts(Snapshot(), id);
      UpdateKeepsValid(Snapshot(), id, Finished(requests[id], now));
      requests := requests[id := requests[id].(status := Succeeded, lastError := "", lockedAt := None, lockedBy := "",
                                               lease := None, updatedAt := now)];
      r := Ok(());
    }

    /** Replaces a request's list with fresh records; the old records stay in the by-id map. */
    method ReplaceCandidates(requestID: int, releases: seq<Release>, now: Time)
      returns (r: Result<seq<Candidate>, Error>)
      requires Valid(Snapshot())
      modifies this
      ensures Valid(Snapshot())
      ensures requestID !in old(requests) ==> r == Err(NotFound) && Snapshot() == old(Snapshot())
      ensures requestID in old(requests) ==>
                var records := Records(releases, requestID, old(nextCandidate), now);
                r == Ok(records) && Snapshot() == Replaced(old(Snapshot()), requestID, records)
    {
      if requestID !in requests {
        return Err(NotFound);
      }
      hide Valid;
      ghost var s0 := Snapshot();
      ghost var records := Records(releases, requestID, nextCandidate, now);
      var list := [];
      for i := 0 to |releases|
        invariant list == records[..i]
        invariant nextCandidate == s0.nextCandidate + i
        invariant byID == Stored(s0.byID, list)
        invariant Snapshot() == s0.(byID := byID, nextCandidate := nextCandidate)
      {
        var rec := Candidate(nextCandidate, requestID, releases[i], now);
        assert (list + [rec])[..|list|] == list;
        nextCandidate := nextCandidate + 1;
        list := list + [rec];
        byID := byID[rec.id := rec];
      }
      byRequest := byRequest[requestID := list];
      assert list == records;
      ReplacingKeepsValid(s0, requestID, releases, now);
      r := Ok(list);
    }

    /** Keeps the newest `max` candidates of every list and forgets the others in both maps. */
    method PruneStaleCandidates(maxPerRequest: int) returns (pruned: nat, ghost dropped: set<Candidate>)
      requires Valid(Snapshot())
      modifies this
      ensures Valid(Snapshot())
      ensures var max := if maxPerRequest <= 0 then 50 else maxPerRequest;
              PruneStep(old(Snapshot()), Snapshot(), max, old(byRequest).Keys, dropped)
      ensures pruned == |dropped|
    {
      hide Valid, PruneStep, Dropped, Kept, Without, PrunedAt, Newer, Listed;
      var max := if maxPerRequest <= 0 then 50 else maxPerRequest;
      ghost var s0 := Snapshot();
      pruned, dropped := 0, {};
      var rest := byRequest.Keys;
      ghost var done: set<int> := {};
      PruneNothing(s0, max);
      while rest != {}
        invariant rest <= s0.byRequest.Keys && done == s0.byRequest.Keys - rest
        invariant Valid(Snapshot()) && pruned == |dropped|
        invariant PruneStep(s0, Snapshot(), max, done, dropped)
        decreases rest
      {
        var r := Pick(rest);
        assert s0.byRequest.Keys - (rest - {r}) == done + {r};
        rest := rest - {r};
        PruneSpares(s0, Snapshot(), max, done, dropped, r);
        ghost var s1 := Snapshot();
        var n;
        ghost var gone;
        n, gone := PruneList(r, max);
        PruneOneMore(s0, s1, max, done, dropped, r);
        assert Snapshot() == PrunedAt(s1, r, max);
        pruned, dropped, done := pruned + n, dropped + gone, done + {r};
      }
      assert done == s0.byRequest.Keys;
    }

    /** The body of the prune loop. */
    method PruneList(r: int, max: nat) returns (n: nat, ghost gone: set<Candidate>)
      requires Valid(Snapshot()) && r in byRequest
      modifies this
      ensures Valid(Snapshot())
      ensures gone == Dropped(old(byRequest)[r], max) && n == |gone|
      ensures Snapshot() == PrunedAt(old(Snapshot()), r, max)
    {
      hide Valid, Kept, Dropped, Newer, Sort, Without, Listed, WithoutTail;
      ghost var list, all := byRequest[r], byID;
      PruningKeepsValid(Snapshot(), r, max);
      var recs := byRequest[r];
      gone := Dropped(recs, max);
      if |recs| <= max {
        assert byRequest == byRequest[r := recs];
        return 0, gone;
      }
      recs := Sort(recs, Newer);
      n := 0;
      WithoutNoTail(all, recs, max);
      for i := max to |recs|
        invariant n == i - max
        invariant byID == WithoutTail(all, recs, max, i)
        invariant Snapshot() == old(Snapshot()).(byID := byID)
      {
        ForgetOne(all, recs, max, i);
        byID := byID - {recs[i].id};
        n := n + 1;
      }
      WithoutWholeTail(all, list, r, max);
      byRequest := byRequest[r := recs[..max]];
    }

    /** The same release grabbed again for the same entity returns the first grab. */
    method CreateGrab(candidateID: int, entityType: string, entityID: string, now: Time)
      returns (r: Result<Grab, Error>)
      requires Valid(Snapshot())
      modifies this
      ensures Valid(Snapshot())
      ensures GrabStep(old(Snapshot()), Snapshot(), candidateID, entityType, entityID, now, r)
    {
      hide Valid;
      CreatingGrabKeepsValid(Snapshot(), candidateID, entityType, entityID, now);
      if candidateID !in byID {
        return Err(NotFound);
      }
      var fp := byID[candidateID].release.fingerprint;
      if fp != "" {
        var fpKey := fp + "|" + entityType + "|" + entityID;
        if fpKey in grabIndex {
          return Ok(grabs[grabIndex[fpKey]]);
        }
      }
      var rec := Grab(nextGrab, candidateID, fp, entityType, entityID, now);
      nextGrab := nextGrab + 1;
      grabs := grabs[rec.id := rec];
      if fp != "" {
        grabIndex := grabIndex[fp + "|" + entityType + "|" + entityID := rec.id];
      }
      r := Ok(rec);
    }
  }

  function Replaced(s: State, requestID: int, records: seq<Candidate>): State {
    s.(byRequest := s.byRequest[requestID := records], byID := Stored(s.byID, records),
       nextCandidate := s.nextCandidate + |records|)
  }

  lemma FreshListing(byID: map<int, Candidate>, releases: seq<Release>, requestID: int, first: int, now: Time)
    requires forall id :: id in byID ==> byID[id].id == id && 1 <= id < first
    requires 1 <= first
    ensures var records := Records(releases, requestID, first, now);
            var byID' := Stored(byID, records);
            && Listed(byID', records, requestID)
            && (forall id :: id in byID ==> id in byID' && byID'[id] == byID[id])
            && (forall id :: id in byID' ==> byID'[id].id == id && 1 <= id < first + |records|)
  {
    var records := Records(releases, requestID, first, now);
    hide Records, Stored;
    StoredFacts(byID, records, first);
    var byID' := Stored(byID, records);
    forall i | 0 <= i < |records|
      ensures records[i].requestID == requestID && records[i].id == first + i && first + i in byID'
              && byID'[first + i] == records[i]
    {
    }
  }

  lemma ReplacingKeepsValid(s: State, requestID: int, releases: seq<Release>, now: Time)
    requires Valid(s)
    ensures Valid(Replaced(s, requestID, Records(releases, requestID, s.nextCandidate, now)))
  {
    hide RequestsIndexed, LeasesCoherent, GrabsIndexed, Records, Stored;
    var records := Records(releases, requestID, s.nextCandidate, now);
    var s' := Replaced(s, requestID, records);
    FreshListing(s.byID, releases, requestID, s.nextCandidate, now);
    forall r | r in s'.byRequest
      ensures Listed(s'.byID, s'.byRequest[r], r)
    {
      if r != requestID {
        assert Listed(s.byID, s.byRequest[r], r);
      }
    }
  }

  function PrunedAt(s: State, r: int, max: nat): State
    requires r in s.byRequest
  {
    s.(byRequest := s.byRequest[r := Kept(s.byRequest[r], max)], byID := Without(s.byID, Dropped(s.byRequest[r], max)))
  }

  lemma PruningKeepsValid(s: State, r: int, max: nat)
    requires Valid(s) && r in s.byRequest
    ensures Valid(PrunedAt(s, r, max)) && Listed(s.byID, s.byRequest[r], r)
    ensures |Dropped(s.byRequest[r], max)| == |s.byRequest[r]| - |Kept(s.byRequest[r], max)|
    ensures |s.byRequest[r]| <= max ==>
              Kept(s.byRequest[r], max) == s.byRequest[r] && Without(s.byID, Dropped(s.byRequest[r], max)) == s.byID
    ensures |s.byRequest[r]| > max ==>
              Kept(s.byRequest[r], max) == Sort(s.byRequest[r], Newer)[..max] && |Kept(s.byRequest[r], max)| == max
    ensures forall id :: id in s.byID ==> s.byID[id].id == id
  {
    hide Newer, RequestsIndexed, LeasesCoherent, GrabsIndexed;
    var list, s' := s.byRequest[r], PrunedAt(s, r, max);
    KeptIsNewest(s.byID, list, r, max);
    CountDropped(s.byID, list, r, max);
    forall q | q in s'.byRequest
      ensures Listed(s'.byID, s'.byRequest[q], q)
    {
      assert Listed(s.byID, s.byRequest[q], q);
      forall i | 0 <= i < |s'.byRequest[q]|
        ensures s'.byRequest[q][i] !in Dropped(list, max)
      {
        assert s'.byRequest[q][i] in s'.byRequest[q];
      }
    }
  }

  lemma CountDropped(byID: map<int, Candidate>, list: seq<Candidate>, r: int, max: nat)
    requires Listed(byID, list, r)
    ensures |Dropped(list, max)| == |list| - |Kept(list, max)|
  {
    hide Newer;
    KeptIsNewest(byID, list, r, max);
    if |list| <= max {
      assert Dropped(list, max) == {};
    } else {
      var sorted := Sort(list, Newer);
      SortedListing(byID, list, r);
      assert Dropped(list, max) == set c | c in sorted[max..];
      CountDistinct(sorted[max..]);
    }
  }

  lemma {:induction false} CountDistinct(list: seq<Candidate>)
    requires forall i, k :: 0 <= i < k < |list| ==> list[i] != list[k]
    ensures |set c | c in list| == |list|
  {
    if list != [] {
      CountDistinct(list[1..]);
      assert (set c | c in list) == (set c | c in list[1..]) + {list[0]};
    }
  }

  ghost function WithoutTail(all: map<int, Candidate>, sorted: seq<Candidate>, max: nat, i: nat): map<int, Candidate>
    requires max <= i <= |sorted|
  {
    all - set k | max <= k < i :: sorted[k].id
  }

  lemma WithoutNoTail(all: map<int, Candidate>, sorted: seq<Candidate>, max: nat)
    requires max <= |sorted|
    ensures WithoutTail(all, sorted, max, max) == all
  {
  }

  lemma ForgetOne(all: map<int, Candidate>, sorted: seq<Candidate>, max: nat, i: nat)
    requires max <= i < |sorted|
    ensures WithoutTail(all, sorted, max, i + 1) == WithoutTail(all, sorted, max, i) - {sorted[i].id}
  {
    assert (set k | max <= k < i + 1 :: sorted[k].id) == (set k | max <= k < i :: sorted[k].id) + {sorted[i].id};
  }

  lemma WithoutWholeTail(all: map<int, Candidate>, list: seq<Candidate>, r: int, max: nat)
    requires Listed(all, list, r) && (forall id :: id in all ==> all[id].id == id) && |list| > max
    ensures WithoutTail(all, Sort(list, Newer), max, |list|) == Without(all, Dropped(list, max))
  {
    hide Newer, Kept, Sort, Dropped;
    var sorted := Sort(list, Newer);
    KeptIsNewest(all, list, r, max);
    SortedListing(all, list, r);
    forall id | id in all
      ensures id in (set k | max <= k < |sorted| :: sorted[k].id) <==> all[id] in Dropped(list, max)
    {
      if k :| max <= k < |sorted| && sorted[k].id == id {
        assert sorted[max..][k - max] == sorted[k];
      }
      if all[id] in Dropped(list, max) {
        assert all[id] in sorted[max..];
        var k :| 0 <= k < |sorted[max..]| && sorted[max..][k] == all[id];
        assert sorted[max + k] == all[id];
      }
    }
  }

  /** The lists of `done` are cut to their newest and the others untouched. */
  ghost predicate ListsPruned(lists: map<int, seq<Candidate>>, lists': map<int, seq<Candidate>>, max: nat,
                              done: set<int>) {
    && lists'.Keys == lists.Keys
    && forall r :: r in lists ==> lists'[r] == if r in done then Kept(lists[r], max) else lists[r]
  }

  /** `dropped` is exactly what the lists of `done` lose. */
  ghost predicate DropsExactly(lists: map<int, seq<Candidate>>, max: nat, done: set<int>, dropped: set<Candidate>) {
    forall c :: c in dropped <==> c.requestID in done && c.requestID in lists && c in Dropped(lists[c.requestID], max)
  }

  /** A prune pass over the lists of `done`: `dropped` leaves both maps and nothing else changes. */
  ghost predicate PruneStep(s: State, s': State, max: nat, done: set<int>, dropped: set<Candidate>) {
    && ListsPruned(s.byRequest, s'.byRequest, max, done)
    && DropsExactly(s.byRequest, max, done, dropped)
    && s' == s.(byRequest := s'.byRequest, byID := Without(s.byID, dropped))
  }

  lemma PruneNothing(s: State, max: nat)
    ensures PruneStep(s, s, max, {}, {})
  {
  }

  lemma PruneSpares(s0: State, s: State, max: nat, done: set<int>, dropped: set<Candidate>, r: int)
    requires PruneStep(s0, s, max, done, dropped) && r in s0.byRequest && r !in done
    ensures r in s.byRequest && s.byRequest[r] == s0.byRequest[r]
  {
  }

  lemma WithoutTwice(byID: map<int, Candidate>, a: set<Candidate>, b: set<Candidate>)
    ensures Without(Without(byID, a), b) == Without(byID, a + b)
  {
  }

  lemma DroppedOfRequest(s: State, r: int, max: nat)
    requires Valid(s) && r in s.byRequest
    ensures forall c :: c in Dropped(s.byRequest[r], max) ==> c.requestID == r
  {
    assert Listed(s.byID, s.byRequest[r], r);
  }

  lemma PruneOneMoreList(lists: map<int, seq<Candidate>>, lists': map<int, seq<Candidate>>, max: nat, done: set<int>,
                         r: int)
    requires ListsPruned(lists, lists', max, done) && r in lists && r !in done
    ensures lists'[r] == lists[r] && ListsPruned(lists, lists'[r := Kept(lists[r], max)], max, done + {r})
  {
    hide Kept;
  }

  lemma DropOneMoreList(lists: map<int, seq<Candidate>>, max: nat, done: set<int>, dropped: set<Candidate>, r: int)
    requires DropsExactly(lists, max, done, dropped) && r in lists && r !in done
    requires forall c :: c in Dropped(lists[r], max) ==> c.requestID == r
    ensures DropsExactly(lists, max, done + {r}, dropped + Dropped(lists[r], max))
    ensures |dropped + Dropped(lists[r], max)| == |dropped| + |Dropped(lists[r], max)|
  {
    hide Dropped;
    assert dropped !! Dropped(lists[r], max);
  }

  lemma PruneOneMore(s0: State, s: State, max: nat, done: set<int>, dropped: set<Candidate>, r: int)
    requires Valid(s) && PruneStep(s0, s, max, done, dropped) && r in s0.byRequest && r !in done && r in s.byRequest
    ensures PruneStep(s0, PrunedAt(s, r, max), max, done + {r}, dropped + Dropped(s.byRequest[r], max))
    ensures |dropped + Dropped(s.byRequest[r], max)| == |dropped| + |Dropped(s.byRequest[r], max)|
  {
    hide Kept, Valid, Dropped, Without, ListsPruned, DropsExactly;
    PruneOneMoreList(s0.byRequest, s.byRequest, max, done, r);
    DroppedOfRequest(s, r, max);
    DropOneMoreList(s0.byRequest, max, done, dropped, r);
    WithoutTwice(s0.byID, dropped, Dropped(s.byRequest[r], max));
  }

  ghost function AllListed(s: State): set<Candidate> {
    set r, c | r in s.byRequest && c in s.byRequest[r] :: c
  }

  lemma ListedAt(s: State, s': State, max: nat, dropped: set<Candidate>, r: int)
    requires Valid(s) && PruneStep(s, s', max, s.byRequest.Keys, dropped) && r in s.byRequest
    ensures r in s'.byRequest && |s'.byRequest[r]| <= max
    ensures forall c :: c in s.byRequest[r] ==> c.requestID == r && c.id in s.byID && s.byID[c.id] == c
    ensures forall c :: c in s.byRequest[r] <==> c in s'.byRequest[r] || c in Dropped(s.byRequest[r], max)
    ensures forall c :: c in Dropped(s.byRequest[r], max) ==> c !in s'.byRequest[r]
    ensures forall c, d :: c in s'.byRequest[r] && d in Dropped(s.byRequest[r], max) ==> Newer(c, d)
  {
    hide Newer, RequestsIndexed, LeasesCoherent, GrabsIndexed;
    assert Listed(s.byID, s.byRequest[r], r);
    KeptIsNewest(s.byID, s.byRequest[r], r, max);
  }

  /** Pruning conserves: every listed candidate was kept or dropped, and the dropped ones are older than the kept. */
  lemma PruningConserves(s: State, s': State, max: nat, dropped: set<Candidate>)
    requires Valid(s) && PruneStep(s, s', max, s.byRequest.Keys, dropped)
    ensures AllListed(s) == AllListed(s') + dropped && |AllListed(s)| == |AllListed(s')| + |dropped|
    ensures forall c :: c in dropped ==> c.id !in s'.byID
    ensures forall r :: r in s'.byRequest ==> |s'.byRequest[r]| <= max
    ensures forall c, d :: c in AllListed(s') && d in dropped && c.requestID == d.requestID ==> Newer(c, d)
  {
    hide Newer, Kept, Valid, Dropped;
    forall r | r in s.byRequest {
      ListedAt(s, s', max, dropped, r);
    }
    forall c
      ensures c in AllListed(s) <==> c in AllListed(s') || c in dropped
      ensures c in dropped ==> c !in AllListed(s') && c.id !in s'.byID
    {
      if c in AllListed(s') {
        var r :| r in s'.byRequest && c in s'.byRequest[r];
        assert c in s.byRequest[r];
      }
      if c in dropped {
        assert c in s.byRequest[c.requestID];
      }
    }
    assert AllListed(s') !! dropped;
  }

  lemma CreatingGrabKeepsValid(s: State, candidateID: int, entityType: string, entityID: string, now: Time)
    requires Valid(s)
    ensures forall k :: k in s.grabIndex ==> s.grabIndex[k] in s.grabs
    ensures candidateID in s.byID ==>
              var fp := s.byID[candidateID].release.fingerprint;
              var key := GrabKey(fp, entityType, entityID);
              var grab := Grab(s.nextGrab, candidateID, fp, entityType, entityID, now);
              fp == "" || key !in s.grabIndex ==>
                Valid(s.(grabs := s.grabs[grab.id := grab], nextGrab := grab.id + 1,
                         grabIndex := if fp != "" then s.grabIndex[key := grab.id] else s.grabIndex))
  {
    hide RequestsIndexed, LeasesCoherent, CandidatesIndexed;
  }

  ghost predicate GrabStep(s: State, s': State, candidateID: int, entityType: string, entityID: string, now: Time,
                           r: Result<Grab, Error>) {
    if candidateID !in s.byID then
      r == Err(NotFound) && s' == s
    else
      var fp := s.byID[candidateID].release.fingerprint;
      var key := GrabKey(fp, entityType, entityID);
      if fp != "" && key in s.grabIndex then
        s.grabIndex[key] in s.grabs && r == Ok(s.grabs[s.grabIndex[key]]) && s' == s
      else
        var grab := Grab(s.nextGrab, candidateID, fp, entityType, entityID, now);
        && r == Ok(grab)
        && s' == s.(grabs := s.grabs[grab.id := grab], nextGrab := grab.id + 1,
                    grabIndex := if fp != "" then s.grabIndex[key := grab.id] else s.grabIndex)
  }

  function ExpiredIDs(s: State, now: Time): set<int> {
    set id | id in s.requests && Expired(s.requests[id], now)
  }

  /** A recovery pass over the `chosen` expired requests. */
  ghost predicate RecoverStep(s: State, s': State, chosen: set<int>, now: Time) {
    && chosen <= ExpiredIDs(s, now)
    && s'.requests.Keys == s.requests.Keys
    && (forall id :: id in s.requests ==> s'.requests[id] == if id in chosen then Recovered(s.requests[id], now)
       else s.requests[id])
    && s' == s.(requests := s'.requests)
  }

  lemma RecoverNothing(s: State, now: Time)
    ensures RecoverStep(s, s, {}, now) && ExpiredIDs(s, now) - s.requests.Keys == {}
  {
  }

  lemma RecoverSpares(s0: State, s: State, chosen: set<int>, id: int, now: Time)
    requires RecoverStep(s0, s, chosen, now) && id in s0.requests && id !in chosen
    ensures id in s.requests && s.requests[id] == s0.requests[id]
  {
  }

  lemma RecoverExtends(s0: State, s: State, chosen: set<int>, id: int, now: Time)
    requires RecoverStep(s0, s, chosen, now) && id in ExpiredIDs(s0, now) - chosen
    ensures id in s.requests
    ensures RecoverStep(s0, s.(requests := s.requests[id := Recovered(s.requests[id], now)]), chosen + {id}, now)
  {
  }

  lemma InExpired(s: State, id: int, now: Time)
    ensures id in ExpiredIDs(s, now) <==>
              id in s.requests && s.requests[id].status == Running && s.requests[id].lease.Some?
                  && s.requests[id].lease.value <= now
  {
  }
}
