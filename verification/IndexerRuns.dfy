/** Runs of the indexer store: its requests refine the lease machine, and its grabs are forever. */
module IndexerRuns {
  import opened Wrappers
  import L = LeaseMachine
  import opened Text
  import opened IndexerStore
  import F = Fingerprints
  import P = Paths

  datatype Op =
    | CreateOrGet(key: string, entityType: string, entityID: string, maxAttempts: int)
    | TryLock(worker: string, id: int)
    | Recover(chosen: set<int>)
    | Reschedule(id: int, err: string, notBefore: L.Time, terminal: bool)
    | Succeed(id: int)
    | Replace(requestID: int, releases: seq<Release>)
    | Prune(max: nat, dropped: set<Candidate>)
    | MakeGrab(candidateID: int, entityType: string, entityID: string, result: Result<Grab, Error>)

  /** The atomic steps of the store, as its methods ensure them. */
  ghost predicate Step(s: State, s': State, op: Op, now: L.Time) {
    match op
    case CreateOrGet(key, entityType, entityID, maxAttempts) =>
      if key in s.keyToID then s' == s
      else
        var r := Created(s.nextRequest, key, entityType, entityID, maxAttempts, now);
        s' == s.(requests := s.requests[r.id := r], keyToID := s.keyToID[key := r.id], nextRequest := r.id + 1)
    case TryLock(worker, id) => SqlLock(s, s', id, worker, now)
    case Recover(chosen) => RecoverStep(s, s', chosen, now)
    case Reschedule(id, err, notBefore, terminal) =>
      id in s.requests
          && s' == s.(requests := s.requests[id := Rescheduled(s.requests[id], err, notBefore, terminal, now)])
    case Succeed(id) =>
      id in s.requests && s' == s.(requests := s.requests[id := Finished(s.requests[id], now)])
    case Replace(requestID, releases) =>
      requestID in s.requests && s' == Replaced(s, requestID, Records(releases, requestID, s.nextCandidate, now))
    case Prune(max, dropped) => PruneStep(s, s', max, s.byRequest.Keys, dropped)
    case MakeGrab(candidateID, entityType, entityID, result) =>
      GrabStep(s, s', candidateID, entityType, entityID, now, result)
  }

  lemma RecoveryKeepsValid(s: State, s': State, chosen: set<int>, now: L.Time)
    requires Valid(s) && RecoverStep(s, s', chosen, now)
    ensures Valid(s')
  {
    hide CandidatesIndexed, GrabsIndexed, L.Backoff;
    forall id | id in s'.requests
      ensures s'.requests[id].id == id && s'.requests[id].key == s.requests[id].key && Coherent(s'.requests[id])
    {
      assert Coherent(s.requests[id]);
    }
  }

  lemma PruneStepKeepsValid(s: State, s': State, max: nat, dropped: set<Candidate>)
    requires Valid(s) && PruneStep(s, s', max, s.byRequest.Keys, dropped)
    ensures Valid(s')
  {
    forall r | r in s'.byRequest
      ensures Listed(s'.byID, s'.byRequest[r], r)
    {
      assert Listed(s.byID, s.byRequest[r], r);
      KeptIsNewest(s.byID, s.byRequest[r], r, max);
      hide Newer, Kept;
      forall i | 0 <= i < |s'.byRequest[r]|
        ensures s'.byRequest[r][i] !in dropped
      {
        assert s'.byRequest[r][i] in s'.byRequest[r];
      }
    }
  }

  lemma StepKeepsValid(s: State, s': State, op: Op, now: L.Time)
    requires Valid(s) && Step(s, s', op, now)
    ensures Valid(s')
  {
    hide Valid;
    match op {
      case CreateOrGet(key, entityType, entityID, maxAttempts) =>
        if key !in s.keyToID {
          CreatingKeepsValid(s, key, entityType, entityID, maxAttempts, now);
        }
      case TryLock(worker, id) =>
        RequestFacts(s, id);
        UpdateKeepsValid(s, id, Locked(s.requests[id], worker, now));
      case Recover(chosen) => RecoveryKeepsValid(s, s', chosen, now);
      case Reschedule(id, err, notBefore, terminal) =>
        RequestFacts(s, id);
        UpdateKeepsValid(s, id, Rescheduled(s.requests[id], err, notBefore, terminal, now));
      case Succeed(id) =>
        RequestFacts(s, id);
        UpdateKeepsValid(s, id, Finished(s.requests[id], now));
      case Replace(requestID, releases) => ReplacingKeepsValid(s, requestID, releases, now);
      case Prune(max, dropped) => PruneStepKeepsValid(s, s', max, dropped);
      case MakeGrab(candidateID, entityType, entityID, _) =>
        CreatingGrabKeepsValid(s, candidateID, entityType, entityID, now);
    }
  }

  ghost predicate Run(states: seq<State>, ops: seq<Op>, times: seq<L.Time>) {
    && |states| == |ops| + 1 && |times| == |ops|
    && Valid(states[0])
    && (forall i :: 0 <= i < |ops| ==> Step(states[i], states[i + 1], ops[i], times[i]))
    && (forall i, k :: 0 <= i <= k < |times| ==> times[i] <= times[k])
  }

  /** Every reachable state is valid: in particular running, locked and leased coincide. */
  lemma {:induction false} RunIsValid(states: seq<State>, ops: seq<Op>, times: seq<L.Time>, i: nat)
    requires Run(states, ops, times) && i <= |ops|
    ensures Valid(states[i])
  {
    if i > 0 {
      RunIsValid(states, ops, times, i - 1);
      StepKeepsValid(states[i - 1], states[i], ops[i - 1], times[i - 1]);
    }
  }

  // ---- leases

  function CellOf(r: Request): L.Cell {
    var phase := if r.status == Queued then L.Ready else if r.status == Running then L.Leased else L.Parked;
    L.Cell(phase, r.attempts, r.maxAttempts, r.notBefore, r.lease)
  }

  /** The request's cell, if there is such a request. */
  function CellIn(s: State, id: int): Option<L.Cell> {
    if id in s.requests then Some(CellOf(s.requests[id])) else None
  }

  /** Requests are created with at least one attempt. */
  predicate Proper(op: Op) {
    op.CreateOrGet? ==> op.maxAttempts >= 1
  }

  function MoveOf(s: State, op: Op, id: int): L.Move {
    if id !in s.requests then L.Stay
    else match op
    case TryLock(_, i) => if i == id then L.Claim else L.Stay
    case Recover(chosen) => if id in chosen then L.Recover else L.Stay
    case Reschedule(i, _, _, terminal) =>
      if i != id then L.Stay
      else if terminal || s.requests[id].attempts >= s.requests[id].maxAttempts then L.Park else L.Requeue
    case Succeed(i) => if i == id then L.Park else L.Stay
    case _ => L.Stay
  }

  function RecoveryPause(): L.Pause {
    a => L.Backoff(a)
  }

  /** Each store step moves each request as the lease machine allows, and creates it fresh. */
  lemma StepRefinesLeaseMachine(s: State, s': State, op: Op, now: L.Time, id: int)
    requires Valid(s) && Step(s, s', op, now) && Proper(op)
    ensures L.LifeStep(CellIn(s, id), CellIn(s', id), MoveOf(s, op, id), now, RecoveryPause())
  {
    hide CandidatesIndexed, GrabsIndexed, PruneStep, Replaced, Records, Kept, L.Next;
    if id in s.requests {
      assert Coherent(s.requests[id]);
      RequestMoves(s.requests[id], now);
    }
    hide CellOf, RecoveryPause, Locked, Recovered, Rescheduled, Finished;
    match op {
      case CreateOrGet(key, entityType, entityID, maxAttempts) =>
        CreatedIsFresh(s.nextRequest, key, entityType, entityID, maxAttempts, now);
      case Prune(max, dropped) => PruneKeepsRequests(s, s', max, dropped);
      case Replace(requestID, releases) => ReplaceKeepsRequests(s, requestID,
                                                                Records(releases, requestID, s.nextCandidate, now));
      case _ =>
    }
  }

  lemma CreatedIsFresh(id: int, key: string, entityType: string, entityID: string, maxAttempts: int, now: L.Time)
    requires maxAttempts >= 1
    ensures L.Fresh(CellOf(Created(id, key, entityType, entityID, maxAttempts, now)))
  {
  }

  // what each rewriting of a request means to its cell
  lemma RequestMoves(r: Request, now: L.Time)
    requires Coherent(r)
    ensures L.Next(CellOf(r), CellOf(r), L.Stay, now, RecoveryPause())
    ensures r.status == Queued && r.notBefore <= now ==>
              forall worker :: L.Next(CellOf(r), CellOf(Locked(r, worker, now)), L.Claim, now, RecoveryPause())
    ensures Expired(r, now) ==> L.Next(CellOf(r), CellOf(Recovered(r, now)), L.Recover, now, RecoveryPause())
    ensures forall err, notBefore, terminal ::
              L.Next(CellOf(r), CellOf(Rescheduled(r, err, notBefore, terminal, now)),
                     if terminal || r.attempts >= r.maxAttempts then L.Park else L.Requeue, now, RecoveryPause())
    ensures L.Next(CellOf(r), CellOf(Finished(r, now)), L.Park, now, RecoveryPause())
  {
    hide L.Backoff;
  }

  lemma PruneKeepsRequests(s: State, s': State, max: nat, dropped: set<Candidate>)
    requires PruneStep(s, s', max, s.byRequest.Keys, dropped)
    ensures s'.requests == s.requests && s'.keyToID == s.keyToID && s'.grabs == s.grabs && s'.grabIndex == s.grabIndex
  {
  }

  lemma ReplaceKeepsRequests(s: State, requestID: int, records: seq<Candidate>)
    ensures var s' := Replaced(s, requestID, records);
            s'.requests == s.requests && s'.keyToID == s.keyToID && s'.grabs == s.grabs && s'.grabIndex == s.grabIndex
  {
  }

  ghost predicate ProperRun(states: seq<State>, ops: seq<Op>, times: seq<L.Time>) {
    Run(states, ops, times) && forall i :: 0 <= i < |ops| ==> Proper(ops[i])
  }

  ghost function Cells(states: seq<State>, id: int): (cells: seq<Option<L.Cell>>)
    ensures |cells| == |states| && forall i :: 0 <= i < |states| ==> cells[i] == CellIn(states[i], id)
  {
    seq(|states|, i requires 0 <= i < |states| => CellIn(states[i], id))
  }

  ghost function Moves(states: seq<State>, ops: seq<Op>, id: int): (moves: seq<L.Move>)
    requires |states| == |ops| + 1
    ensures |moves| == |ops| && forall i :: 0 <= i < |ops| ==> moves[i] == MoveOf(states[i], ops[i], id)
  {
    seq(|ops|, i requires 0 <= i < |ops| => MoveOf(states[i], ops[i], id))
  }

  /** Seen from one request, created before or during it, a run of the store is a run of the lease machine. */
  lemma RunRefinesLeaseMachine(states: seq<State>, ops: seq<Op>, times: seq<L.Time>, id: int)
    requires ProperRun(states, ops, times)
    ensures |states| == |ops| + 1 && L.Run(Cells(states, id), Moves(states, ops, id), times, RecoveryPause())
  {
    hide Valid, L.LifeStep, MoveOf, CellIn, RecoveryPause, Step;
    forall i | 0 <= i < |ops|
      ensures L.LifeStep(Cells(states, id)[i], Cells(states, id)[i + 1], Moves(states, ops, id)[i], times[i],
                         RecoveryPause())
    {
      RunIsValid(states, ops, times, i);
      StepOfRun(states, ops, times, i);
      StepRefinesLeaseMachine(states[i], states[i + 1], ops[i], times[i], id);
    }
  }

  /** How often a request is locked for a search. */
  function LocksOf(ops: seq<Op>, id: int): nat {
    if ops == [] then 0
    else LocksOf(ops[..|ops| - 1], id) + if ops[|ops| - 1].TryLock? && ops[|ops| - 1].id == id then 1 else 0
  }

  lemma {:induction false} MovesCount(states: seq<State>, ops: seq<Op>, times: seq<L.Time>, id: int, n: nat)
    requires Run(states, ops, times) && n <= |ops|
    ensures L.Count(Moves(states, ops, id)[..n], L.Claim) == LocksOf(ops[..n], id)
    ensures L.Count(Moves(states, ops, id)[..n], L.Retry) == 0
  {
    hide MoveOf, Step, Valid;
    if n > 0 {
      var moves := Moves(states, ops, id);
      StepOfRun(states, ops, times, n - 1);
      MoveMeans(states[n - 1], states[n], ops[n - 1], times[n - 1], id);
      MovesCount(states, ops, times, id, n - 1);
      assert moves[..n][..n - 1] == moves[..n - 1] && ops[..n][..n - 1] == ops[..n - 1];
      assert moves[n - 1] == MoveOf(states[n - 1], ops[n - 1], id);
    }
  }

  lemma MoveMeans(s: State, s': State, op: Op, now: L.Time, id: int)
    requires Step(s, s', op, now)
    ensures MoveOf(s, op, id) == L.Claim <==> op.TryLock? && op.id == id
    ensures MoveOf(s, op, id) != L.Retry
  {
  }

  /**
    In any run every search request that is created in it, or fresh at its start, is locked at most
    `maxAttempts` times: it has no operator retry.
  */
  lemma LocksAreBounded(states: seq<State>, ops: seq<Op>, times: seq<L.Time>, id: int)
    requires ProperRun(states, ops, times) && L.New(CellIn(states[0], id)) && id in states[|ops|].requests
    ensures LocksOf(ops, id) <= states[|ops|].requests[id].maxAttempts
  {
    RunRefinesLeaseMachine(states, ops, times, id);
    MovesCount(states, ops, times, id, |ops|);
    hide Run, L.Run, L.New, LocksOf, RecoveryPause;
    var moves := Moves(states, ops, id);
    assert moves[..|ops|] == moves && ops[..|ops|] == ops;
    L.ClaimsAreBounded(Cells(states, id), moves, times, RecoveryPause());
  }

  /** Two locks of one request with no reschedule between them are a lease and the backoff apart. */
  lemma LocksAreSpaced(states: seq<State>, ops: seq<Op>, times: seq<L.Time>, id: int, i: nat, k: nat)
    requires ProperRun(states, ops, times)
    requires i < k < |ops| && ops[i].TryLock? && ops[i].id == id && ops[k].TryLock? && ops[k].id == id
    requires forall m :: i < m < k ==> !(ops[m].Reschedule? && ops[m].id == id)
    ensures id in states[i + 1].requests
    ensures times[k] >= times[i] + L.TTL + L.Backoff(states[i + 1].requests[id].attempts + 1)
  {
    RunRefinesLeaseMachine(states, ops, times, id);
    forall a, b | a <= b
      ensures 0 <= RecoveryPause()(a) <= RecoveryPause()(b)
    {
      L.BackoffGrows(a, b);
    }
    StepOfRun(states, ops, times, i);
    StepOfRun(states, ops, times, k);
    MoveMeans(states[i], states[i + 1], ops[i], times[i], id);
    MoveMeans(states[k], states[k + 1], ops[k], times[k], id);
    hide Step, Run;
    L.ClaimsAreSpaced(Cells(states, id), Moves(states, ops, id), times, RecoveryPause(), i, k);
  }

  // ---- indexes are forever

  ghost predicate Extends<K, V>(m: map<K, V>, m': map<K, V>) {
    forall k :: k in m ==> k in m' && m'[k] == m[k]
  }

  lemma StepKeepsIndexes(s: State, s': State, op: Op, now: L.Time)
    requires Valid(s) && Step(s, s', op, now)
    ensures Extends(s.grabs, s'.grabs) && Extends(s.grabIndex, s'.grabIndex) && Extends(s.keyToID, s'.keyToID)
  {
    hide CandidatesIndexed, LeasesCoherent, PruneStep, Replaced, Records;
    match op {
      case Prune(max, dropped) => PruneKeepsRequests(s, s', max, dropped);
      case Replace(requestID, releases) => ReplaceKeepsRequests(s, requestID,
                                                                Records(releases, requestID, s.nextCandidate, now));
      case _ =>
    }
  }

  lemma {:induction false} RunKeepsIndexes(states: seq<State>, ops: seq<Op>, times: seq<L.Time>, i: nat, k: nat)
    requires Run(states, ops, times) && i <= k <= |ops|
    ensures Extends(states[i].grabs, states[k].grabs) && Extends(states[i].grabIndex, states[k].grabIndex)
    ensures Extends(states[i].keyToID, states[k].keyToID)
    decreases k
  {
    hide Run, Step, Valid;
    if i < k {
      StepOfRun(states, ops, times, k - 1);
      RunKeepsIndexes(states, ops, times, i, k - 1);
      RunIsValid(states, ops, times, k - 1);
      StepKeepsIndexes(states[k - 1], states[k], ops[k - 1], times[k - 1]);
    }
  }

  /** Once a release was grabbed for an entity, grabbing it again for that entity returns that same grab, forever. */
  lemma SameGrabForever(states: seq<State>, ops: seq<Op>, times: seq<L.Time>, i: nat, k: nat)
    requires Run(states, ops, times) && i < k < |ops| && ops[i].MakeGrab? && ops[k].MakeGrab?
    requires ops[i].candidateID in states[i].byID && ops[k].candidateID in states[k].byID
    requires states[i].byID[ops[i].candidateID].release.fingerprint != ""
    requires states[k].byID[ops[k].candidateID].release.fingerprint
             == states[i].byID[ops[i].candidateID].release.fingerprint
    requires ops[k].entityType == ops[i].entityType && ops[k].entityID == ops[i].entityID
    ensures ops[k].result == ops[i].result
  {
    RunIsValid(states, ops, times, i);
    RunKeepsIndexes(states, ops, times, i + 1, k);
    hide Run, Valid, GrabKey;
    var s' := states[i + 1];
    var key := GrabKey(states[i].byID[ops[i].candidateID].release.fingerprint, ops[i].entityType, ops[i].entityID);
    StepOfRun(states, ops, times, i);
    StepOfRun(states, ops, times, k);
    assert key in s'.grabIndex && s'.grabIndex[key] in s'.grabs && ops[i].result == Ok(s'.grabs[s'.grabIndex[key]]);
    assert key in states[k].grabIndex;
  }

  lemma StepOfRun(states: seq<State>, ops: seq<Op>, times: seq<L.Time>, i: nat)
    requires Run(states, ops, times) && i < |ops|
    ensures |states| == |ops| + 1 && |times| == |ops|
    ensures Step(states[i], states[i + 1], ops[i], times[i])
  {
  }

  predicate NoBar(s: string) {
    '|' !in s
  }

  lemma EndsInBar(a: string, x: string)
    requires NoBar(x)
    ensures (a + "|" + x)[|a| + |x|] == '|' <==> x == ""
    ensures x != "" ==> (a + "|" + x)[..|a| + |x|] == a + "|" + x[..|x| - 1] && (a + "|" + x)[|a| + |x|] == x[|x| - 1]
    ensures x == "" ==> (a + "|" + x)[..|a|] == a
  {
  }

  // the part of a joined key before its last bar is determined when nothing after it holds a bar
  lemma {:induction false} LastBarSplits(a: string, b: string, x: string, y: string)
    requires NoBar(x) && NoBar(y) && a + "|" + x == b + "|" + y
    ensures a == b && x == y
    decreases |x|
  {
    assert |a + "|" + x| == |b + "|" + y|;
    EndsInBar(a, x);
    EndsInBar(b, y);
    if x != "" {
      var x', y' := x[..|x| - 1], y[..|y| - 1];
      LastBarSplits(a, b, x', y');
      assert x == x' + [x[|x| - 1]] && y == y' + [y[|y| - 1]];
    }
  }

  /** The joined key tells entities apart as long as entity type and id hold no bar. */
  lemma GrabKeyIsInjective(f: string, t: string, e: string, f': string, t': string, e': string)
    requires NoBar(t) && NoBar(e) && NoBar(t') && NoBar(e')
    requires GrabKey(f, t, e) == GrabKey(f', t', e')
    ensures f == f' && t == t' && e == e'
  {
    LastBarSplits(f + "|" + t, f' + "|" + t', e, e');
    LastBarSplits(f, f', t, t');
  }

  /** A grab, new or old, carries the fingerprint and entity it was asked for in its key. */
  lemma GrabHasKey(s: State, s': State, candidateID: int, entityType: string, entityID: string, now: L.Time,
                   r: Result<Grab, Error>)
    requires Valid(s) && GrabStep(s, s', candidateID, entityType, entityID, now, r) && candidateID in s.byID
    requires s.byID[candidateID].release.fingerprint != ""
    ensures var key := GrabKey(s.byID[candidateID].release.fingerprint, entityType, entityID);
            r.Ok? && KeyOf(r.value) == key && key in s'.grabIndex && s'.grabIndex[key] in s'.grabs
                && s'.grabs[s'.grabIndex[key]] == r.value
    ensures Valid(s')
  {
    StepKeepsValid(s, s', MakeGrab(candidateID, entityType, entityID, r), now);
    hide RequestsIndexed, LeasesCoherent, CandidatesIndexed, GrabKey;
  }

  /** Two successive grabs of fingerprinted releases return one grab if and only if their joined keys agree. */
  lemma TwoGrabsAreOneIff(s0: State, s1: State, s2: State, c1: int, c2: int, t1: string, e1: string, t2: string,
                          e2: string,
                          n1: L.Time, n2: L.Time, r1: Result<Grab, Error>, r2: Result<Grab, Error>)
    requires Valid(s0) && c1 in s0.byID && c2 in s1.byID
    requires GrabStep(s0, s1, c1, t1, e1, n1, r1) && GrabStep(s1, s2, c2, t2, e2, n2, r2)
    requires s0.byID[c1].release.fingerprint != "" && s1.byID[c2].release.fingerprint != ""
    ensures r1 == r2
            <==> GrabKey(s0.byID[c1].release.fingerprint, t1, e1) == GrabKey(s1.byID[c2].release.fingerprint, t2, e2)
  {
    GrabHasKey(s0, s1, c1, t1, e1, n1, r1);
    GrabHasKey(s1, s2, c2, t2, e2, n2, r2);
    hide Valid, GrabKey;
  }

  /** Some other entity of the same release has the same key. */
  ghost predicate Confusable(fingerprint: string, entityType: string, entityID: string) {
    exists t, e :: (t != entityType || e != entityID)
        && GrabKey(fingerprint, t, e) == GrabKey(fingerprint, entityType, entityID)
  }

  /** For one release, an entity can be taken for another if and only if its type or ID holds a bar. */
  lemma ConfusableIff(fingerprint: string, entityType: string, entityID: string)
    ensures Confusable(fingerprint, entityType, entityID) <==> !NoBar(entityType) || !NoBar(entityID)
  {
    if !NoBar(entityID) {
      var i :| 0 <= i < |entityID| && entityID[i] == '|';
      BarMoves(fingerprint, entityType, entityID[..i], entityID[i + 1..]);
      assert entityID == entityID[..i] + "|" + entityID[i + 1..];
      assert |entityType + "|" + entityID[..i]| > |entityType|;
    } else if !NoBar(entityType) {
      var i :| 0 <= i < |entityType| && entityType[i] == '|';
      BarMoves(fingerprint, entityType[..i], entityType[i + 1..], entityID);
      assert entityType == entityType[..i] + "|" + entityType[i + 1..];
      assert |entityType[..i]| < |entityType|;
    } else {
      forall t, e | GrabKey(fingerprint, t, e) == GrabKey(fingerprint, entityType, entityID)
        ensures t == entityType && e == entityID
      {
        OneBarSplits(fingerprint, t, e, entityType, entityID);
      }
    }
  }

  // a bar can be read as belonging to the type or to the ID
  lemma BarMoves(fingerprint: string, x: string, y: string, z: string)
    ensures GrabKey(fingerprint, x + "|" + y, z) == GrabKey(fingerprint, x, y + "|" + z)
  {
    assert GrabKey(fingerprint, x + "|" + y, z) == fingerprint + "|" + x + "|" + y + "|" + z;
  }

  lemma OneBarSplits(fingerprint: string, t: string, e: string, entityType: string, entityID: string)
    requires NoBar(entityType) && NoBar(entityID)
    requires GrabKey(fingerprint, t, e) == GrabKey(fingerprint, entityType, entityID)
    ensures t == entityType && e == entityID
  {
    var n := |fingerprint| + 1;
    var s, s' := t + "|" + e, entityType + "|" + entityID;
    assert GrabKey(fingerprint, t, e)[n..] == s && GrabKey(fingerprint, entityType, entityID)[n..] == s';
    assert s[|t|] == '|' && forall i :: 0 <= i < |s'| && s'[i] == '|' ==> i == |entityType|;
    assert s[..|t|] == t && s'[..|entityType|] == entityType;
    assert s[|t| + 1..] == e && s'[|entityType| + 1..] == entityID;
  }

  /** The fingerprint of a release called Dune with no identifiers and no size. */
  lemma DuneFingerprint()
    ensures F.Fingerprint(F.Candidate("c", "Dune", "torrent", map[], None, None, "", 0.0)) == "dune|torrent|"
  {
    hide Trim, ToLower, Fields, F.IdentifierPart, F.Normal, P.Join;
    NoIdentifiers();
    DuneTitle();
    TorrentIsNormal();
    assert "dune" + "|" + "torrent" + "|" + "" == "dune|torrent|";
  }

  lemma NoIdentifiers()
    ensures F.IdentifierPart(map[]) == ""
  {
    assert F.Listing(map[]) == [];
  }

  lemma TorrentIsNormal()
    ensures F.Normal("torrent") == "torrent"
  {
    TrimmedIsFixed("torrent");
    assert ToLower("torrent") == "torrent";
  }

  lemma DuneTitle()
    ensures ToLower(P.Join(Fields(Trim("Dune")), ' ')) == "dune"
  {
    TrimmedIsFixed("Dune");
    DuneIsOneWord();
    assert ToLower("Dune") == "dune";
    hide Trim, Fields;
    assert P.Join(["Dune"], ' ') == "Dune";
  }

  lemma DuneIsOneWord()
    ensures Fields("Dune") == ["Dune"]
  {
    assert "Dune"[1..] == "une";
    assert "une"[1..] == "ne";
    assert "ne"[1..] == "e";
    assert "e"[1..] == "";
    assert Word("") == "" && Word("e") == "e" && Word("ne") == "ne";
    assert Word("une") == "une" && Word("Dune") == "Dune";
    assert "Dune"[4..] == "" && Fields("") == [];
  }

  /** Grabbing that release for the work `a|b` and then for `b` as a `work|a` returns the first entity's grab. */
  lemma GrabsCanBeConfused(s0: State, s1: State, s2: State, c: int, n1: L.Time, n2: L.Time, r1: Result<Grab, Error>,
                           r2: Result<Grab, Error>)
    requires Valid(s0) && c in s0.byID && c in s1.byID
    requires GrabStep(s0, s1, c, "work", "a|b", n1, r1) && GrabStep(s1, s2, c, "work|a", "b", n2, r2)
    requires s0.byID[c].release.fingerprint == s1.byID[c].release.fingerprint
             == F.Fingerprint(F.Candidate("c", "Dune", "torrent", map[], None, None, "", 0.0))
    ensures r1.Ok? && r2 == r1
  {
    hide *;
    DuneFingerprint();
    GrabHasKey(s0, s1, c, "work", "a|b", n1, r1);
    TwoGrabsAreOneIff(s0, s1, s2, c, c, "work", "a|b", "work|a", "b", n1, n2, r1, r2);
    BarMoves("dune|torrent|", "work", "a", "b");
    assert "work" + "|" + "a" == "work|a" && "a" + "|" + "b" == "a|b";
  }
}
