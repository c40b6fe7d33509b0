/** Dispatching one search: ordering the backends, collecting, deduplicating, scoring and cutting their candidates. */
module SearchPipeline {
  import opened Wrappers
  import opened Text
  import opened Sorting
  import opened Fingerprints
  import MediaNames

  datatype Tier = Primary | Secondary | Fallback | Quarantine | Unknown

  datatype Backend = Backend(id: string, enabled: bool, tier: Tier, reliability: real, priority: int, preferred: bool)

  datatype Query = Query(title: string, isbn: string, doi: string, maxCandidates: int)

  /** What the backends answer in one run: candidates, or an error. */
  type Answers = string -> Option<seq<Candidate>>

  function TierRank(t: Tier): int {
    match t case Primary => 0 case Secondary => 1 case Fallback => 2 case Quarantine => 3 case Unknown => 4
  }

  // ---- the dispatch order

  predicate ByPriority(a: Backend, b: Backend) {
    if a.priority == b.priority then StringLess(a.id, b.id) else a.priority < b.priority
  }

  predicate DispatchLess(a: Backend, b: Backend) {
    if a.preferred != b.preferred then a.preferred
    else if TierRank(a.tier) != TierRank(b.tier) then TierRank(a.tier) < TierRank(b.tier)
    else if a.reliability != b.reliability then a.reliability > b.reliability
    else a.priority < b.priority
  }

  /** Preferred first, then by tier, then the more reliable, then by priority, then by ID. */
  predicate DispatchOrder(a: Backend, b: Backend) {
    || (a.preferred && !b.preferred)
    || (a.preferred == b.preferred && TierRank(a.tier) < TierRank(b.tier))
    || (a.preferred == b.preferred && TierRank(a.tier) == TierRank(b.tier) && a.reliability > b.reliability)
    || (a.preferred == b.preferred && TierRank(a.tier) == TierRank(b.tier) && a.reliability == b.reliability
        && (a.priority < b.priority || (a.priority == b.priority && StringLess(a.id, b.id))))
  }

  lemma OrdersAreStrict()
    ensures StrictOrder(ByPriority) && StrictOrder(DispatchOrder) && WeakOrder(DispatchLess)
    ensures forall a: Backend, b: Backend :: a.id == b.id || ByPriority(a, b) || ByPriority(b, a)
  {
    hide StringLess, TierRank;
    StringLessIsStrict();
  }

  /** The stable dispatch sort of the list by priority is one sort by the dispatch order. */
  lemma DispatchSortIsLexicographic(list: seq<Backend>)
    requires Ascending(list, ByPriority)
    ensures Ascending(Sort(list, DispatchLess), DispatchOrder)
  {
    OrdersAreStrict();
    StableSortIsLexicographic(list, DispatchLess, ByPriority);
    hide StringLess, TierRank, StrictOrder, WeakOrder;
    var s := Sort(list, DispatchLess);
    forall i, k | 0 <= i < k < |s|
      ensures DispatchOrder(s[i], s[k])
    {
      assert Lex(DispatchLess, ByPriority)(s[i], s[k]);
    }
  }

  const TIERS: seq<Tier> := [Primary, Secondary, Fallback, Quarantine, Unknown]

  /** In this very order, ties included. */
  ghost predicate NoLaterTier(a: Tier, b: Tier) {
    exists p, q :: 0 <= p <= q < |TIERS| && TIERS[p] == a && TIERS[q] == b
  }

  /**
    What comes earlier in the order of dispatch: a preferred backend before any other; then the better tier, the
    quarantined ones near the end; then the more reliable; then the one of smaller priority and ID.
  */
  lemma DispatchMeans(order: seq<Backend>, i: nat, k: nat)
    requires Ascending(order, DispatchOrder) && i < k < |order|
    ensures var a, b := order[i], order[k];
            && (b.preferred ==> a.preferred)
            && (a.preferred == b.preferred ==> NoLaterTier(a.tier, b.tier))
            && (a.preferred == b.preferred && a.tier == b.tier ==> a.reliability >= b.reliability)
            && (a.preferred == b.preferred && a.tier == b.tier && a.reliability == b.reliability ==>
                  a.priority < b.priority || (a.priority == b.priority && StringLess(a.id, b.id)))
  {
    hide StringLess;
    var a, b := order[i], order[k];
    assert DispatchOrder(a, b);
    hide DispatchOrder;
    RankIsPlace(a.tier);
    RankIsPlace(b.tier);
  }

  lemma RankIsPlace(t: Tier)
    ensures 0 <= TierRank(t) < |TIERS| && TIERS[TierRank(t)] == t
  {
  }

  predicate Eligible(b: Backend, searchable: set<string>, quarantineDisabled: bool) {
    b.enabled && !(b.tier == Quarantine && quarantineDisabled) && b.id in searchable
  }

  // ---- collecting and deduplicating

  /** The candidates of one backend, marked with their source. */
  function Marked(cands: seq<Candidate>, source: string): (r: seq<Candidate>)
    ensures |r| == |cands| && forall i :: 0 <= i < |r| ==> r[i] == cands[i].(source := source)
  {
    seq(|cands|, i requires 0 <= i < |cands| => cands[i].(source := source))
  }

  function From(b: Backend, answers: Answers): seq<Candidate> {
    if answers(b.id).None? then [] else Marked(answers(b.id).value, b.id)
  }

  /** All answers, in the order of dispatch. */
  function Collected(order: seq<Backend>, answers: Answers): seq<Candidate> {
    if order == [] then [] else Collected(order[..|order| - 1], answers) + From(order[|order| - 1], answers)
  }

  ghost predicate Seen(s: seq<Candidate>, fingerprint: string) {
    exists i :: 0 <= i < |s| && Fingerprint(s[i]) == fingerprint
  }

  /** The first candidate of every fingerprint. */
  ghost function Deduped(s: seq<Candidate>): seq<Candidate> {
    if s == [] then []
    else
      var front, last := s[..|s| - 1], s[|s| - 1];
      Deduped(front) + if Seen(front, Fingerprint(last)) then [] else [last]
  }

  ghost predicate DistinctFingerprints(s: seq<Candidate>) {
    forall i, k :: 0 <= i < k < |s| ==> Fingerprint(s[i]) != Fingerprint(s[k])
  }

  /** Deduplication keeps one candidate of every fingerprint. */
  lemma {:induction false} DedupedFacts(s: seq<Candidate>)
    ensures DistinctFingerprints(Deduped(s)) && |Deduped(s)| <= |s|
    ensures forall f :: Seen(s, f) <==> Seen(Deduped(s), f)
    ensures forall c :: c in Deduped(s) ==> c in s
  {
    hide *;
    DedupedStep(s);
    if s == [] {
      assert Deduped(s) == s;
      NoneIsDistinct(s);
    } else {
      var front, last := s[..|s| - 1], s[|s| - 1];
      DedupedFacts(front);
      assert s == front + [last];
      SeenSnoc(front, last);
      SeenSnoc(Deduped(front), last);
      if !Seen(front, Fingerprint(last)) {
        DistinctSnoc(Deduped(front), last);
      }
    }
  }

  lemma DedupedStep(s: seq<Candidate>)
    ensures s == [] ==> Deduped(s) == []
    ensures s != [] ==>
      Deduped(s) == if Seen(s[..|s| - 1], Fingerprint(s[|s| - 1])) then Deduped(s[..|s| - 1])
                    else Deduped(s[..|s| - 1]) + [s[|s| - 1]]
  {
    hide Seen, Fingerprint;
  }

  lemma NoneIsDistinct(s: seq<Candidate>)
    ensures s == [] ==> DistinctFingerprints(s)
  {
  }

  lemma SeenSnoc(s: seq<Candidate>, last: Candidate)
    ensures forall f :: Seen(s + [last], f) <==> Seen(s, f) || f == Fingerprint(last)
  {
    hide Fingerprint;
    var r := s + [last];
    assert r[|s|] == last && forall i :: 0 <= i < |s| ==> r[i] == s[i];
  }

  lemma DistinctSnoc(s: seq<Candidate>, last: Candidate)
    requires DistinctFingerprints(s) && !Seen(s, Fingerprint(last))
    ensures DistinctFingerprints(s + [last])
  {
    hide Fingerprint;
  }

  /** The backend returned a candidate of that fingerprint. */
  ghost predicate Returned(b: Backend, answers: Answers, fingerprint: string) {
    Seen(From(b, answers), fingerprint)
  }

  /** Among candidates of one fingerprint the one of the earliest dispatched backend survives. */
  ghost predicate FromEarliest(order: seq<Backend>, answers: Answers, c: Candidate) {
    exists i :: 0 <= i < |order| && c.source == order[i].id && c in From(order[i], answers)
                && forall k :: 0 <= k < i ==> !Returned(order[k], answers, Fingerprint(c))
  }

  lemma {:induction false} SurvivorsAreEarliest(order: seq<Backend>, answers: Answers, c: Candidate)
    requires c in Deduped(Collected(order, answers))
    ensures FromEarliest(order, answers, c)
  {
    hide Fingerprint, Seen, DistinctFingerprints;
    if order != [] {
      var n := |order| - 1;
      var before, own := Collected(order[..n], answers), From(order[n], answers);
      DedupedConcat(before, own);
      DedupedFacts(before);
      if c in Deduped(before) {
        SurvivorsAreEarliest(order[..n], answers, c);
        var i :| 0 <= i < n && c.source == order[..n][i].id && c in From(order[..n][i], answers)
                 && forall k :: 0 <= k < i ==> !Returned(order[..n][k], answers, Fingerprint(c));
        assert c.source == order[i].id && forall k :: 0 <= k < i ==> order[k] == order[..n][k];
      } else {
        assert c in own && !Seen(before, Fingerprint(c));
        forall k | 0 <= k < n
          ensures !Returned(order[k], answers, Fingerprint(c))
        {
          CollectedSees(order[..n], answers, k, Fingerprint(c));
        }
      }
    }
  }

  lemma SeenConcat(a: seq<Candidate>, b: seq<Candidate>, f: string)
    ensures Seen(a + b, f) <==> Seen(a, f) || Seen(b, f)
  {
    hide Fingerprint;
    var s := a + b;
    if Seen(b, f) {
      var i :| 0 <= i < |b| && Fingerprint(b[i]) == f;
      assert s[|a| + i] == b[i];
    }
    if Seen(a, f) {
      var i :| 0 <= i < |a| && Fingerprint(a[i]) == f;
      assert s[i] == a[i];
    }
  }

  lemma {:induction false} CollectedSees(order: seq<Backend>, answers: Answers, k: nat, f: string)
    requires k < |order|
    ensures Returned(order[k], answers, f) ==> Seen(Collected(order, answers), f)
  {
    hide Fingerprint, Seen;
    var n := |order| - 1;
    SeenConcat(Collected(order[..n], answers), From(order[n], answers), f);
    if k < n {
      CollectedSees(order[..n], answers, k, f);
    }
  }

  lemma {:induction false} DedupedConcat(a: seq<Candidate>, b: seq<Candidate>)
    ensures forall c :: c in Deduped(a + b) ==> c in Deduped(a) || (c in b && !Seen(a, Fingerprint(c)))
  {
    hide Fingerprint, Seen;
    if b == [] {
      assert a + b == a;
    } else {
      var n := |b| - 1;
      assert (a + b)[..|a + b| - 1] == a + b[..n];
      DedupedConcat(a, b[..n]);
      SeenConcat(a, b[..n], Fingerprint(b[n]));
    }
  }

  // ---- scoring

  predicate HasIdentifier(c: Candidate, target: string) {
    Normal(target) != "" && exists k :: k in c.identifiers && Normal(c.identifiers[k]) == Normal(target)
  }

  /** An identifier is matched by its text, whatever the spaces around it and the case, and a blank one by nothing. */
  lemma HasIdentifierIff(c: Candidate, target: string)
    ensures HasIdentifier(c, target)
            <==> && Trim(target) != ""
                 && ToLower(Trim(target)) in set k | k in c.identifiers :: ToLower(Trim(c.identifiers[k]))
  {
    hide Trim;
  }

  function Bonus(earned: bool, weight: real): real {
    if earned then weight else 0.0
  }

  function Score(c: Candidate, backends: map<string, Backend>, q: Query): real {
    var reliability := if c.source in backends then backends[c.source].reliability else 0.0;
    var total := 0.30 + reliability * 0.50
                 + Bonus(q.isbn != "" && HasIdentifier(c, q.isbn), 0.15)
                 + Bonus(q.doi != "" && HasIdentifier(c, q.doi), 0.15)
                 + Bonus(MediaNames.Contains(ToLower(c.title), ToLower(q.title)) && !Blank(q.title), 0.05)
                 + Bonus(c.seeders.Some? && c.seeders.value > 0, 0.05)
                 + Bonus(c.source in backends && backends[c.source].preferred, 0.10);
    if total > 0.99 then 0.99 else total
  }

  function AllScored(s: seq<Candidate>, backends: map<string, Backend>, q: Query): seq<Candidate> {
    if s == [] then []
    else AllScored(s[..|s| - 1], backends, q) + [s[|s| - 1].(score := Score(s[|s| - 1], backends, q))]
  }

  /** Higher scores first, then by candidate ID. */
  predicate Better(a: Candidate, b: Candidate) {
    if a.score == b.score then StringLess(a.candidateID, b.candidateID) else a.score > b.score
  }

  lemma BetterIsWeak()
    ensures WeakOrder(Better)
  {
    StringLessIsWeak();
    hide StringLess;
  }

  lemma {:induction false} ScoredFacts(s: seq<Candidate>, backends: map<string, Backend>, q: Query)
    ensures |AllScored(s, backends, q)| == |s|
    ensures forall i :: 0 <= i < |s| ==> AllScored(s, backends, q)[i] == s[i].(score := Score(s[i], backends, q))
  {
    if s != [] {
      hide Score;
      ScoredFacts(s[..|s| - 1], backends, q);
    }
  }

  /** The whole answer to a query, given the order of dispatch. */
  ghost function Ranked(order: seq<Backend>, answers: Answers, backends: map<string, Backend>,
                        q: Query): seq<Candidate> {
    Sort(AllScored(Deduped(Collected(order, answers)), backends, q), Better)
  }

  function Limit(q: Query): nat {
    if q.maxCandidates <= 0 || q.maxCandidates > 200 then 50 else q.maxCandidates
  }

  ghost function Answer(order: seq<Backend>, answers: Answers, backends: map<string, Backend>,
                        q: Query): seq<Candidate> {
    var ranked := Ranked(order, answers, backends, q);
    if |ranked| > Limit(q) then ranked[..Limit(q)] else ranked
  }

  // ---- the program

  ghost predicate IsDispatchOrder(backends: map<string, Backend>, searchable: set<string>, quarantineDisabled: bool,
                                  order: seq<Backend>) {
    && Ascending(order, DispatchOrder)
    && forall b ::
         b in order
         <==> b.id in backends && backends[b.id] == b && Eligible(b, searchable, quarantineDisabled)
  }

  class Orchestrator {
    var backends: map<string, Backend>
    const searchable: set<string>
    const quarantineDisabled: bool

    constructor (searchable: set<string>, quarantineDisabled: bool)
      ensures backends == map[] && this.searchable == searchable && this.quarantineDisabled == quarantineDisabled
    {
      backends := map[];
      this.searchable := searchable;
      this.quarantineDisabled := quarantineDisabled;
    }

    method ListBackends() returns (list: seq<Backend>)
      requires forall id :: id in backends ==> backends[id].id == id
      ensures Ascending(list, ByPriority)
      ensures forall b :: b in list <==> b.id in backends && backends[b.id] == b
    {
      var rest := backends.Keys;
      list := [];
      OrdersAreStrict();
      while rest != {}
        invariant rest <= backends.Keys
        invariant TotalOn(list, ByPriority)
        invariant forall b :: b in list <==> b.id in backends.Keys - rest && backends[b.id] == b
        modifies {}
        decreases |rest|
      {
        hide StrictOrder, WeakOrder, ByPriority, DispatchOrder, DispatchLess, StringLess;
        var id := Pick(rest);
        rest := rest - {id};
        list := list + [backends[id]];
      }
      var all := list;
      hide ByPriority;
      list := Sort(all, ByPriority);
      SortAscends(all, ByPriority);
      SortPermutes(all, ByPriority);
    }

    method OrderedBackends() returns (order: seq<Backend>)
      requires forall id :: id in backends ==> backends[id].id == id
      ensures IsDispatchOrder(backends, searchable, quarantineDisabled, order)
    {
      hide ByPriority, DispatchOrder, DispatchLess, StringLess;
      var records := ListBackends();
      var active := [];
      OrdersAreStrict();
      for i := 0 to |records|
        modifies {}
        invariant Ascending(active, ByPriority)
        invariant forall b :: b in active <==> b in records[..i] && Eligible(b, searchable, quarantineDisabled)
      {
        assert records[..i + 1] == records[..i] + [records[i]];
        var rec := records[i];
        if !rec.enabled || (rec.tier == Quarantine && quarantineDisabled) || rec.id !in searchable {
          continue;
        }
        assert forall b :: b in records[..i] ==> ByPriority(b, rec);
        active := active + [rec];
      }
      assert records[..|records|] == records;
      order := Sort(active, DispatchLess);
      DispatchSortIsLexicographic(active);
      SortPermutes(active, DispatchLess);
    }

    /** `ProcessRequest` up to storing the candidates. */
    method Search(q: Query, answers: Answers) returns (found: seq<Candidate>)
      requires forall id :: id in backends ==> backends[id].id == id
      ensures exists order :: IsDispatchOrder(backends, searchable, quarantineDisabled, order)
                              && found == Answer(order, answers, backends, q)
    {
      hide IsDispatchOrder, Fingerprint, Score;
      var order := OrderedBackends();
      var merged := [];
      for i := 0 to |order|
        modifies {}
        invariant merged == Collected(order[..i], answers)
      {
        assert order[..i + 1][..i] == order[..i];
        var r := answers(order[i].id);
        if r.None? {
          continue;
        }
        merged := merged + Marked(r.value, order[i].id);
      }
      assert order[..|order|] == order;
      merged := DedupeCandidates(merged);
      merged := ApplyScoring(merged, backends, q);
      var limit := q.maxCandidates;
      if limit <= 0 || limit > 200 {
        limit := 50;
      }
      if |merged| > limit {
        merged := merged[..limit];
      }
      found := merged;
    }
  }

  method DedupeCandidates(candidates: seq<Candidate>) returns (out: seq<Candidate>)
    ensures out == Deduped(candidates)
  {
    var seen: set<string> := {};
    out := [];
    for i := 0 to |candidates|
      invariant out == Deduped(candidates[..i])
      invariant forall f :: f in seen <==> Seen(candidates[..i], f)
    {
      hide Fingerprint, Seen, Deduped;
      var c := candidates[i];
      assert candidates[..i + 1] == candidates[..i] + [c];
      DedupedStep(candidates[..i + 1]);
      SeenSnoc(candidates[..i], c);
      var key := ReleaseFingerprint(c);
      if key in seen {
        continue;
      }
      seen := seen + {key};
      out := out + [c];
    }
    assert candidates[..|candidates|] == candidates;
  }

  method ApplyScoring(candidates: seq<Candidate>, backends: map<string, Backend>, q: Query)
    returns (out: seq<Candidate>)
    ensures out == Sort(AllScored(candidates, backends, q), Better)
  {
    hide HasIdentifier, Sort;
    out := [];
    for i := 0 to |candidates|
      invariant out == AllScored(candidates[..i], backends, q)
    {
      assert candidates[..i + 1][..i] == candidates[..i];
      var c := candidates[i];
      var score := 0.30 + (if c.source in backends then backends[c.source].reliability else 0.0) * 0.50;
      if q.isbn != "" {
        if HasIdentifier(c, q.isbn) {
          score := score + 0.15;
        }
      }
      if q.doi != "" {
        if HasIdentifier(c, q.doi) {
          score := score + 0.15;
        }
      }
      if MediaNames.Contains(ToLower(c.title), ToLower(q.title)) && !Blank(q.title) {
        score := score + 0.05;
      }
      if c.seeders.Some? && c.seeders.value > 0 {
        score := score + 0.05;
      }
      if c.source in backends && backends[c.source].preferred {
        score := score + 0.10;
      }
      if score > 0.99 {
        score := 0.99;
      }
      out := out + [c.(score := score)];
    }
    assert candidates[..|candidates|] == candidates;
    out := Sort(out, Better);
  }

  // ---- what a search answers

  // the fingerprint does not look at score or source
  lemma ScoreKeepsFingerprint(c: Candidate, score: real)
    ensures Fingerprint(c.(score := score)) == Fingerprint(c)
  {
    hide IdentifierPart, Normal;
  }

  lemma DistinctSurvivesSorting(s: seq<Candidate>, t: seq<Candidate>)
    requires DistinctFingerprints(s) && multiset(s) == multiset(t)
    ensures DistinctFingerprints(t)
  {
    hide Fingerprint;
    forall i, k | 0 <= i < k < |t|
      ensures Fingerprint(t[i]) != Fingerprint(t[k])
    {
      TwoPlaces(s, t, i, k);
    }
  }

  // different places of one arrangement are different places of the other
  lemma TwoPlaces(s: seq<Candidate>, t: seq<Candidate>, i: nat, k: nat)
    requires multiset(s) == multiset(t) && i < k < |t|
    ensures exists p, q :: 0 <= p < |s| && 0 <= q < |s| && p != q && s[p] == t[i] && s[q] == t[k]
  {
    var p := Located(s, t, t[i]);
    RestsAgree(s, t, p, i);
    assert (t[..i] + t[i + 1..])[k - 1] == t[k];
    var r := Located(s[..p] + s[p + 1..], t[..i] + t[i + 1..], t[k]);
    Elsewhere(s, p, t[k]);
  }

  lemma RestsAgree(s: seq<Candidate>, t: seq<Candidate>, p: nat, i: nat)
    requires multiset(s) == multiset(t) && p < |s| && i < |t| && s[p] == t[i]
    ensures multiset(s[..p] + s[p + 1..]) == multiset(t[..i] + t[i + 1..])
  {
    TakeOut(t, i);
    TakeOut(s, p);
  }

  lemma Located(s: seq<Candidate>, t: seq<Candidate>, x: Candidate) returns (p: nat)
    requires multiset(s) == multiset(t) && x in t
    ensures p < |s| && s[p] == x && x in multiset(s)
  {
    assert x in multiset(t);
    p :| 0 <= p < |s| && s[p] == x;
  }

  lemma Elsewhere(s: seq<Candidate>, p: nat, x: Candidate)
    requires p < |s| && x in s[..p] + s[p + 1..]
    ensures exists q :: 0 <= q < |s| && q != p && s[q] == x
  {
    var rest := s[..p] + s[p + 1..];
    var r :| 0 <= r < |rest| && rest[r] == x;
    assert s[if r < p then r else r + 1] == x;
  }

  /** The ranking holds every surviving candidate once, scored, best first. */
  lemma RankedFacts(order: seq<Backend>, answers: Answers, backends: map<string, Backend>, q: Query)
    ensures var ranked, kept := Ranked(order, answers, backends, q), Deduped(Collected(order, answers));
            && NeverDescends(ranked, Better) && DistinctFingerprints(ranked) && |ranked| == |kept|
            && forall c :: c in ranked <==> exists d :: d in kept && c == d.(score := Score(d, backends, q))
  {
    hide Fingerprint, Score, Better, Deduped, AllScored;
    var kept := Deduped(Collected(order, answers));
    var scored := AllScored(kept, backends, q);
    DedupedFacts(Collected(order, answers));
    ScoredFacts(kept, backends, q);
    forall i | 0 <= i < |kept|
      ensures Fingerprint(scored[i]) == Fingerprint(kept[i])
    {
      ScoreKeepsFingerprint(kept[i], Score(kept[i], backends, q));
    }
    assert DistinctFingerprints(scored);
    BetterIsWeak();
    SortNeverDescends(scored, Better);
    SortPermutes(scored, Better);
    DistinctSurvivesSorting(scored, Sort(scored, Better));
    forall d | d in kept
      ensures d.(score := Score(d, backends, q)) in scored
    {
      var i :| 0 <= i < |kept| && kept[i] == d;
      assert scored[i] == d.(score := Score(d, backends, q));
    }
  }

  /**
    A search answers at most `limit` candidates of pairwise different fingerprints, best first, none
    scored over 0.99, each from the earliest dispatched backend that returned its release.
  */
  lemma AnswerIsSound(order: seq<Backend>, answers: Answers, backends: map<string, Backend>, q: Query)
    ensures var found := Answer(order, answers, backends, q);
            && |found| <= Limit(q) && NeverDescends(found, Better) && DistinctFingerprints(found)
            && forall c :: c in found ==>
               c.score <= 0.99 && exists d :: FromEarliest(order, answers, d) && c == d.(score := Score(d, backends, q))
  {
    RankedFacts(order, answers, backends, q);
    hide Fingerprint, Better, Deduped, Ranked, FromEarliest;
    var found := Answer(order, answers, backends, q);
    assert forall i :: 0 <= i < |found| ==> found[i] == Ranked(order, answers, backends, q)[i];
    forall c | c in found
      ensures c.score <= 0.99 && exists d :: FromEarliest(order, answers, d) && c == d.(score := Score(d, backends, q))
    {
      assert c in Ranked(order, answers, backends, q);
      var d :| d in Deduped(Collected(order, answers)) && c == d.(score := Score(d, backends, q));
      SurvivorsAreEarliest(order, answers, d);
      ScoreIsCapped(d, backends, q);
    }
  }

  lemma ScoreIsCapped(c: Candidate, backends: map<string, Backend>, q: Query)
    ensures Score(c, backends, q) <= 0.99
  {
  }

  /** The identifiers of the query that the candidate carries. */
  function Matches(c: Candidate, q: Query): nat {
    (if q.isbn != "" && HasIdentifier(c, q.isbn) then 1 else 0)
    + (if q.doi != "" && HasIdentifier(c, q.doi) then 1 else 0)
  }

  /** Of two candidates of one backend the one that matches more identifiers scores higher, whatever else it lacks. */
  lemma MatchOutscores(c: Candidate, d: Candidate, backends: map<string, Backend>, q: Query)
    requires c.source == d.source && Matches(c, q) > Matches(d, q)
    ensures Score(c, backends, q) > Score(d, backends, q) || Score(c, backends, q) == 0.99
  {
    hide HasIdentifier, MediaNames.Contains, Blank;
  }

  /** Of two alike, the one from the more reliable backend scores higher; a preferred one is worth a fifth of that. */
  lemma SourceOutscores(c: Candidate, source: string, other: string, backends: map<string, Backend>, q: Query)
    requires source in backends && other in backends
    requires var a, b := backends[source], backends[other];
             a.reliability + (if a.preferred then 0.2 else 0.0) > b.reliability + if b.preferred then 0.2 else 0.0
    ensures Score(c.(source := source), backends, q) > Score(c.(source := other), backends, q)
            || Score(c.(source := source), backends, q) == 0.99
  {
    hide MediaNames.Contains, Blank, Normal;
  }

  /** A matching title and waiting seeders each lift a score that is not capped, by a twentieth. */
  lemma TitleAndSeedersLift(c: Candidate, backends: map<string, Backend>, q: Query)
    requires q.isbn == "" && q.doi == "" && c.source !in backends
    ensures var title := !Blank(q.title) && MediaNames.Contains(ToLower(c.title), ToLower(q.title));
            var seeded := c.seeders.Some? && c.seeders.value > 0;
            20.0 * Score(c, backends, q) == if title && seeded then 8.0 else if title || seeded then 7.0 else 6.0
  {
    hide MediaNames.Contains, Blank;
  }

  /** Nothing better is left out: whatever the cut drops is not better than anything it keeps. */
  lemma AnswerIsTopK(order: seq<Backend>, answers: Answers, backends: map<string, Backend>, q: Query,
                     dropped: Candidate)
    requires dropped in Deduped(Collected(order, answers))
    ensures var c := dropped.(score := Score(dropped, backends, q));
            var found := Answer(order, answers, backends, q);
            c in found || (|found| == Limit(q) && forall kept :: kept in found ==> !Better(c, kept))
  {
    hide Fingerprint, Better, Deduped, Ranked, Score;
    RankedFacts(order, answers, backends, q);
    var c := dropped.(score := Score(dropped, backends, q));
    var ranked := Ranked(order, answers, backends, q);
    assert c in ranked;
    var k :| 0 <= k < |ranked| && ranked[k] == c;
    var found := Answer(order, answers, backends, q);
    if k < |found| {
      assert found[k] == c;
    } else {
      forall kept | kept in found
        ensures !Better(c, kept)
      {
        var i :| 0 <= i < |found| && found[i] == kept;
        assert ranked[i] == kept;
      }
    }
  }

  /** The order of dispatch, and with it the answer, is determined: map iteration order does not show. */
  lemma AnswerIsDetermined(backends: map<string, Backend>, searchable: set<string>, quarantineDisabled: bool,
                           a: seq<Backend>, b: seq<Backend>, answers: Answers, q: Query)
    requires IsDispatchOrder(backends, searchable, quarantineDisabled, a)
    requires IsDispatchOrder(backends, searchable, quarantineDisabled, b)
    ensures a == b && Answer(a, answers, backends, q) == Answer(b, answers, backends, q)
  {
    OrdersAreStrict();
    hide DispatchOrder, Answer;
    AscendingIsDetermined(a, b, DispatchOrder);
  }
}
