/**
  The recommendation engine: candidates from four sources are summed over the seeds, ranked, boosted
  and cut. Scores are reals; the work store is a fixed catalog that answers without failing.
*/
module Recommend {
  import opened Wrappers
  import opened Text
  import opened Sorting

  datatype Weights = Weights(
    seriesNeighbor: real, sameSeries: real, sameAuthor: real, sharedSubject: real, explicitRelated: real,
        preferenceBoost: real)

  datatype Related = Related(workID: string, confidence: real)
  datatype SeriesHit = SeriesHit(workID: string, delta: real)
  datatype SubjectHit = SubjectHit(workID: string, overlap: real)

  /** What the store answers for each work. */
  datatype Catalog = Catalog(
    related: string -> seq<Related>, previous: string -> Option<SeriesHit>, next: string -> Option<SeriesHit>,
    series: string -> seq<SeriesHit>, authors: string -> seq<string>, subjects: string -> seq<SubjectHit>,
    known: string -> bool, formats: string -> seq<string>)

  datatype Request = Request(
    seeds: seq<string>, limit: int, includeTypes: seq<string>, excludeIDs: seq<string>,
    formats: seq<string>, languages: seq<string>, maxCandidates: int)

  datatype Scored = Scored(id: string, score: real)

  // ---- scoring

  function DistancePenalty(delta: real): real {
    if delta <= 0.0 then 0.0 else if delta * 0.05 > 0.25 then 0.25 else delta * 0.05
  }

  /** Clamps to [0, 1] and rounds to four places, halves up. */
  function NormalizeScore(score: real): real {
    if score < 0.0 then 0.0 else if score > 1.0 then 1.0 else (score * 10000.0 + 0.5).Floor as real / 10000.0
  }

  /** Rounding stays between nothing and one and moves no score in between by more than half a step. */
  lemma NormalizeScoreMeans(x: real) returns (steps: int)
    ensures NormalizeScore(x) * 10000.0 == steps as real && 0 <= steps <= 10000
    ensures x <= 0.0 ==> steps == 0
    ensures x >= 1.0 ==> steps == 10000
    ensures 0.0 <= x <= 1.0 ==> -0.5 < steps as real - x * 10000.0 <= 0.5
  {
    steps := if x < 0.0 then 0 else if x > 1.0 then 10000 else (x * 10000.0 + 0.5).Floor;
  }

  function SubjectContribution(base: real, overlap: real): real {
    base * (if overlap < 0.0 then 0.0 else if overlap > 1.0 then 1.0 else overlap)
  }

  // ---- normalised lists and sets

  function Norm(s: string): string {
    ToLower(Trim(s))
  }

  /** The distinct non-blank normalised values, first seen first. */
  function Deduped(values: seq<string>): seq<string> {
    if values == [] then []
    else
      var rest, v := Deduped(values[..|values| - 1]), Norm(values[|values| - 1]);
      if v == "" || v in rest then rest else rest + [v]
  }

  function SortedNormalized(values: seq<string>): seq<string> {
    Sort(Deduped(values), StringLess)
  }

  datatype Kinds = Kinds(series: bool, author: bool, subjects: bool, relationships: bool)

  function IncludeSet(values: seq<string>): Kinds {
    if values == [] then Kinds(true, true, true, true)
    else
      var kinds := set v | v in values :: Norm(v);
      Kinds("series" in kinds, "author" in kinds, "subjects" in kinds,
              "relationships" in kinds || "explicit" in kinds || "explicit_related" in kinds)
  }

  function ExcludeSet(exclude: seq<string>, seeds: seq<string>): set<string> {
    set id | id in exclude + seeds && !Blank(id) :: Trim(id)
  }

  /** The non-blank normalised values, as the format filter collects them. */
  function NormSet(values: seq<string>): set<string> {
    set v | v in values && Norm(v) != "" :: Norm(v)
  }

  // ---- candidates

  function FromRelated(hits: seq<Related>, w: Weights): seq<Scored> {
    seq(|hits|, i requires 0 <= i < |hits| =>
      Scored(hits[i].workID, if hits[i].confidence > 0.0 then w.explicitRelated * hits[i].confidence
          else w.explicitRelated))
  }

  function FromNeighbor(hit: Option<SeriesHit>, w: Weights): seq<Scored> {
    if hit.None? then [] else [Scored(hit.value.workID, w.seriesNeighbor - DistancePenalty(hit.value.delta))]
  }

  function FromSeries(hits: seq<SeriesHit>, w: Weights): seq<Scored> {
    seq(|hits|, i requires 0 <= i < |hits| => Scored(hits[i].workID, w.sameSeries - DistancePenalty(hits[i].delta)))
  }

  function FromAuthors(ids: seq<string>, w: Weights): seq<Scored> {
    seq(|ids|, i requires 0 <= i < |ids| => Scored(ids[i], w.sameAuthor))
  }

  function FromSubjects(hits: seq<SubjectHit>, w: Weights): seq<Scored> {
    seq(|hits|,
        i requires 0 <= i < |hits| => Scored(hits[i].workID, SubjectContribution(w.sharedSubject, hits[i].overlap)))
  }

  /** Everything one seed suggests, in the order the engine asks. */
  function Suggestions(seed: string, inc: Kinds, c: Catalog, w: Weights): seq<Scored> {
    if Blank(seed) then []
    else
      (if inc.relationships then FromRelated(c.related(seed), w) else [])
      + (if inc.series
          then FromNeighbor(c.previous(seed), w) + FromNeighbor(c.next(seed), w) + FromSeries(c.series(seed), w)
              else [])
      + (if inc.author then FromAuthors(c.authors(seed), w) else [])
      + (if inc.subjects then FromSubjects(c.subjects(seed), w) else [])
  }

  function AllSuggestions(seeds: seq<string>, inc: Kinds, c: Catalog, w: Weights): seq<Scored> {
    if seeds == [] then []
    else AllSuggestions(seeds[..|seeds| - 1], inc, c, w) + Suggestions(seeds[|seeds| - 1], inc, c, w)
  }

  /** Excluded works, blank ids and scores that are not positive are passed over. */
  predicate Counts(s: Scored, exclude: set<string>) {
    s.id !in exclude && !Blank(s.id) && s.score > 0.0
  }

  function AddCandidate(totals: map<string, real>, s: Scored, exclude: set<string>): map<string, real> {
    if !Counts(s, exclude) then totals
    else totals[s.id := (if s.id in totals then totals[s.id] else 0.0) + s.score]
  }

  function Totals(all: seq<Scored>, exclude: set<string>): map<string, real> {
    if all == [] then map[] else AddCandidate(Totals(all[..|all| - 1], exclude), all[|all| - 1], exclude)
  }

  // ---- ranking

  /** Higher score first, then the smaller id. */
  predicate Ahead(a: Scored, b: Scored) {
    if a.score == b.score then StringLess(a.id, b.id) else a.score > b.score
  }

  ghost predicate IsRanking(totals: map<string, real>, ranking: seq<Scored>) {
    && Ascending(ranking, Ahead)
    && forall s :: s in ranking <==> s.id in totals && s.score == NormalizeScore(totals[s.id])
  }

  function Cut<T>(s: seq<T>, n: int): seq<T> {
    if 0 <= n < |s| then s[..n] else s
  }

  function Boosted(s: Scored, wanted: set<string>, c: Catalog, boost: real): Scored {
    if exists f :: f in c.formats(s.id) && Norm(f) in wanted then s.(score := s.score + boost) else s
  }

  function BoostAll(list: seq<Scored>, wanted: set<string>, c: Catalog, boost: real): (r: seq<Scored>)
    ensures |r| == |list|
  {
    seq(|list|, i requires 0 <= i < |list| => Boosted(list[i], wanted, c, boost))
  }

  /** The known works among the candidates, with their scores clamped again. */
  function Known(list: seq<Scored>, c: Catalog): seq<Scored> {
    if list == [] then []
    else
      var rest, s := Known(list[..|list| - 1], c), list[|list| - 1];
      if c.known(s.id) then rest + [s.(score := NormalizeScore(s.score))] else rest
  }

  /** A request after the engine fills in its defaults. */
  function Normalized(req: Request, pool: int): Request {
    req.(limit := if req.limit <= 0 then 20 else if req.limit > 100 then 100 else req.limit,
         maxCandidates := if req.maxCandidates <= 0 then pool else req.maxCandidates)
  }

  function TotalsOf(req: Request, c: Catalog, w: Weights): map<string, real> {
    Totals(AllSuggestions(req.seeds, IncludeSet(req.includeTypes), c, w), ExcludeSet(req.excludeIDs, req.seeds))
  }

  function Finish(req: Request, ranking: seq<Scored>, c: Catalog, w: Weights): seq<Scored> {
    var kept := Cut(ranking, req.maxCandidates);
    var boosted := if req.formats != []
        || req.languages != [] then BoostAll(kept, NormSet(req.formats), c, w.preferenceBoost) else kept;
    Cut(Known(boosted, c), req.limit)
  }

  /** What a fresh computation of a normalised request returns. */
  ghost predicate IsAnswer(req: Request, results: seq<Scored>, c: Catalog, w: Weights) {
    exists ranking :: IsRanking(TotalsOf(req, c, w), ranking) && results == Finish(req, ranking, c, w)
  }

  // ---- the cache

  /** The key before hashing; equal hashes are taken to mean equal keys. */
  datatype CacheKey = CacheKey(
    seed: seq<string>, limit: int, kinds: seq<string>, excluded: seq<string>, formats: seq<string>,
        languages: seq<string>)

  function KeyOf(req: Request): CacheKey {
    CacheKey(SortedNormalized(req.seeds), if req.limit <= 0 then 20 else req.limit, SortedNormalized(req.includeTypes),
             SortedNormalized(req.excludeIDs), SortedNormalized(req.formats), SortedNormalized(req.languages))
  }

  class Engine {
    const catalog: Catalog
    const weights: Weights
    const pool: int
    var cache: map<CacheKey, seq<Scored>>
    ghost var served: set<Request> // the normalised requests answered so far

    /** Every cached list is the answer to a request that was served and has that key. */
    ghost predicate Valid()
      reads this
    {
      pool > 0 &&
      forall k :: k in cache ==> exists q :: q in served && KeyOf(q) == k && IsAnswer(q, cache[k], catalog, weights)
    }

    constructor (catalog: Catalog, weights: Weights, pool: int)
      ensures Valid() && this.catalog == catalog && this.weights == weights && served == {}
      ensures cache == map[] && this.pool == if pool > 0 then pool else 250
    {
      this.catalog, this.weights, this.pool := catalog, weights, if pool <= 0 then 250 else pool;
      cache, served := map[], {};
    }

    method Collect(req: Request) returns (totals: map<string, real>)
      ensures totals == TotalsOf(req, catalog, weights)
    {
      hide Suggestions, Counts;
      var inc, exclude := IncludeSet(req.includeTypes), ExcludeSet(req.excludeIDs, req.seeds);
      totals := map[];
      for i := 0 to |req.seeds|
        invariant totals == Totals(AllSuggestions(req.seeds[..i], inc, catalog, weights), exclude)
      {
        var own := Suggestions(req.seeds[i], inc, catalog, weights);
        ghost var before := AllSuggestions(req.seeds[..i], inc, catalog, weights);
        assert before + own[..0] == before;
        for k := 0 to |own|
          invariant totals == Totals(before + own[..k], exclude)
        {
          assert (before + own[..k + 1])[..|before| + k] == before + own[..k];
          totals := AddCandidate(totals, own[k], exclude);
        }
        assert own[..|own|] == own && req.seeds[..i + 1][..i] == req.seeds[..i];
      }
      assert req.seeds[..|req.seeds|] == req.seeds;
    }

    /** Lists the candidates in map order, normalises their scores and sorts. */
    method Rank(totals: map<string, real>) returns (ranking: seq<Scored>)
      ensures IsRanking(totals, ranking)
    {
      hide NormalizeScore;
      var list: seq<Scored> := [];
      var rest := totals.Keys;
      while rest != {}
        invariant rest <= totals.Keys
        invariant forall s :: s in list <==> s.id in totals && s.id !in rest && s.score == NormalizeScore(totals[s.id])
        invariant forall i, k :: 0 <= i < k < |list| ==> list[i].id != list[k].id
      {
        var id := Pick(rest);
        rest := rest - {id};
        list := list + [Scored(id, NormalizeScore(totals[id]))];
      }
      AheadIsStrict();
      SortAscends(list, Ahead);
      SortPermutes(list, Ahead);
      ranking := Sort(list, Ahead);
    }

    /** The first `limit` known works of the list. */
    method KnownWorks(list: seq<Scored>, limit: int) returns (results: seq<Scored>)
      requires limit > 0
      ensures results == Cut(Known(list, catalog), limit)
    {
      hide NormalizeScore;
      results := [];
      assert list[..0] == [] && list[..|list|] == list;
      for i := 0 to |list|
        invariant results == Known(list[..i], catalog) && |results| < limit
      {
        assert list[..i + 1][..i] == list[..i];
        if !catalog.known(list[i].id) {
          continue;
        }
        results := results + [list[i].(score := NormalizeScore(list[i].score))];
        if |results| >= limit {
          KnownGrows(list, i + 1, catalog);
          return;
        }
      }
    }

    method Answer(req: Request) returns (results: seq<Scored>)
      requires req.limit > 0
      ensures IsAnswer(req, results, catalog, weights)
    {
      hide IsRanking, TotalsOf, BoostAll, NormSet, Known;
      var totals := Collect(req);
      var ranking := Rank(totals);
      var list := ranking;
      if 0 <= req.maxCandidates < |list| {
        list := list[..req.maxCandidates];
      }
      if req.formats != [] || req.languages != [] {
        list := ApplyPreferenceBoost(list, NormSet(req.formats));
      }
      results := KnownWorks(list, req.limit);
      assert results == Finish(req, ranking, catalog, weights);
    }

    /** `Recommend`: answers from the cache when it can, and caches what it computes. */
    method Recommend(request: Request) returns (results: seq<Scored>)
      requires Valid()
      modifies this
      ensures Valid()
      ensures request.seeds == [] ==> results == [] && cache == old(cache) && served == old(served)
      ensures request.seeds != [] ==>
                && served == old(served) + {Normalized(request, pool)}
                && (exists q ::
                      q in served && KeyOf(q) == KeyOf(Normalized(request, pool))
                      && IsAnswer(q, results, catalog, weights))
      ensures request.seeds != [] && KeyOf(Normalized(request, pool)) in old(cache) ==>
                results == old(cache)[KeyOf(Normalized(request, pool))] && cache == old(cache)
      ensures request.seeds != [] && KeyOf(Normalized(request, pool)) !in old(cache) ==>
                && cache == old(cache)[KeyOf(Normalized(request, pool)) := results]
                && IsAnswer(Normalized(request, pool), results, catalog, weights)
    {
      hide IsAnswer, KeyOf;
      if request.seeds == [] {
        return [];
      }
      var req := Normalized(request, pool);
      var key := KeyOf(req);
      served := served + {req};
      if key in cache {
        return cache[key];
      }
      results := Answer(req);
      cache := cache[key := results];
    }

    method ApplyPreferenceBoost(list: seq<Scored>, wanted: set<string>) returns (boosted: seq<Scored>)
      ensures boosted == BoostAll(list, wanted, catalog, weights.preferenceBoost)
    {
      boosted := list;
      for i := 0 to |list|
        invariant |boosted| == |list|
        invariant forall k :: 0 <= k < |list| ==>
                    boosted[k] == if k < i then Boosted(list[k], wanted, catalog, weights.preferenceBoost) else list[k]
      {
        var formats := catalog.formats(list[i].id);
        var matched := false;
        for f := 0 to |formats|
          invariant matched <==> exists g :: g in formats[..f] && Norm(g) in wanted
        {
          if Norm(formats[f]) in wanted {
            matched := true;
          }
          assert formats[..f + 1] == formats[..f] + [formats[f]];
        }
        assert formats[..|formats|] == formats;
        if matched {
          boosted := boosted[i := list[i].(score := list[i].score + weights.preferenceBoost)];
        }
      }
    }
  }

  lemma {:induction false} KnownGrows(list: seq<Scored>, i: nat, c: Catalog)
    requires i <= |list|
    ensures Known(list[..i], c) <= Known(list, c)
    decreases |list|
  {
    if i < |list| {
      KnownGrows(list[..|list| - 1], i, c);
      assert list[..|list| - 1][..i] == list[..i];
    } else {
      assert list[..i] == list;
    }
  }

  /** Twenty works unless the request says otherwise, never more than a hundred, out of the pool's default number. */
  lemma NormalizedMeans(req: Request, pool: int)
    requires pool > 0
    ensures var n := Normalized(req, pool);
            && 1 <= n.limit <= 100 && n.maxCandidates >= 1
            && (1 <= req.limit <= 100 ==> n.limit == req.limit) && (req.limit > 100 ==> n.limit == 100)
            && (req.limit < 1 ==> n.limit == 20)
            && n.maxCandidates == (if req.maxCandidates >= 1 then req.maxCandidates else pool)
            && n.(limit := req.limit, maxCandidates := req.maxCandidates) == req
  {
  }

  lemma AheadIsStrict()
    ensures StrictOrder(Ahead)
    ensures forall a: Scored, b: Scored :: a.id != b.id ==> Ahead(a, b) || Ahead(b, a)
  {
    StringLessIsStrict();
  }
}
