/** Which works a request can be recommended, and why: over the catalog and the text of the request alone. */
module RecommendSources {
  import opened Wrappers
  import opened Text
  import opened Recommend
  import opened RecommendCache

  /** The request names this kind of source, in whatever case, or names none. */
  ghost predicate AsksFor(req: Request, kind: string) {
    req.includeTypes == [] || exists v :: v in req.includeTypes && ToLower(Trim(v)) == kind
  }

  /** The request asks for explicit relationships, by any of their three names. */
  ghost predicate AsksForRelated(req: Request) {
    AsksFor(req, "relationships") || AsksFor(req, "explicit") || AsksFor(req, "explicit_related")
  }

  lemma KindsAsked(req: Request)
    ensures var inc := IncludeSet(req.includeTypes);
            && (inc.series <==> AsksFor(req, "series")) && (inc.author <==> AsksFor(req, "author"))
            && (inc.subjects <==> AsksFor(req, "subjects")) && (inc.relationships <==> AsksForRelated(req))
  {
    hide Trim, ToLower;
  }

  // ---- who names a work

  ghost predicate AuthorNames(c: Catalog, w: Weights, seed: string, id: string) {
    id in c.authors(seed) && w.sameAuthor > 0.0
  }

  /** As the previous or next of the series or another of it; each step away costs a twentieth, at most a quarter. */
  ghost predicate SeriesNames(c: Catalog, w: Weights, seed: string, id: string) {
    || (exists h :: (c.previous(seed) == Some(h) || c.next(seed) == Some(h)) && h.workID == id
                    && Outweighs(w.seriesNeighbor, h.delta))
    || (exists h :: h in c.series(seed) && h.workID == id && Outweighs(w.sameSeries, h.delta))
  }

  predicate Outweighs(weight: real, delta: real) {
    weight > 0.0 && (delta > 0.0 ==> 20.0 * weight > delta || weight > 0.25)
  }

  ghost predicate SubjectNames(c: Catalog, w: Weights, seed: string, id: string) {
    exists h :: h in c.subjects(seed) && h.workID == id && h.overlap > 0.0 && w.sharedSubject > 0.0
  }

  ghost predicate RelatedNames(c: Catalog, w: Weights, seed: string, id: string) {
    exists h :: h in c.related(seed) && h.workID == id && w.explicitRelated > 0.0
  }

  /** Some source the request asks for names the work for this seed. */
  ghost predicate Named(req: Request, c: Catalog, w: Weights, seed: string, id: string) {
    || (AsksFor(req, "author") && AuthorNames(c, w, seed, id))
    || (AsksFor(req, "series") && SeriesNames(c, w, seed, id))
    || (AsksFor(req, "subjects") && SubjectNames(c, w, seed, id))
    || (AsksForRelated(req) && RelatedNames(c, w, seed, id))
  }

  /** Some positive suggestion of the list is for this work. */
  ghost predicate Suggests(list: seq<Scored>, id: string) {
    exists i :: 0 <= i < |list| && list[i].id == id && list[i].score > 0.0
  }

  lemma SuggestsEither(a: seq<Scored>, b: seq<Scored>, id: string)
    ensures Suggests(a + b, id) <==> Suggests(a, id) || Suggests(b, id)
  {
    if Suggests(a, id) {
      var i :| 0 <= i < |a| && a[i].id == id && a[i].score > 0.0;
      assert (a + b)[i] == a[i];
    }
    if Suggests(b, id) {
      var i :| 0 <= i < |b| && b[i].id == id && b[i].score > 0.0;
      assert (a + b)[|a| + i] == b[i];
    }
  }

  lemma AuthorsSuggest(c: Catalog, w: Weights, seed: string, id: string)
    ensures Suggests(FromAuthors(c.authors(seed), w), id) <==> AuthorNames(c, w, seed, id)
  {
    var list := FromAuthors(c.authors(seed), w);
    forall i | 0 <= i < |list|
      ensures list[i] == Scored(c.authors(seed)[i], w.sameAuthor)
    {
    }
  }

  lemma PenaltyWeighs(weight: real, delta: real)
    ensures weight - DistancePenalty(delta) > 0.0 <==> Outweighs(weight, delta)
  {
  }

  lemma NeighborSuggests(hit: Option<SeriesHit>, w: Weights, id: string)
    ensures Suggests(FromNeighbor(hit, w), id)
            <==> hit.Some? && hit.value.workID == id && Outweighs(w.seriesNeighbor, hit.value.delta)
  {
    if hit.Some? {
      PenaltyWeighs(w.seriesNeighbor, hit.value.delta);
      hide DistancePenalty, Outweighs;
      var list := FromNeighbor(hit, w);
      assert list[0].id == hit.value.workID;
    }
  }

  lemma SeriesSuggest(c: Catalog, w: Weights, seed: string, id: string)
    ensures Suggests(FromSeries(c.series(seed), w), id)
            <==> exists h :: h in c.series(seed) && h.workID == id && Outweighs(w.sameSeries, h.delta)
  {
    hide DistancePenalty, Outweighs;
    var hits, list := c.series(seed), FromSeries(c.series(seed), w);
    forall i | 0 <= i < |list|
      ensures list[i].id == hits[i].workID && hits[i] in hits
      ensures list[i].score > 0.0 <==> Outweighs(w.sameSeries, hits[i].delta)
    {
      PenaltyWeighs(w.sameSeries, hits[i].delta);
    }
  }

  lemma SubjectsSuggest(c: Catalog, w: Weights, seed: string, id: string)
    ensures Suggests(FromSubjects(c.subjects(seed), w), id) <==> SubjectNames(c, w, seed, id)
  {
    hide SubjectContribution;
    var hits, list := c.subjects(seed), FromSubjects(c.subjects(seed), w);
    forall i | 0 <= i < |list|
      ensures list[i].id == hits[i].workID && hits[i] in hits
      ensures list[i].score > 0.0 <==> hits[i].overlap > 0.0 && w.sharedSubject > 0.0
    {
      ContributionIsPositive(w.sharedSubject, hits[i].overlap);
    }
  }

  lemma ContributionIsPositive(base: real, overlap: real)
    ensures SubjectContribution(base, overlap) > 0.0 <==> overlap > 0.0 && base > 0.0
    ensures 0.0 <= overlap <= 1.0 ==> SubjectContribution(base, overlap) == base * overlap
    ensures overlap >= 1.0 ==> SubjectContribution(base, overlap) == base
  {
  }

  lemma RelatedSuggest(c: Catalog, w: Weights, seed: string, id: string)
    ensures Suggests(FromRelated(c.related(seed), w), id) <==> RelatedNames(c, w, seed, id)
  {
    var hits, list := c.related(seed), FromRelated(c.related(seed), w);
    forall i | 0 <= i < |list|
      ensures list[i].id == hits[i].workID && hits[i] in hits
      ensures list[i].score > 0.0 <==> w.explicitRelated > 0.0
    {
      RelatedIsPositive(w.explicitRelated, hits[i].confidence);
    }
  }

  lemma RelatedIsPositive(weight: real, confidence: real)
    ensures (if confidence > 0.0 then weight * confidence else weight) > 0.0 <==> weight > 0.0
  {
  }

  lemma SeedSuggests(req: Request, c: Catalog, w: Weights, seed: string, id: string)
    ensures Suggests(Suggestions(seed, IncludeSet(req.includeTypes), c, w), id)
            <==> !Blank(seed) && Named(req, c, w, seed, id)
  {
    KindsAsked(req);
    AuthorsSuggest(c, w, seed, id);
    SeriesSuggest(c, w, seed, id);
    SubjectsSuggest(c, w, seed, id);
    RelatedSuggest(c, w, seed, id);
    NeighborSuggests(c.previous(seed), w, id);
    NeighborSuggests(c.next(seed), w, id);
    hide IncludeSet, AsksFor, AsksForRelated, FromAuthors, FromSeries, FromSubjects, FromRelated, FromNeighbor,
        AuthorNames, SubjectNames, RelatedNames, Outweighs, Blank;
    var inc := IncludeSet(req.includeTypes);
    NothingSuggested(id);
    hide Suggests;
    var r := if inc.relationships then FromRelated(c.related(seed), w) else [];
    var p, n, all := FromNeighbor(c.previous(seed), w), FromNeighbor(c.next(seed), w), FromSeries(c.series(seed), w);
    var s := if inc.series then p + n + all else [];
    var a := if inc.author then FromAuthors(c.authors(seed), w) else [];
    var b := if inc.subjects then FromSubjects(c.subjects(seed), w) else [];
    SuggestsEither(p, n, id);
    SuggestsEither(p + n, all, id);
    SuggestsEither(r, s, id);
    SuggestsEither(r + s, a, id);
    SuggestsEither(r + s + a, b, id);
    NamesOfSeries(c, w, seed, id);
  }

  lemma NothingSuggested(id: string)
    ensures !Suggests([], id)
  {
  }

  lemma NamesOfSeries(c: Catalog, w: Weights, seed: string, id: string)
    ensures SeriesNames(c, w, seed, id) <==>
            || Suggests(FromNeighbor(c.previous(seed), w), id) || Suggests(FromNeighbor(c.next(seed), w), id)
            || Suggests(FromSeries(c.series(seed), w), id)
  {
    NeighborSuggests(c.previous(seed), w, id);
    NeighborSuggests(c.next(seed), w, id);
    SeriesSuggest(c, w, seed, id);
    hide Suggests, FromNeighbor, FromSeries, Outweighs;
  }

  lemma {:induction false} SeedsSuggest(req: Request, seeds: seq<string>, c: Catalog, w: Weights, id: string)
    ensures Suggests(AllSuggestions(seeds, IncludeSet(req.includeTypes), c, w), id)
            <==> exists seed :: seed in seeds && !Blank(seed) && Named(req, c, w, seed, id)
  {
    hide Suggests, Suggestions, Named, Blank, IncludeSet;
    if seeds == [] {
      NothingSuggested(id);
    } else {
      var front, last := seeds[..|seeds| - 1], seeds[|seeds| - 1];
      SeedsSuggest(req, front, c, w, id);
      SeedSuggests(req, c, w, last, id);
      SuggestsEither(AllSuggestions(front, IncludeSet(req.includeTypes), c, w),
                     Suggestions(last, IncludeSet(req.includeTypes), c, w), id);
      assert forall s :: s in seeds <==> s in front || s == last;
    }
  }

  /** The work is not blank, and neither an exclusion nor a seed, spaces around those aside. */
  ghost predicate Allowed(req: Request, id: string) {
    Trim(id) != "" && forall e :: e in req.excludeIDs || e in req.seeds ==> Trim(e) != id || Trim(e) == ""
  }

  /**
    A work is a candidate if and only if it is allowed and, for some seed that is not blank, a source the request
    asks for names it with a positive weight.
  */
  lemma CandidateIff(req: Request, c: Catalog, w: Weights, id: string)
    ensures id in TotalsOf(req, c, w)
            <==> Allowed(req, id) && exists seed :: seed in req.seeds && !Blank(seed) && Named(req, c, w, seed, id)
  {
    var inc, exclude := IncludeSet(req.includeTypes), ExcludeSet(req.excludeIDs, req.seeds);
    var all := AllSuggestions(req.seeds, inc, c, w);
    NotExcluded(req, id);
    SeedsSuggest(req, req.seeds, c, w, id);
    TotalsAreSums(all, exclude);
    hide AllSuggestions, IncludeSet, ExcludeSet, Named, Allowed, Totals, Trim;
    if id in Totals(all, exclude) {
      var s :| s in all && s.id == id && Counts(s, exclude);
      var i :| 0 <= i < |all| && all[i] == s;
      assert Suggests(all, id);
    }
    if Allowed(req, id) && Suggests(all, id) {
      var i :| 0 <= i < |all| && all[i].id == id && all[i].score > 0.0;
      assert all[i] in all && Counts(all[i], exclude);
    }
  }

  lemma NotExcluded(req: Request, id: string)
    ensures Allowed(req, id) <==> id !in ExcludeSet(req.excludeIDs, req.seeds) && !Blank(id)
  {
    hide Trim;
  }

  // ---- how much an author's works weigh

  /** How often the author lists of the seeds name the work. */
  function Mentions(c: Catalog, seeds: seq<string>, id: string): nat {
    if seeds == [] then 0
    else
      var seed := seeds[|seeds| - 1];
      Mentions(c, seeds[..|seeds| - 1], id) + if Trim(seed) == "" then 0 else multiset(c.authors(seed))[id]
  }

  /** Asked for authors only, a candidate's total is the author weight for every time the seeds' lists name it. */
  lemma AuthorsOnlyTotal(req: Request, c: Catalog, w: Weights, id: string)
    requires req.includeTypes != [] && forall v :: v in req.includeTypes ==> ToLower(Trim(v)) == "author"
    requires w.sameAuthor > 0.0 && Allowed(req, id)
    ensures id in TotalsOf(req, c, w) <==> Mentions(c, req.seeds, id) > 0
    ensures id in TotalsOf(req, c, w) ==> TotalsOf(req, c, w)[id] == Mentions(c, req.seeds, id) as real * w.sameAuthor
  {
    hide *;
    OnlyAuthors(req);
    NotExcluded(req, id);
    var exclude := ExcludeSet(req.excludeIDs, req.seeds);
    AuthorTotal(req.seeds, c, w, exclude, id);
    TotalsAre(req, c, w);
  }

  lemma TotalsAre(req: Request, c: Catalog, w: Weights)
    ensures TotalsOf(req, c, w) == Totals(AllSuggestions(req.seeds, IncludeSet(req.includeTypes), c, w),
                                          ExcludeSet(req.excludeIDs, req.seeds))
  {
    hide AllSuggestions, Totals, IncludeSet, ExcludeSet;
  }

  lemma AuthorTotal(seeds: seq<string>, c: Catalog, w: Weights, exclude: set<string>, id: string)
    requires w.sameAuthor > 0.0 && id !in exclude && !Blank(id)
    ensures var totals := Totals(AllSuggestions(seeds, Kinds(false, true, false, false), c, w), exclude);
            && (id in totals <==> Mentions(c, seeds, id) > 0)
            && (id in totals ==> totals[id] == Mentions(c, seeds, id) as real * w.sameAuthor)
  {
    var all := AllSuggestions(seeds, Kinds(false, true, false, false), c, w);
    TotalsAreSums(all, exclude);
    hide *;
    AuthorSums(seeds, c, w, exclude, id);
    SumIsCounted(all, exclude, id);
    ProductIsPositive(Mentions(c, seeds, id), w.sameAuthor);
  }

  lemma OnlyAuthors(req: Request)
    requires req.includeTypes != [] && forall v :: v in req.includeTypes ==> ToLower(Trim(v)) == "author"
    ensures IncludeSet(req.includeTypes) == Kinds(false, true, false, false)
  {
    hide Trim, ToLower;
    assert req.includeTypes[0] in req.includeTypes;
    assert (set v | v in req.includeTypes :: Norm(v)) == {"author"};
  }

  lemma ProductIsPositive(n: nat, x: real)
    requires x > 0.0
    ensures n as real * x > 0.0 <==> n > 0
  {
  }

  lemma {:induction false} SumIsCounted(all: seq<Scored>, exclude: set<string>, id: string)
    ensures Sum(all, exclude, id) >= 0.0
    ensures Sum(all, exclude, id) > 0.0 <==> exists s :: s in all && s.id == id && Counts(s, exclude)
  {
    if all != [] {
      var front, last := all[..|all| - 1], all[|all| - 1];
      SumIsCounted(front, exclude, id);
      assert forall s :: s in all <==> s in front || s == last;
    }
  }

  // one more and `more` times a weight
  lemma Times(n: nat, more: nat, x: real)
    ensures (n + more) as real * x == n as real * x + more as real * x
  {
  }

  lemma {:induction false} AuthorSums(seeds: seq<string>, c: Catalog, w: Weights, exclude: set<string>, id: string)
    requires w.sameAuthor > 0.0 && id !in exclude && !Blank(id)
    ensures Sum(AllSuggestions(seeds, Kinds(false, true, false, false), c, w), exclude, id)
            == Mentions(c, seeds, id) as real * w.sameAuthor
  {
    hide Trim, Sum, Suggestions, AllSuggestions;
    NoSum(c, w, exclude, id);
    if seeds != [] {
      var inc := Kinds(false, true, false, false);
      var front, seed := seeds[..|seeds| - 1], seeds[|seeds| - 1];
      AuthorSums(front, c, w, exclude, id);
      LastSeed(seeds, inc, c, w);
      SumConcat(AllSuggestions(front, inc, c, w), Suggestions(seed, inc, c, w), exclude, id);
      OneAuthorSum(c.authors(seed), w, exclude, id);
      AuthorSuggestions(seed, c, w);
      var more := if Trim(seed) == "" then 0 else multiset(c.authors(seed))[id];
      Times(Mentions(c, front, id), more, w.sameAuthor);
    }
  }

  lemma NoSum(c: Catalog, w: Weights, exclude: set<string>, id: string)
    ensures Sum([], exclude, id) == 0.0 && AllSuggestions([], Kinds(false, true, false, false), c, w) == []
  {
  }

  lemma LastSeed(seeds: seq<string>, inc: Kinds, c: Catalog, w: Weights)
    requires seeds != []
    ensures AllSuggestions(seeds, inc, c, w)
            == AllSuggestions(seeds[..|seeds| - 1], inc, c, w) + Suggestions(seeds[|seeds| - 1], inc, c, w)
  {
    hide Suggestions;
  }

  lemma AuthorSuggestions(seed: string, c: Catalog, w: Weights)
    ensures Suggestions(seed, Kinds(false, true, false, false), c, w)
            == if Blank(seed) then [] else FromAuthors(c.authors(seed), w)
  {
    hide FromAuthors, FromRelated, FromSubjects, FromSeries, FromNeighbor, Blank;
  }

  lemma {:induction false} OneAuthorSum(ids: seq<string>, w: Weights, exclude: set<string>, id: string)
    requires w.sameAuthor > 0.0 && id !in exclude && !Blank(id)
    ensures Sum(FromAuthors(ids, w), exclude, id) == multiset(ids)[id] as real * w.sameAuthor
  {
    hide *;
    if ids == [] {
      NoAuthors(w, exclude, id);
    } else {
      var n := |ids| - 1;
      OneAuthorSum(ids[..n], w, exclude, id);
      Times(multiset(ids[..n])[id], if ids[n] == id then 1 else 0, w.sameAuthor);
      LastAuthor(ids, w, exclude, id);
      OneMore(ids, id);
    }
  }

  lemma NoAuthors(w: Weights, exclude: set<string>, id: string)
    ensures Sum(FromAuthors([], w), exclude, id) == 0.0
  {
  }

  lemma LastAuthor(ids: seq<string>, w: Weights, exclude: set<string>, id: string)
    requires w.sameAuthor > 0.0 && id !in exclude && !Blank(id) && ids != []
    ensures Sum(FromAuthors(ids, w), exclude, id)
            == Sum(FromAuthors(ids[..|ids| - 1], w), exclude, id)
               + (if ids[|ids| - 1] == id then 1 else 0) as real * w.sameAuthor
  {
    hide Blank;
    var n := |ids| - 1;
    assert FromAuthors(ids, w)[..n] == FromAuthors(ids[..n], w);
  }

  lemma OneMore(ids: seq<string>, id: string)
    requires ids != []
    ensures multiset(ids)[id] == multiset(ids[..|ids| - 1])[id] + if ids[|ids| - 1] == id then 1 else 0
  {
    assert ids == ids[..|ids| - 1] + [ids[|ids| - 1]];
  }
}
