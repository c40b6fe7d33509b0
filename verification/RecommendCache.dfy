/**
  The recommendation cache agrees with recomputation: the key sorts its inputs, and permuting the
  seeds of a request changes neither the summed candidates nor the ranking.
*/
module RecommendCache {
  import opened Wrappers
  import opened Text
  import opened Sorting
  import opened Recommend

  /** Distinct canonical seeds, canonical exclusions and no blank include type. */
  ghost predicate Canonical(req: Request) {
    && (forall i, k :: 0 <= i < k < |req.seeds| ==> req.seeds[i] != req.seeds[k])
    && (forall id :: id in req.seeds ==> id != "" && Norm(id) == id)
    && (forall id :: id in req.excludeIDs ==> id != "" && Norm(id) == id)
    && (forall v :: v in req.includeTypes ==> Norm(v) != "")
  }

  // ---- what the key remembers

  lemma {:induction false} DedupedFacts(values: seq<string>)
    ensures forall v :: v in Deduped(values) <==> v in NormSet(values)
  {
    if values != [] {
      hide Norm;
      DedupedFacts(values[..|values| - 1]);
      assert forall v :: v in values <==> v in values[..|values| - 1] || v == values[|values| - 1];
    }
  }

  /** Equal keys come from equal sets of normalised values. */
  lemma SameKeySameValues(a: seq<string>, b: seq<string>)
    requires SortedNormalized(a) == SortedNormalized(b)
    ensures NormSet(a) == NormSet(b)
  {
    hide Norm, NormSet;
    DedupedFacts(a);
    DedupedFacts(b);
    SortPermutes(Deduped(a), StringLess);
    SortPermutes(Deduped(b), StringLess);
    assert forall v :: v in NormSet(a) <==> v in SortedNormalized(a);
    assert forall v :: v in NormSet(b) <==> v in SortedNormalized(b);
  }

  lemma {:induction false} DedupedIsDistinct(values: seq<string>)
    ensures TotalOn(Deduped(values), StringLess)
  {
    StringLessIsStrict();
    if values != [] {
      hide Norm, StringLess;
      DedupedIsDistinct(values[..|values| - 1]);
    }
  }

  /** And equal sets of normalised values give equal keys, however often and in whatever spelling each is named. */
  lemma SameValuesSameKey(a: seq<string>, b: seq<string>)
    requires NormSet(a) == NormSet(b)
    ensures SortedNormalized(a) == SortedNormalized(b)
  {
    StringLessIsStrict();
    hide Norm, NormSet, StringLess;
    DedupedFacts(a);
    DedupedFacts(b);
    DedupedIsDistinct(a);
    DedupedIsDistinct(b);
    SortPermutes(Deduped(a), StringLess);
    SortPermutes(Deduped(b), StringLess);
    SortAscends(Deduped(a), StringLess);
    SortAscends(Deduped(b), StringLess);
    AscendingIsDetermined(SortedNormalized(a), SortedNormalized(b), StringLess);
  }

  lemma {:induction false} CanonicalSeedsStay(seeds: seq<string>)
    requires forall i, k :: 0 <= i < k < |seeds| ==> seeds[i] != seeds[k]
    requires forall i :: 0 <= i < |seeds| ==> seeds[i] != "" && Norm(seeds[i]) == seeds[i]
    ensures Deduped(seeds) == seeds
  {
    if seeds != [] {
      CanonicalSeedsStay(seeds[..|seeds| - 1]);
      assert seeds == seeds[..|seeds| - 1] + [seeds[|seeds| - 1]];
    }
  }

  /** Canonical seed lists with one key are permutations of each other. */
  lemma SameKeySameSeeds(a: seq<string>, b: seq<string>)
    requires forall i, k :: 0 <= i < k < |a| ==> a[i] != a[k]
    requires forall i, k :: 0 <= i < k < |b| ==> b[i] != b[k]
    requires forall id :: id in a ==> id != "" && Norm(id) == id
    requires forall id :: id in b ==> id != "" && Norm(id) == id
    requires SortedNormalized(a) == SortedNormalized(b)
    ensures multiset(a) == multiset(b)
  {
    assert forall i :: 0 <= i < |a| ==> a[i] in a;
    assert forall i :: 0 <= i < |b| ==> b[i] in b;
    CanonicalSeedsStay(a);
    CanonicalSeedsStay(b);
    SortPermutes(a, StringLess);
    SortPermutes(b, StringLess);
  }

  // ---- permuting the seeds leaves the totals alone

  lemma {:induction false} SuggestionsConcat(a: seq<string>, b: seq<string>, inc: Kinds, c: Catalog, w: Weights)
    ensures AllSuggestions(a + b, inc, c, w) == AllSuggestions(a, inc, c, w) + AllSuggestions(b, inc, c, w)
  {
    hide Suggestions;
    if b == [] {
      assert a + b == a;
    } else {
      assert (a + b)[..|a + b| - 1] == a + b[..|b| - 1];
      SuggestionsConcat(a, b[..|b| - 1], inc, c, w);
    }
  }

  lemma {:induction false} SuggestionsIgnoreOrder(a: seq<string>, b: seq<string>, inc: Kinds, c: Catalog, w: Weights)
    requires multiset(a) == multiset(b)
    ensures multiset(AllSuggestions(a, inc, c, w)) == multiset(AllSuggestions(b, inc, c, w))
    decreases |a|
  {
    assert |a| == |multiset(a)| == |multiset(b)| == |b|;
    if a != [] {
      hide AllSuggestions;
      var k := TakeOutLast(a, b);
      var front, x, l, r := a[..|a| - 1], [b[k]], b[..k], b[k + 1..];
      SuggestionsIgnoreOrder(front, l + r, inc, c, w);
      SuggestionsConcat(front, x, inc, c, w);
      SuggestionsConcat(l, r, inc, c, w);
      SuggestionsConcat(l + x, r, inc, c, w);
      SuggestionsConcat(l, x, inc, c, w);
    }
  }

  /** What the counting suggestions for one work add up to. */
  function Sum(all: seq<Scored>, exclude: set<string>, id: string): real {
    if all == [] then 0.0
    else Sum(all[..|all| - 1], exclude, id)
         + if Counts(all[|all| - 1], exclude) && all[|all| - 1].id == id then all[|all| - 1].score else 0.0
  }

  lemma {:induction false} TotalsAreSums(all: seq<Scored>, exclude: set<string>)
    ensures forall id :: id in Totals(all, exclude) <==> exists s :: s in all && s.id == id && Counts(s, exclude)
    ensures forall id :: Sum(all, exclude, id) == if id in Totals(all, exclude) then Totals(all, exclude)[id] else 0.0
  {
    hide Counts;
    if all != [] {
      TotalsAreSums(all[..|all| - 1], exclude);
      assert forall s :: s in all <==> s in all[..|all| - 1] || s == all[|all| - 1];
    }
  }

  lemma {:induction false} SumConcat(a: seq<Scored>, b: seq<Scored>, exclude: set<string>, id: string)
    ensures Sum(a + b, exclude, id) == Sum(a, exclude, id) + Sum(b, exclude, id)
  {
    hide Counts;
    if b == [] {
      assert a + b == a;
    } else {
      assert (a + b)[..|a + b| - 1] == a + b[..|b| - 1];
      SumConcat(a, b[..|b| - 1], exclude, id);
    }
  }

  lemma {:induction false} SumIgnoresOrder(a: seq<Scored>, b: seq<Scored>, exclude: set<string>, id: string)
    requires multiset(a) == multiset(b)
    ensures Sum(a, exclude, id) == Sum(b, exclude, id)
    decreases |a|
  {
    assert |a| == |multiset(a)| == |multiset(b)| == |b|;
    if a != [] {
      hide Sum;
      var k := TakeOutLast(a, b);
      var front, x, l, r := a[..|a| - 1], [b[k]], b[..k], b[k + 1..];
      SumIgnoresOrder(front, l + r, exclude, id);
      SumConcat(front, x, exclude, id);
      SumConcat(l, r, exclude, id);
      SumConcat(l + x, r, exclude, id);
      SumConcat(l, x, exclude, id);
    }
  }

  /** The summed candidate map depends on the suggestions only as a multiset. */
  lemma TotalsIgnoreOrder(a: seq<Scored>, b: seq<Scored>, exclude: set<string>)
    requires multiset(a) == multiset(b)
    ensures Totals(a, exclude) == Totals(b, exclude)
  {
    hide Counts, Totals, Sum;
    TotalsAreSums(a, exclude);
    TotalsAreSums(b, exclude);
    assert forall s :: s in a <==> s in multiset(a);
    assert forall s :: s in b <==> s in multiset(b);
    forall id
      ensures Sum(a, exclude, id) == Sum(b, exclude, id)
    {
      SumIgnoresOrder(a, b, exclude, id);
    }
    assert forall id :: id in Totals(a, exclude) <==> id in Totals(b, exclude);
  }

  // ---- two requests with one key

  lemma SameKinds(a: seq<string>, b: seq<string>)
    requires SortedNormalized(a) == SortedNormalized(b)
    requires forall v :: v in a || v in b ==> Norm(v) != ""
    ensures IncludeSet(a) == IncludeSet(b)
  {
    hide Norm;
    SameKeySameValues(a, b);
    KindsAreNormSet(a);
    KindsAreNormSet(b);
  }

  lemma KindsAreNormSet(a: seq<string>)
    requires forall v :: v in a ==> Norm(v) != ""
    ensures (set v | v in a :: Norm(v)) == NormSet(a)
    ensures a == [] <==> NormSet(a) == {}
  {
    hide Norm;
    if a != [] {
      assert a[0] in a && Norm(a[0]) in NormSet(a);
    }
  }

  lemma NormKeepsTrim(id: string)
    requires Norm(id) == id && id != ""
    ensures Trim(id) == id && !Blank(id)
  {
    TrimIsIdempotent(id);
    LowerOfTrimmed(Trim(id));
    TrimmedIsFixed(ToLower(Trim(id)));
  }

  lemma SameExclusions(a: Request, b: Request)
    requires Canonical(a) && Canonical(b) && KeyOf(a) == KeyOf(b)
    ensures ExcludeSet(a.excludeIDs, a.seeds) == ExcludeSet(b.excludeIDs, b.seeds)
  {
    SameKeySameValues(a.excludeIDs, b.excludeIDs);
    SameKeySameValues(a.seeds, b.seeds);
    forall id | id in a.excludeIDs + a.seeds + b.excludeIDs + b.seeds
      ensures id != "" && Norm(id) == id && Trim(id) == id && !Blank(id)
    {
      NormKeepsTrim(id);
    }
    hide Norm, Trim, SortedNormalized;
    CanonicalMembers(a.excludeIDs, b.excludeIDs);
    CanonicalMembers(a.seeds, b.seeds);
  }

  lemma CanonicalMembers(a: seq<string>, b: seq<string>)
    requires forall id :: id in a ==> id != "" && Norm(id) == id
    requires forall id :: id in b ==> id != "" && Norm(id) == id
    requires NormSet(a) == NormSet(b)
    ensures forall id :: id in a <==> id in b
  {
    hide Norm;
    forall id | id in a || id in b
      ensures id in a <==> id in b
    {
      assert id in a ==> id in NormSet(a);
      assert id in b ==> id in NormSet(b);
    }
  }

  lemma RankingIsUnique(totals: map<string, real>, a: seq<Scored>, b: seq<Scored>)
    requires IsRanking(totals, a) && IsRanking(totals, b)
    ensures a == b
  {
    hide NormalizeScore;
    AheadIsStrict();
    AscendingIsDetermined(a, b, Ahead);
  }

  lemma NoWantedNoBoost(list: seq<Scored>, c: Catalog, boost: real)
    ensures BoostAll(list, {}, c, boost) == list
  {
  }

  /** Two canonical requests with one key and one candidate limit have one answer. */
  lemma SameKeySameAnswer(a: Request, b: Request, x: seq<Scored>, y: seq<Scored>, c: Catalog, w: Weights)
    requires Canonical(a) && Canonical(b) && KeyOf(a) == KeyOf(b)
    requires a.maxCandidates == b.maxCandidates && a.limit > 0 && b.limit > 0
    requires IsAnswer(a, x, c, w) && IsAnswer(b, y, c, w)
    ensures x == y
  {
    hide Norm, SortedNormalized;
    SameKeySameSeeds(a.seeds, b.seeds);
    SameKinds(a.includeTypes, b.includeTypes);
    SameExclusions(a, b);
    SameKeySameValues(a.formats, b.formats);
    SuggestionsIgnoreOrder(a.seeds, b.seeds, IncludeSet(a.includeTypes), c, w);
    hide IncludeSet, ExcludeSet, AllSuggestions, Totals, IsRanking, NormSet, Finish;
    TotalsIgnoreOrder(AllSuggestions(a.seeds, IncludeSet(a.includeTypes), c, w),
                      AllSuggestions(b.seeds, IncludeSet(b.includeTypes), c, w), ExcludeSet(a.excludeIDs, a.seeds));
    assert TotalsOf(a, c, w) == TotalsOf(b, c, w);
    var r :| IsRanking(TotalsOf(a, c, w), r) && x == Finish(a, r, c, w);
    var q :| IsRanking(TotalsOf(b, c, w), q) && y == Finish(b, q, c, w);
    RankingIsUnique(TotalsOf(a, c, w), r, q);
    SameKeySameFinish(a, b, r, c, w);
  }

  /** One key, one limit and one candidate limit: one ranking finishes to one answer. */
  lemma SameKeySameFinish(a: Request, b: Request, ranking: seq<Scored>, c: Catalog, w: Weights)
    requires KeyOf(a) == KeyOf(b) && a.limit == b.limit && a.maxCandidates == b.maxCandidates
    ensures Finish(a, ranking, c, w) == Finish(b, ranking, c, w)
  {
    hide KeyOf, NormSet, BoostAll, Known, Cut;
    BoostDependsOnFormats(a, b, Cut(ranking, a.maxCandidates), c, w.preferenceBoost);
  }

  lemma BoostDependsOnFormats(a: Request, b: Request, list: seq<Scored>, c: Catalog, boost: real)
    requires KeyOf(a) == KeyOf(b)
    ensures var x := if a.formats != [] || a.languages != [] then BoostAll(list, NormSet(a.formats), c, boost)
            else list;
            var y := if b.formats != [] || b.languages != [] then BoostAll(list, NormSet(b.formats), c, boost)
                else list;
            x == y
  {
    SameKeySameValues(a.formats, b.formats);
    NoWantedNoBoost(list, c, boost);
    hide Norm, SortedNormalized, BoostAll;
    assert a.formats == [] ==> NormSet(a.formats) == {};
    assert b.formats == [] ==> NormSet(b.formats) == {};
  }

  /** As long as only canonical requests with one candidate limit were served, a cache hit is the fresh answer. */
  lemma CacheAgreesWithRecomputation(served: set<Request>, req: Request, results: seq<Scored>,
                                     recomputed: seq<Scored>, c: Catalog, w: Weights)
    requires forall q :: q in served ==> Canonical(q) && q.maxCandidates == req.maxCandidates && q.limit > 0
    requires req in served && IsAnswer(req, recomputed, c, w)
    requires exists q :: q in served && KeyOf(q) == KeyOf(req) && IsAnswer(q, results, c, w)
    ensures results == recomputed
  {
    var q :| q in served && KeyOf(q) == KeyOf(req) && IsAnswer(q, results, c, w);
    SameKeySameAnswer(q, req, results, recomputed, c, w);
  }

  /** The key forgets repetition: a repeated seed shares its key with the single one, yet doubles its suggestions. */
  lemma RepeatedSeedSharesKey(req: Request, seed: string, inc: Kinds, c: Catalog, w: Weights)
    ensures KeyOf(req.(seeds := [seed, seed])) == KeyOf(req.(seeds := [seed]))
    ensures AllSuggestions([seed, seed], inc, c, w) == Suggestions(seed, inc, c, w) + Suggestions(seed, inc, c, w)
  {
    hide Norm, Suggestions;
    assert [seed, seed][..1] == [seed] && [seed][..0] == [];
    assert Deduped([seed]) == (if Norm(seed) == "" then [] else [Norm(seed)]);
    assert Deduped([seed, seed]) == Deduped([seed]);
    assert AllSuggestions([seed], inc, c, w) == Suggestions(seed, inc, c, w) by {
      assert AllSuggestions([seed][..0], inc, c, w) == [];
    }
  }
}
