/**
  What the recommender's cache key forgets, and when that shows: two requests with one key that differ in the
  candidate limit, in the number or spelling of their seeds, in the spelling of an exclusion or in a blank type, and
  exactly when their answers agree all the same.
*/
module RecommendGaps {
  import opened Wrappers
  import opened Text
  import opened Sorting
  import opened Recommend
  import opened RecommendCache

  // ---- the candidate limit

  lemma {:induction false} KnownConcat(a: seq<Scored>, b: seq<Scored>, c: Catalog)
    ensures Known(a + b, c) == Known(a, c) + Known(b, c)
  {
    hide NormalizeScore;
    if b == [] {
      assert a + b == a;
    } else {
      assert (a + b)[..|a + b| - 1] == a + b[..|b| - 1];
      KnownConcat(a, b[..|b| - 1], c);
    }
  }

  lemma {:induction false} KnownCount(list: seq<Scored>, other: seq<Scored>, c: Catalog)
    requires |list| == |other| && forall i :: 0 <= i < |list| ==> list[i].id == other[i].id
    ensures |Known(list, c)| == |Known(other, c)|
  {
    if list != [] {
      var n := |list| - 1;
      KnownCount(list[..n], other[..n], c);
    }
  }

  lemma {:induction false} NoneKnown(list: seq<Scored>, c: Catalog)
    ensures Known(list, c) == [] <==> forall i :: 0 <= i < |list| ==> !c.known(list[i].id)
  {
    if list != [] {
      NoneKnown(list[..|list| - 1], c);
    }
  }

  /** The whole ranking after the preference boost. */
  function AllBoosted(req: Request, ranking: seq<Scored>, c: Catalog, w: Weights): (r: seq<Scored>)
    ensures |r| == |ranking|
  {
    if req.formats != [] || req.languages != [] then BoostAll(ranking, NormSet(req.formats), c, w.preferenceBoost)
    else ranking
  }

  lemma BoostedIDs(req: Request, ranking: seq<Scored>, c: Catalog, w: Weights)
    ensures forall i :: 0 <= i < |ranking| ==> AllBoosted(req, ranking, c, w)[i].id == ranking[i].id
  {
    hide Norm, NormSet;
  }

  lemma FinishCutsBoosted(req: Request, ranking: seq<Scored>, c: Catalog, w: Weights)
    ensures Finish(req, ranking, c, w) == Cut(Known(Cut(AllBoosted(req, ranking, c, w), req.maxCandidates), c),
                                              req.limit)
  {
    hide Norm, NormSet, Known, Boosted;
    var kept := Cut(ranking, req.maxCandidates);
    assert AllBoosted(req, kept, c, w) == Cut(AllBoosted(req, ranking, c, w), req.maxCandidates);
  }

  /** Of two cuts of one list, the longer adds what lies between. */
  lemma CutsNest<T>(s: seq<T>, n: int, m: int) returns (between: seq<T>)
    requires 0 <= n <= m
    ensures Cut(s, m) == Cut(s, n) + between
    ensures |between| == |Cut(s, m)| - |Cut(s, n)| && |Cut(s, n)| <= n
    ensures forall i :: 0 <= i < |between| ==> n + i < |s| && n + i < m && between[i] == s[n + i]
    ensures between != [] ==> |Cut(s, n)| == n
  {
    between := if n < |s| then Cut(s, m)[n..] else [];
  }

  /**
    Two requests that differ in the candidate limit have one key, and one answer if and only if the shorter cut
    already holds enough known works or no work between the two limits is known.
  */
  lemma LimitsAgreeIff(req: Request, n: int, m: int, ranking: seq<Scored>, x: seq<Scored>, y: seq<Scored>,
                       c: Catalog, w: Weights)
    requires 0 < n <= m && req.limit > 0 && IsRanking(TotalsOf(req, c, w), ranking)
    requires IsAnswer(req.(maxCandidates := n), x, c, w) && IsAnswer(req.(maxCandidates := m), y, c, w)
    ensures KeyOf(req.(maxCandidates := n)) == KeyOf(req.(maxCandidates := m))
    ensures x == y <==>
              |Known(Cut(ranking, n), c)| >= req.limit || forall i :: n <= i < m && i < |ranking| ==>
                  !c.known(ranking[i].id)
  {
    AnswerOfRanking(req.(maxCandidates := n), req, ranking, x, c, w);
    AnswerOfRanking(req.(maxCandidates := m), req, ranking, y, c, w);
    hide Norm, SortedNormalized, Known, IsRanking, TotalsOf, IsAnswer, Finish, AllBoosted;
    var all := AllBoosted(req, ranking, c, w);
    SameBoost(req, n, ranking, c, w);
    SameBoost(req, m, ranking, c, w);
    FinishCutsBoosted(req.(maxCandidates := n), ranking, c, w);
    FinishCutsBoosted(req.(maxCandidates := m), ranking, c, w);
    BoostedIDs(req, ranking, c, w);
    KnownCount(Cut(all, n), Cut(ranking, n), c);
    var between := CutsNest(all, n, m);
    KnownConcat(Cut(all, n), between, c);
    NoneKnown(between, c);
    CutsAgreeIff(Known(Cut(all, n), c), Known(between, c), req.limit);
    BetweenKnown(all, ranking, between, n, m, c);
  }

  lemma BetweenKnown(all: seq<Scored>, ranking: seq<Scored>, between: seq<Scored>, n: int, m: int, c: Catalog)
    requires 0 < n <= m && |all| == |ranking| && forall i :: 0 <= i < |all| ==> all[i].id == ranking[i].id
    requires |between| == |Cut(all, m)| - |Cut(all, n)|
    requires forall i :: 0 <= i < |between| ==> n + i < |all| && n + i < m && between[i] == all[n + i]
    ensures (forall i :: 0 <= i < |between| ==> !c.known(between[i].id))
            <==> forall i :: n <= i < m && i < |ranking| ==> !c.known(ranking[i].id)
  {
    forall i | n <= i < m && i < |ranking|
      ensures 0 <= i - n < |between| && between[i - n].id == ranking[i].id
    {
    }
  }

  lemma SameBoost(req: Request, n: int, ranking: seq<Scored>, c: Catalog, w: Weights)
    ensures AllBoosted(req.(maxCandidates := n), ranking, c, w) == AllBoosted(req, ranking, c, w)
  {
  }

  lemma CutsAgreeIff(a: seq<Scored>, b: seq<Scored>, limit: int)
    requires limit > 0
    ensures Cut(a, limit) == Cut(a + b, limit) <==> |a| >= limit || b == []
  {
    if |a| < limit && b != [] {
      assert |Cut(a + b, limit)| > |a|;
    } else if b == [] {
      assert a + b == a;
    }
  }

  /** The answer is what the one ranking finishes to. */
  lemma AnswerOfRanking(req: Request, base: Request, ranking: seq<Scored>, x: seq<Scored>, c: Catalog, w: Weights)
    requires IsAnswer(req, x, c, w) && IsRanking(TotalsOf(base, c, w), ranking)
    requires req.seeds == base.seeds && req.includeTypes == base.includeTypes && req.excludeIDs == base.excludeIDs
    ensures x == Finish(req, ranking, c, w)
  {
    hide IsRanking, Totals, AllSuggestions, IncludeSet, ExcludeSet, Finish;
    var r :| IsRanking(TotalsOf(req, c, w), r) && x == Finish(req, r, c, w);
    RankingIsUnique(TotalsOf(req, c, w), ranking, r);
  }

  // ---- two requests with one key

  /** The same works, each with the same rounded total. */
  ghost predicate SameRounded(s: map<string, real>, t: map<string, real>) {
    s.Keys == t.Keys && forall id :: id in s && id in t ==> NormalizeScore(s[id]) == NormalizeScore(t[id])
  }

  /** Rankings agree if and only if the rounded totals do. */
  lemma RankingsAgreeIff(s: map<string, real>, t: map<string, real>, a: seq<Scored>, b: seq<Scored>)
    requires IsRanking(s, a) && IsRanking(t, b)
    ensures a == b <==> SameRounded(s, t)
  {
    hide NormalizeScore, Ahead;
    if a == b {
      forall id
        ensures id in s <==> id in t
        ensures id in s && id in t ==> NormalizeScore(s[id]) == NormalizeScore(t[id])
      {
        if id in s {
          assert Scored(id, NormalizeScore(s[id])) in a;
        }
        if id in t {
          assert Scored(id, NormalizeScore(t[id])) in b;
        }
      }
    }
    if SameRounded(s, t) {
      AheadIsStrict();
      assert forall x :: x in a <==> x in b;
      AscendingIsDetermined(a, b, Ahead);
    }
  }

  /** Whatever the limits and preferences: with one key, totals that round alike give one answer. */
  lemma AgreeIfRounded(p: Request, q: Request, x: seq<Scored>, y: seq<Scored>, c: Catalog, w: Weights)
    requires KeyOf(p) == KeyOf(q) && p.limit == q.limit && p.maxCandidates == q.maxCandidates
    requires IsAnswer(p, x, c, w) && IsAnswer(q, y, c, w)
    requires SameRounded(TotalsOf(p, c, w), TotalsOf(q, c, w))
    ensures x == y
  {
    hide *;
    var a := RankingOf(p, x, c, w);
    var b := RankingOf(q, y, c, w);
    RankingsAgreeIff(TotalsOf(p, c, w), TotalsOf(q, c, w), a, b);
    SameKeySameFinish(p, q, a, c, w);
  }

  /** Room for all candidates, all of them known, and no preferences to hide a difference. */
  ghost predicate ShowsAll(req: Request, c: Catalog, w: Weights) {
    var totals := TotalsOf(req, c, w);
    && (forall id :: id in totals ==> c.known(id)) && req.maxCandidates >= |totals| && req.limit >= |totals|
    && req.formats == [] && req.languages == []
  }

  /** Where nothing is cut off or hidden, two requests have one answer if and only if their totals round alike. */
  lemma AgreeIff(p: Request, q: Request, x: seq<Scored>, y: seq<Scored>, c: Catalog, w: Weights)
    requires IsAnswer(p, x, c, w) && IsAnswer(q, y, c, w) && ShowsAll(p, c, w) && ShowsAll(q, c, w)
    ensures x == y <==> SameRounded(TotalsOf(p, c, w), TotalsOf(q, c, w))
  {
    hide IsAnswer, TotalsOf, IsRanking, Finish, SameRounded;
    var a := RankingOf(p, x, c, w);
    var b := RankingOf(q, y, c, w);
    RoomForAll(p, TotalsOf(p, c, w), a, c, w);
    RoomForAll(q, TotalsOf(q, c, w), b, c, w);
    RankingsAgreeIff(TotalsOf(p, c, w), TotalsOf(q, c, w), a, b);
  }

  /** With room for all and all known, the answer is the ranking. */
  lemma RoomForAll(req: Request, totals: map<string, real>, ranking: seq<Scored>, c: Catalog, w: Weights)
    requires IsRanking(totals, ranking) && (forall id :: id in totals ==> c.known(id))
    requires req.maxCandidates >= |totals| && req.limit >= |totals| && req.formats == [] && req.languages == []
    ensures Finish(req, ranking, c, w) == ranking
  {
    RankingHasLength(totals, ranking);
    hide Ahead, NormalizeScore;
    forall i | 0 <= i < |ranking|
      ensures c.known(ranking[i].id) && NormalizeScore(ranking[i].score) == ranking[i].score
    {
      assert ranking[i] in ranking;
      NormalizedIsFixed(totals[ranking[i].id]);
    }
    AllKnownStay(ranking, c);
    hide Known;
  }

  lemma RankingHasLength(totals: map<string, real>, ranking: seq<Scored>)
    requires IsRanking(totals, ranking)
    ensures |ranking| <= |totals|
  {
    RankingIsDistinct(totals, ranking);
    IDsOfDistinct(ranking);
    hide NormalizeScore, Ahead, DistinctIDs;
    SmallerSet(set s | s in ranking :: s.id, totals.Keys);
    assert |totals| == |totals.Keys|;
  }

  ghost predicate DistinctIDs(list: seq<Scored>) {
    forall i, k :: 0 <= i < k < |list| ==> list[i].id != list[k].id
  }

  lemma {:induction false} IDsOfDistinct(list: seq<Scored>)
    requires DistinctIDs(list)
    ensures |set s | s in list :: s.id| == |list|
  {
    if list != [] {
      var n := |list| - 1;
      IDsOfDistinct(list[..n]);
      assert forall s :: s in list <==> s in list[..n] || s == list[n];
      assert (set s | s in list :: s.id) == (set s | s in list[..n] :: s.id) + {list[n].id};
    }
  }

  lemma RankingIsDistinct(totals: map<string, real>, ranking: seq<Scored>)
    requires IsRanking(totals, ranking)
    ensures DistinctIDs(ranking)
  {
    hide NormalizeScore;
    AheadIsStrict();
    hide Ahead;
    forall i, k | 0 <= i < k < |ranking|
      ensures ranking[i].id != ranking[k].id
    {
      assert ranking[i] in ranking && ranking[k] in ranking && Ahead(ranking[i], ranking[k]);
    }
  }

  lemma RankingOf(req: Request, x: seq<Scored>, c: Catalog, w: Weights) returns (r: seq<Scored>)
    requires IsAnswer(req, x, c, w)
    ensures IsRanking(TotalsOf(req, c, w), r) && x == Finish(req, r, c, w)
  {
    hide IsRanking, TotalsOf, Finish;
    r :| IsRanking(TotalsOf(req, c, w), r) && x == Finish(req, r, c, w);
  }

  lemma NormalizedIsFixed(x: real)
    ensures NormalizeScore(NormalizeScore(x)) == NormalizeScore(x)
  {
    if 0.0 <= x <= 1.0 {
      var k := (x * 10000.0 + 0.5).Floor;
      assert NormalizeScore(x) == k as real / 10000.0 && 0 <= k <= 10000;
      StepIsFixed(k);
    }
  }

  lemma StepIsFixed(k: int)
    requires 0 <= k <= 10000
    ensures NormalizeScore(k as real / 10000.0) == k as real / 10000.0
  {
    var y := k as real / 10000.0;
    assert y * 10000.0 == k as real;
    assert 0.0 <= y <= 1.0 && (k as real + 0.5).Floor == k;
  }

  lemma {:induction false} AllKnownStay(list: seq<Scored>, c: Catalog)
    requires forall i :: 0 <= i < |list| ==> c.known(list[i].id) && NormalizeScore(list[i].score) == list[i].score
    ensures Known(list, c) == list
  {
    hide NormalizeScore;
    if list != [] {
      var n := |list| - 1;
      AllKnownStay(list[..n], c);
      assert list == list[..n] + [list[n]];
    }
  }

  // ---- seeds in another order, spelling or number

  /**
    Seed lists naming the same works, however often and in whatever order, share their key. The answers agree,
    whatever the limits and preferences, if the totals round alike.
  */
  lemma SeedsAgreeIfRounded(req: Request, a: seq<string>, b: seq<string>, x: seq<Scored>, y: seq<Scored>,
                            c: Catalog, w: Weights)
    requires NormSet(a) == NormSet(b)
    requires IsAnswer(req.(seeds := a), x, c, w) && IsAnswer(req.(seeds := b), y, c, w)
    ensures KeyOf(req.(seeds := a)) == KeyOf(req.(seeds := b))
    ensures SameRounded(TotalsOf(req.(seeds := a), c, w), TotalsOf(req.(seeds := b), c, w)) ==> x == y
  {
    hide NormSet, SortedNormalized, IsAnswer, TotalsOf, SameRounded;
    SameValuesSameKey(a, b);
    if SameRounded(TotalsOf(req.(seeds := a), c, w), TotalsOf(req.(seeds := b), c, w)) {
      AgreeIfRounded(req.(seeds := a), req.(seeds := b), x, y, c, w);
    }
  }

  /** Where nothing is cut off or hidden, they agree only then. */
  lemma SeedsAgreeIff(req: Request, a: seq<string>, b: seq<string>, x: seq<Scored>, y: seq<Scored>,
                      c: Catalog, w: Weights)
    requires NormSet(a) == NormSet(b)
    requires IsAnswer(req.(seeds := a), x, c, w) && IsAnswer(req.(seeds := b), y, c, w)
    requires ShowsAll(req.(seeds := a), c, w) && ShowsAll(req.(seeds := b), c, w)
    ensures KeyOf(req.(seeds := a)) == KeyOf(req.(seeds := b))
    ensures x == y <==> SameRounded(TotalsOf(req.(seeds := a), c, w), TotalsOf(req.(seeds := b), c, w))
  {
    hide NormSet, SortedNormalized, IsAnswer, TotalsOf, SameRounded, ShowsAll;
    SameValuesSameKey(a, b);
    AgreeIff(req.(seeds := a), req.(seeds := b), x, y, c, w);
  }

  /** The scores that stay the same in rounding when they double: rounded to nothing, to the first step, or to one. */
  predicate RoundsAlike(x: real) {
    x < 0.000025 || 0.00005 <= x < 0.000075 || x >= 0.99995
  }

  lemma RoundsAlikeIff(x: real)
    requires x > 0.0
    ensures NormalizeScore(x + x) == NormalizeScore(x) <==> RoundsAlike(x)
  {
    var u := x * 10000.0;
    assert (x + x) * 10000.0 == u + u;
    assert x <= 1.0 ==> NormalizeScore(x) == (u + 0.5).Floor as real / 10000.0;
    assert x + x <= 1.0 ==> NormalizeScore(x + x) == (u + u + 0.5).Floor as real / 10000.0;
  }

  /** Naming a seed twice doubles every total. */
  lemma RepetitionDoubles(req: Request, seed: string, c: Catalog, w: Weights)
    ensures var s, t := TotalsOf(req.(seeds := [seed]), c, w), TotalsOf(req.(seeds := [seed, seed]), c, w);
            t.Keys == s.Keys && forall id :: id in s ==> s[id] > 0.0 && t[id] == s[id] + s[id]
  {
    var inc, exclude := IncludeSet(req.includeTypes), ExcludeSet(req.excludeIDs, [seed]);
    assert ExcludeSet(req.excludeIDs, [seed, seed]) == exclude by {
      assert forall id :: id in req.excludeIDs + [seed, seed] <==> id in req.excludeIDs + [seed];
    }
    hide Norm, IncludeSet, ExcludeSet, Suggestions, Counts, Totals, Sum, Blank, Trim;
    RepeatedSeedSharesKey(req, seed, inc, c, w);
    var own := Suggestions(seed, inc, c, w);
    OneSeed(seed, inc, c, w);
    TotalsAreSums(own, exclude);
    TotalsAreSums(own + own, exclude);
    forall id
      ensures Sum(own + own, exclude, id) == Sum(own, exclude, id) + Sum(own, exclude, id)
    {
      SumConcat(own, own, exclude, id);
    }
    forall id | id in Totals(own, exclude)
      ensures Sum(own, exclude, id) > 0.0
    {
      SumIsPositive(own, exclude, id);
    }
  }

  lemma OneSeed(seed: string, inc: Kinds, c: Catalog, w: Weights)
    ensures AllSuggestions([seed], inc, c, w) == Suggestions(seed, inc, c, w)
  {
    hide Suggestions;
    assert [seed][..0] == [];
    assert AllSuggestions([], inc, c, w) == [];
  }

  lemma {:induction false} SumIsPositive(all: seq<Scored>, exclude: set<string>, id: string)
    ensures Sum(all, exclude, id) >= 0.0
    ensures (exists s :: s in all && s.id == id && Counts(s, exclude)) ==> Sum(all, exclude, id) > 0.0
  {
    if all != [] {
      var front, last := all[..|all| - 1], all[|all| - 1];
      SumIsPositive(front, exclude, id);
      assert forall s :: s in all <==> s in front || s == last;
    }
  }

  /** So naming one seed twice rounds alike if and only if every total survives doubling. */
  lemma DoublingRoundsAlike(req: Request, seed: string, c: Catalog, w: Weights)
    ensures var one, two := TotalsOf(req.(seeds := [seed]), c, w), TotalsOf(req.(seeds := [seed, seed]), c, w);
            SameRounded(one, two) <==> forall id :: id in one ==> RoundsAlike(one[id])
    ensures NormSet([seed, seed]) == NormSet([seed])
  {
    RepetitionDoubles(req, seed, c, w);
    hide TotalsOf, NormalizeScore, RoundsAlike, Norm;
    var one := TotalsOf(req.(seeds := [seed]), c, w);
    forall id | id in one
      ensures NormalizeScore(one[id] + one[id]) == NormalizeScore(one[id]) <==> RoundsAlike(one[id])
    {
      RoundsAlikeIff(one[id]);
    }
    assert forall v :: v in [seed, seed] <==> v in [seed];
  }

  /** In particular for one seed named twice. */
  lemma RepeatedSeedAgreesIff(req: Request, seed: string, x: seq<Scored>, y: seq<Scored>, c: Catalog, w: Weights)
    requires IsAnswer(req.(seeds := [seed]), x, c, w) && IsAnswer(req.(seeds := [seed, seed]), y, c, w)
    requires ShowsAll(req.(seeds := [seed]), c, w)
    ensures KeyOf(req.(seeds := [seed])) == KeyOf(req.(seeds := [seed, seed]))
    ensures x == y <==> forall id :: id in TotalsOf(req.(seeds := [seed]), c, w) ==>
                          RoundsAlike(TotalsOf(req.(seeds := [seed]), c, w)[id])
  {
    RepetitionDoubles(req, seed, c, w);
    DoublingRoundsAlike(req, seed, c, w);
    hide NormSet, IsAnswer, TotalsOf, SameRounded, KeyOf, RoundsAlike;
    var s, t := TotalsOf(req.(seeds := [seed]), c, w), TotalsOf(req.(seeds := [seed, seed]), c, w);
    assert |t| == |t.Keys| == |s.Keys| == |s|;
    SeedsAgreeIff(req, [seed], [seed, seed], x, y, c, w);
  }

  // ---- two requests with one key and two answers

  /** A catalog in which the author of `s` wrote `a` and `b` too. */
  function TwoBooks(): Catalog {
    Catalog((id: string) => [], (id: string) => None, (id: string) => None, (id: string) => [],
            (id: string) => if id == "s" then ["a", "b"] else [], (id: string) => [], (id: string) => true,
                (id: string) => [])
  }

  function HalfForAuthor(): Weights {
    Weights(0.0, 0.0, 0.5, 0.0, 0.0, 0.0)
  }

  /** A question for at most ten works, without preferences. */
  function AskingFor(seeds: seq<string>, exclude: seq<string>, kinds: seq<string>): Request {
    Request(seeds, 10, kinds, exclude, [], [], 50)
  }

  function Asking(): Request {
    AskingFor(["s"], [], [])
  }

  function BothBooks(): seq<Scored> {
    [Scored("a", 0.5), Scored("b", 0.5)]
  }

  lemma ShortTexts()
    ensures Trim("s") == "s" && !Blank("s") && !Blank("a") && !Blank("b")
  {
    TrimmedIsFixed("s");
    TrimmedIsFixed("a");
    TrimmedIsFixed("b");
  }

  lemma TwoBooksSuggested(inc: Kinds)
    requires inc == Kinds(true, true, true, true)
    ensures Suggestions("s", inc, TwoBooks(), HalfForAuthor()) == BothBooks()
  {
    ShortTexts();
    hide Trim, Blank;
    assert FromAuthors(["a", "b"], HalfForAuthor()) == BothBooks();
  }

  lemma TwoBooksTotals()
    ensures TotalsOf(Asking(), TwoBooks(), HalfForAuthor()) == map["a" := 0.5, "b" := 0.5]
  {
    hide Trim, Norm, Blank, AllSuggestions, Totals;
    var inc, c, w := Kinds(true, true, true, true), TwoBooks(), HalfForAuthor();
    ShortTexts();
    var exclude := ExcludeSet([], ["s"]);
    assert exclude == {"s"} by { assert [] + ["s"] == ["s"]; }
    TwoBooksSuggested(inc);
    OneSeed("s", inc, c, w);
    BothCount(exclude);
  }

  lemma BothCount(exclude: set<string>)
    requires exclude == {"s"}
    ensures Totals(BothBooks(), exclude) == map["a" := 0.5, "b" := 0.5]
  {
    ShortTexts();
    hide Blank;
    assert BothBooks()[..1] == [Scored("a", 0.5)] && [Scored("a", 0.5)][..0] == [];
    assert Counts(Scored("a", 0.5), exclude) && Counts(Scored("b", 0.5), exclude);
    assert Totals([Scored("a", 0.5)], exclude) == map["a" := 0.5];
  }

  lemma TwoBooksRanking()
    ensures IsRanking(TotalsOf(Asking(), TwoBooks(), HalfForAuthor()), BothBooks())
  {
    TwoBooksTotals();
    hide TotalsOf;
    var totals: map<string, real> := map["a" := 0.5, "b" := 0.5];
    assert NormalizeScore(0.5) == 0.5;
    assert "a"[0] < "b"[0] && StringLess("a", "b");
    assert forall s :: s in BothBooks() <==> s.id in totals && s.score == NormalizeScore(totals[s.id]);
  }

  /** Asking for one candidate or for two is one key and two answers. */
  lemma CandidateLimitIsNotInKey(x: seq<Scored>, y: seq<Scored>)
    requires IsAnswer(Asking().(maxCandidates := 1), x, TwoBooks(), HalfForAuthor())
    requires IsAnswer(Asking().(maxCandidates := 2), y, TwoBooks(), HalfForAuthor())
    ensures KeyOf(Asking().(maxCandidates := 1)) == KeyOf(Asking().(maxCandidates := 2)) && x != y
  {
    TwoBooksRanking();
    hide IsAnswer, IsRanking, TotalsOf, KeyOf;
    LimitsAgreeIff(Asking(), 1, 2, BothBooks(), x, y, TwoBooks(), HalfForAuthor());
    assert Cut(BothBooks(), 1) == [Scored("a", 0.5)];
    assert [Scored("a", 0.5)][..0] == [] && |Known([Scored("a", 0.5)], TwoBooks())| == 1;
    assert TwoBooks().known(BothBooks()[1].id);
  }

  /** Naming the seed once or twice is one key and two answers. */
  lemma RepetitionIsNotInKey(x: seq<Scored>, y: seq<Scored>)
    requires IsAnswer(Asking().(seeds := ["s"]), x, TwoBooks(), HalfForAuthor())
    requires IsAnswer(Asking().(seeds := ["s", "s"]), y, TwoBooks(), HalfForAuthor())
    ensures KeyOf(Asking().(seeds := ["s"])) == KeyOf(Asking().(seeds := ["s", "s"])) && x != y
  {
    AskingShowsAll();
    TwoBooksTotals();
    assert Asking().(seeds := ["s"]) == Asking();
    hide *;
    RepeatedSeedAgreesIff(Asking(), "s", x, y, TwoBooks(), HalfForAuthor());
    HalfDoesNotRound();
    assert "a" in map["a" := 0.5, "b" := 0.5];
  }

  lemma AskingShowsAll()
    ensures ShowsAll(Asking(), TwoBooks(), HalfForAuthor())
  {
    TwoBooksTotals();
    hide TotalsOf;
    assert |map["a" := 0.5, "b" := 0.5]| == 2;
  }

  lemma HalfDoesNotRound()
    ensures !RoundsAlike(0.5)
  {
  }

  /** Both requests have answers, so the two answers do differ. */
  lemma AskingIsAnswered()
    ensures IsAnswer(Asking().(maxCandidates := 1), [Scored("a", 0.5)], TwoBooks(), HalfForAuthor())
    ensures IsAnswer(Asking().(maxCandidates := 2), BothBooks(), TwoBooks(), HalfForAuthor())
  {
    TwoBooksRanking();
    assert TotalsOf(Asking().(maxCandidates := 1), TwoBooks(), HalfForAuthor()) == TotalsOf(Asking(), TwoBooks(),
        HalfForAuthor());
    assert TotalsOf(Asking().(maxCandidates := 2), TwoBooks(), HalfForAuthor()) == TotalsOf(Asking(), TwoBooks(),
        HalfForAuthor());
    hide TotalsOf, IsRanking;
    var one := [Scored("a", 0.5)];
    assert BothBooks()[..1] == one && one[..0] == [];
    assert NormalizeScore(0.5) == 0.5;
    assert Known([], TwoBooks()) == [] && Known(one, TwoBooks()) == one
           && Known(BothBooks(), TwoBooks()) == BothBooks();
    assert Finish(Asking().(maxCandidates := 1), BothBooks(), TwoBooks(), HalfForAuthor()) == one;
    assert Finish(Asking().(maxCandidates := 2), BothBooks(), TwoBooks(), HalfForAuthor()) == BothBooks();
  }

  // ---- spellings the key does not tell apart

  lemma NothingFound(req: Request, c: Catalog, w: Weights)
    requires TotalsOf(req, c, w) == map[]
    ensures IsAnswer(req, [], c, w)
  {
    hide TotalsOf;
    assert IsRanking(map[], []);
    assert BoostAll([], NormSet(req.formats), c, w.preferenceBoost) == [];
    assert Finish(req, [], c, w) == [];
  }

  lemma BothFound(req: Request)
    requires TotalsOf(req, TwoBooks(), HalfForAuthor()) == map["a" := 0.5, "b" := 0.5]
    requires req.limit == 10 && req.maxCandidates == 50 && req.formats == [] && req.languages == []
    ensures IsAnswer(req, BothBooks(), TwoBooks(), HalfForAuthor())
  {
    TwoBooksTotals();
    TwoBooksRanking();
    hide TotalsOf, IsRanking;
    assert |map["a" := 0.5, "b" := 0.5]| == 2;
    RoomForAll(req, map["a" := 0.5, "b" := 0.5], BothBooks(), TwoBooks(), HalfForAuthor());
  }

  lemma NoSuggestions(seed: string, inc: Kinds)
    requires seed != "s" || inc == Kinds(false, false, false, false)
    ensures AllSuggestions([seed], inc, TwoBooks(), HalfForAuthor()) == []
  {
    assert Suggestions(seed, inc, TwoBooks(), HalfForAuthor()) == [];
    OneSeed(seed, inc, TwoBooks(), HalfForAuthor());
  }

  /** A seed in capitals or with spaces around it finds nothing, and shares the key of the one that does. */
  lemma SeedSpellingIsNotInKey(other: string)
    requires Norm(other) == "s" && other != "s"
    ensures KeyOf(AskingFor([other], [], [])) == KeyOf(Asking())
    ensures IsAnswer(AskingFor([other], [], []), [], TwoBooks(), HalfForAuthor())
    ensures IsAnswer(Asking(), BothBooks(), TwoBooks(), HalfForAuthor())
  {
    ShortTexts();
    SuchSpellings();
    hide Trim, ToLower;
    assert NormSet([other]) == NormSet(["s"]) by { hide Norm; OneNormalized(other); OneNormalized("s"); }
    SameValuesSameKey([other], ["s"]);
    NoSuggestions(other, Kinds(true, true, true, true));
    TwoBooksTotals();
    hide SortedNormalized, NormSet, AllSuggestions, Norm, ExcludeSet;
    NothingFound(AskingFor([other], [], []), TwoBooks(), HalfForAuthor());
    BothFound(Asking());
  }

  lemma OneNormalized(value: string)
    ensures NormSet([value]) == if Norm(value) == "" then {} else {Norm(value)}
  {
    hide Norm;
  }

  lemma SuchSpellings()
    ensures Norm("s") == "s" && Norm("S") == "s" && Norm(" s") == "s"
    ensures Norm("a") == "a" && Norm("A") == "a" && Norm("") == ""
  {
    TrimmedIsFixed("S");
    TrimmedIsFixed("s");
    TrimmedIsFixed("a");
    TrimmedIsFixed("A");
    TrimmedIsFixed("");
    assert TrimLeft(" s") == "s" by { assert " s"[1..] == "s"; }
    assert ToLower("S") == "s" && ToLower("s") == "s" && ToLower("A") == "a" && ToLower("a") == "a"
           && ToLower("") == "";
  }

  /** A blank include type asks for nothing, and shares the key of asking for everything. */
  lemma BlankTypeIsNotInKey()
    ensures KeyOf(AskingFor(["s"], [], [""])) == KeyOf(Asking())
    ensures IsAnswer(AskingFor(["s"], [], [""]), [], TwoBooks(), HalfForAuthor())
    ensures IsAnswer(Asking(), BothBooks(), TwoBooks(), HalfForAuthor())
  {
    SuchSpellings();
    hide Norm;
    OneNormalized("");
    assert NormSet([]) == {};
    SameValuesSameKey([""], []);
    assert forall v :: v in [""] ==> Norm(v) == "";
    assert IncludeSet([""]) == Kinds(false, false, false, false);
    NoSuggestions("s", Kinds(false, false, false, false));
    TwoBooksTotals();
    hide SortedNormalized, NormSet, AllSuggestions, IncludeSet, ExcludeSet;
    NothingFound(AskingFor(["s"], [], [""]), TwoBooks(), HalfForAuthor());
    BothFound(Asking());
  }

  /** An exclusion in capitals excludes nothing, and shares the key of the one that does. */
  lemma ExclusionSpellingIsNotInKey()
    ensures KeyOf(AskingFor(["s"], ["A"], [])) == KeyOf(AskingFor(["s"], ["a"], []))
    ensures IsAnswer(AskingFor(["s"], ["A"], []), BothBooks(), TwoBooks(), HalfForAuthor())
    ensures IsAnswer(AskingFor(["s"], ["a"], []), [Scored("b", 0.5)], TwoBooks(), HalfForAuthor())
  {
    SuchSpellings();
    OneNormalized("a");
    OneNormalized("A");
    SameValuesSameKey(["A"], ["a"]);
    Excluding("A");
    Excluding("a");
    hide TotalsOf, SortedNormalized, NormSet, Norm;
    BothFound(AskingFor(["s"], ["A"], []));
    OneFound();
  }

  lemma Excluding(id: string)
    requires id == "a" || id == "A"
    ensures TotalsOf(AskingFor(["s"], [id], []), TwoBooks(), HalfForAuthor())
            == if id == "a" then map["b" := 0.5] else map["a" := 0.5, "b" := 0.5]
  {
    hide Trim, Norm, Blank, AllSuggestions, Totals;
    var inc, c, w := Kinds(true, true, true, true), TwoBooks(), HalfForAuthor();
    ShortTexts();
    ShortText(id);
    var exclude := ExcludeSet([id], ["s"]);
    assert exclude == {id, "s"} by { assert [id] + ["s"] == [id, "s"]; }
    TwoBooksSuggested(inc);
    OneSeed("s", inc, c, w);
    TotalsWithout(id, exclude);
  }

  lemma TotalsWithout(id: string, exclude: set<string>)
    requires (id == "a" || id == "A") && exclude == {id, "s"}
    ensures Totals(BothBooks(), exclude) == if id == "a" then map["b" := 0.5] else map["a" := 0.5, "b" := 0.5]
  {
    ShortTexts();
    hide Blank;
    assert BothBooks()[..1] == [Scored("a", 0.5)] && [Scored("a", 0.5)][..0] == [];
    assert Counts(Scored("a", 0.5), exclude) <==> id != "a";
    assert Counts(Scored("b", 0.5), exclude);
    assert Totals([Scored("a", 0.5)], exclude) == if id == "a" then map[] else map["a" := 0.5];
  }

  lemma ShortText(id: string)
    requires id == "a" || id == "A"
    ensures Trim(id) == id && !Blank(id)
  {
    TrimmedIsFixed(id);
  }

  lemma OneFound()
    ensures IsAnswer(AskingFor(["s"], ["a"], []), [Scored("b", 0.5)], TwoBooks(), HalfForAuthor())
  {
    Excluding("a");
    hide TotalsOf;
    var totals: map<string, real> := map["b" := 0.5];
    var one := [Scored("b", 0.5)];
    assert NormalizeScore(0.5) == 0.5;
    assert one[0] in one;
    assert IsRanking(totals, one);
    RoomForAll(AskingFor(["s"], ["a"], []), totals, one, TwoBooks(), HalfForAuthor());
  }
}
