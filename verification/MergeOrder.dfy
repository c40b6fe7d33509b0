/** Merging does not depend on the order in which the providers answered. */
module MergeOrder {
  import opened Wrappers
  import opened Text
  import opened Sorting
  import opened MergeSpec
  import opened Merger
  import opened MergeTheorems

  // ---- publication year

  /** The dated works' years, in arrival order. */
  function Years(items: seq<Item>): seq<int> {
    if items == [] then []
    else
      var rest, y := Years(items[..|items| - 1]), items[|items| - 1].work.year;
      if y > 0 then rest + [y] else rest
  }

  /** The best score with which a year was reported. */
  ghost predicate IsTopScoreOf(items: seq<Item>, year: int, score: real) {
    && (forall i :: i in items && i.work.year == year ==> i.score <= score)
    && (exists i :: i in items && i.work.year == year && i.score == score)
  }

  ghost predicate Counted(items: seq<Item>, votes: map<int, nat>) {
    && (forall y :: y in votes <==> y in Years(items))
    && (forall y :: y in votes ==> votes[y] == multiset(Years(items))[y])
  }

  ghost predicate TopScored(items: seq<Item>, votes: map<int, nat>, maxScore: map<int, real>) {
    && (forall y :: y in votes ==> IsTopScoreOf(items, y, ScoreAt(maxScore, y)))
    && (forall y :: y in maxScore ==> y in votes)
  }

  /** Votes count the works of each year, and each voted year carries its best score. */
  ghost predicate Tallied(items: seq<Item>, votes: map<int, nat>, maxScore: map<int, real>) {
    Counted(items, votes) && TopScored(items, votes, maxScore)
  }

  lemma StepOfYear(e: Entry, i: Item, key: SubjectKey)
    ensures var e', f, y := Absorb(e, i, key), First(i, key), i.work.year;
            && f.votes == (if y > 0 then map[y := 1] else map[]) && f.work.year == y
            && f.maxScore == (if y > 0 then map[y := i.score] else map[])
            && e'.votes == Vote(e.votes, y) && e'.maxScore == Raise(e.maxScore, y, i.score)
            && (y <= 0 ==> e'.work.year == e.work.year)
            && (y > 0 ==> e'.work.year == BestYear(e'.votes, e'.maxScore, if i.score > e.score then y else e.work.year))
  {
    hide MergedSubjects, CleanEditions, Blank, BestYear;
  }

  lemma TallyOne(i: Item)
    ensures Years([i]) == if i.work.year > 0 then [i.work.year] else []
    ensures Tallied([i], if i.work.year > 0 then map[i.work.year := 1] else map[], if i.work.year > 0
            then map[i.work.year := i.score] else map[])
  {
    assert [i][..0] == [];
    assert i in [i];
  }

  lemma TopScoreMore(items: seq<Item>, i: Item, z: int, s: real)
    requires IsTopScoreOf(items, z, s)
    ensures IsTopScoreOf(items + [i], z, if i.work.year == z && i.score > s then i.score else s)
  {
    assert forall k :: k in items + [i] <==> k in items || k == i;
  }

  lemma TopScoreNew(items: seq<Item>, i: Item)
    requires forall k :: k in items ==> k.work.year != i.work.year
    ensures IsTopScoreOf(items + [i], i.work.year, i.score)
  {
    assert forall k :: k in items + [i] <==> k in items || k == i;
  }

  function Vote(votes: map<int, nat>, y: int): map<int, nat> {
    if y > 0 then votes[y := (if y in votes then votes[y] else 0) + 1] else votes
  }

  function Raise(maxScore: map<int, real>, y: int, score: real): map<int, real> {
    if y > 0 && score > ScoreAt(maxScore, y) then maxScore[y := score] else maxScore
  }

  lemma CountMore(items: seq<Item>, i: Item, votes: map<int, nat>)
    requires Counted(items, votes)
    ensures Counted(items + [i], Vote(votes, i.work.year))
  {
    var y, all := i.work.year, items + [i];
    assert all[..|items|] == items && all[|items|] == i;
    assert Years(all) == if y > 0 then Years(items) + [y] else Years(items);
  }

  lemma ScoreMore(items: seq<Item>, i: Item, votes: map<int, nat>, maxScore: map<int, real>)
    requires Counted(items, votes) && TopScored(items, votes, maxScore) && i.score >= 0.0
    ensures TopScored(items + [i], Vote(votes, i.work.year), Raise(maxScore, i.work.year, i.score))
  {
    hide IsTopScoreOf;
    var y := i.work.year;
    PositiveYears(items);
    forall z | z in Vote(votes, y)
      ensures IsTopScoreOf(items + [i], z, ScoreAt(Raise(maxScore, y, i.score), z))
    {
      if z in votes {
        TopScoreMore(items, i, z, ScoreAt(maxScore, z));
      } else {
        UnvotedYear(items, y);
        TopScoreNew(items, i);
      }
    }
  }

  lemma TallyMore(items: seq<Item>, i: Item, votes: map<int, nat>, maxScore: map<int, real>)
    requires Tallied(items, votes, maxScore) && i.score >= 0.0
    ensures Tallied(items + [i], Vote(votes, i.work.year), Raise(maxScore, i.work.year, i.score))
  {
    CountMore(items, i, votes);
    ScoreMore(items, i, votes, maxScore);
  }

  lemma {:induction false} PositiveYears(items: seq<Item>)
    ensures forall y :: y in Years(items) ==> y > 0
  {
    if items != [] {
      PositiveYears(items[..|items| - 1]);
    }
  }

  lemma {:induction false} UnvotedYear(items: seq<Item>, y: int)
    requires y > 0 && y !in Years(items)
    ensures forall i :: i in items ==> i.work.year != y
  {
    if items != [] {
      UnvotedYear(items[..|items| - 1], y);
      assert forall i :: i in items <==> i in items[..|items| - 1] || i == items[|items| - 1];
    }
  }

  /** The fold's year is the best-voted one, and there is none exactly when no work is dated. */
  lemma {:induction false} FoldVotesYear(items: seq<Item>, key: SubjectKey)
    requires items != [] && forall i :: i in items ==> i.score >= 0.0 && i.work.year >= 0
    ensures var e := Fold(items, key);
            && Tallied(items, e.votes, e.maxScore)
            && (if e.votes == map[] then e.work.year == 0 else IsBestYear(e.votes, e.maxScore, e.work.year))
  {
    hide Absorb, First, Fold, Tallied;
    var n := |items| - 1;
    var front, last := items[..n], items[n];
    assert front + [last] == items;
    assert last in items && forall i :: i in front ==> i in items;
    if n == 0 {
      FoldOne(items, key);
      StepOfYear(First(last, key), last, key);
      TallyOne(last);
      assert items == [last];
    } else {
      FoldVotesYear(front, key);
      FoldMore(items, key);
      var e := Fold(front, key);
      StepOfYear(e, last, key);
      TallyMore(front, last, e.votes, e.maxScore);
    }
  }

  /** The year of a set of works with non-negative scores and years does not depend on their order. */
  lemma YearIgnoresOrder(a: seq<Item>, b: seq<Item>, key: SubjectKey)
    requires a != [] && b != [] && multiset(a) == multiset(b)
    requires forall i :: i in a ==> i.score >= 0.0 && i.work.year >= 0
    ensures Fold(a, key).work.year == Fold(b, key).work.year
  {
    assert forall i :: i in b <==> i in multiset(b);
    assert forall i :: i in a <==> i in multiset(a);
    FoldVotesYear(a, key);
    FoldVotesYear(b, key);
    YearsIgnoreOrder(a, b);
    var x, y := Fold(a, key), Fold(b, key);
    hide Fold;
    SameTally(a, b, x.votes, x.maxScore, y.votes, y.maxScore);
    if x.votes != map[] {
      SameBest(x.votes, x.maxScore, y.maxScore, y.work.year);
      BestYearIsUnique(x.votes, x.maxScore, x.work.year, y.work.year);
    }
  }

  lemma SameTally(a: seq<Item>, b: seq<Item>, va: map<int, nat>, ma: map<int, real>, vb: map<int, nat>,
                  mb: map<int, real>)
    requires Tallied(a, va, ma) && Tallied(b, vb, mb)
    requires multiset(Years(a)) == multiset(Years(b)) && forall i :: i in a <==> i in b
    ensures va == vb && forall y :: y in va ==> ScoreAt(ma, y) == ScoreAt(mb, y)
  {
    hide Years, IsTopScoreOf;
    forall y
      ensures y in va <==> y in vb
      ensures y in va ==> va[y] == vb[y]
    {
      assert y in Years(a) <==> y in multiset(Years(a));
      assert y in Years(b) <==> y in multiset(Years(b));
    }
    forall y | y in va
      ensures ScoreAt(ma, y) == ScoreAt(mb, y)
    {
      SameTopScore(a, b, y, ScoreAt(ma, y), ScoreAt(mb, y));
    }
  }

  lemma SameTopScore(a: seq<Item>, b: seq<Item>, y: int, s: real, t: real)
    requires IsTopScoreOf(a, y, s) && IsTopScoreOf(b, y, t) && forall i :: i in a <==> i in b
    ensures s == t
  {
  }

  lemma SameBest(votes: map<int, nat>, m: map<int, real>, m': map<int, real>, y: int)
    requires IsBestYear(votes, m', y) && forall z :: z in votes ==> ScoreAt(m, z) == ScoreAt(m', z)
    ensures IsBestYear(votes, m, y)
  {
    forall z | z in votes && z != y
      ensures Beats(votes, m, y, z)
    {
      assert Beats(votes, m', y, z);
    }
  }

  // ---- what depends on the items only as a multiset

  lemma {:induction false} YearsConcat(a: seq<Item>, b: seq<Item>)
    ensures Years(a + b) == Years(a) + Years(b)
  {
    if b == [] {
      assert a + b == a;
    } else {
      assert (a + b)[..|a + b| - 1] == a + b[..|b| - 1];
      YearsConcat(a, b[..|b| - 1]);
    }
  }

  lemma {:induction false} EditionsConcat(a: seq<Item>, b: seq<Item>)
    ensures AllEditions(a + b) == AllEditions(a) + AllEditions(b)
  {
    if b == [] {
      assert a + b == a;
    } else {
      assert (a + b)[..|a + b| - 1] == a + b[..|b| - 1];
      EditionsConcat(a, b[..|b| - 1]);
    }
  }

  lemma {:induction false} YearsIgnoreOrder(a: seq<Item>, b: seq<Item>)
    requires multiset(a) == multiset(b)
    ensures multiset(Years(a)) == multiset(Years(b))
    decreases |a|
  {
    assert |a| == |multiset(a)| == |multiset(b)| == |b|;
    if a != [] {
      hide Years;
      var k := TakeOutLast(a, b);
      var front, x, l, r := a[..|a| - 1], [b[k]], b[..k], b[k + 1..];
      YearsIgnoreOrder(front, l + r);
      YearsConcat(front, x);
      YearsConcat(l, r);
      YearsConcat(l + x, r);
      YearsConcat(l, x);
    }
  }

  lemma {:induction false} EditionsIgnoreOrder(a: seq<Item>, b: seq<Item>)
    requires multiset(a) == multiset(b)
    ensures multiset(AllEditions(a)) == multiset(AllEditions(b))
    decreases |a|
  {
    assert |a| == |multiset(a)| == |multiset(b)| == |b|;
    if a != [] {
      hide AllEditions;
      var k := TakeOutLast(a, b);
      var front, x, l, r := a[..|a| - 1], [b[k]], b[..k], b[k + 1..];
      EditionsIgnoreOrder(front, l + r);
      EditionsConcat(front, x);
      EditionsConcat(l, r);
      EditionsConcat(l + x, r);
      EditionsConcat(l, x);
    }
  }

  lemma CleaningConcat(a: seq<Edition>, b: seq<Edition>)
    ensures CleanEditions(a + b) == CleanEditions(a) + CleanEditions(b)
  {
  }

  lemma {:induction false} CleaningIgnoresOrder(a: seq<Edition>, b: seq<Edition>)
    requires multiset(a) == multiset(b)
    ensures multiset(CleanEditions(a)) == multiset(CleanEditions(b))
    decreases |a|
  {
    assert |a| == |multiset(a)| == |multiset(b)| == |b|;
    if a != [] {
      hide CleanEdition, CleanEditions;
      var k := TakeOutLast(a, b);
      var front, x, l, r := a[..|a| - 1], [b[k]], b[..k], b[k + 1..];
      CleaningIgnoresOrder(front, l + r);
      CleaningConcat(front, x);
      CleaningConcat(l, r);
      CleaningConcat(l + x, r);
      CleaningConcat(l, x);
    }
  }

  // ---- from batches to one fingerprint

  lemma {:induction false} FlattenConcat(a: seq<ProviderResult>, b: seq<ProviderResult>, scores: map<string, real>,
                                         generate: Fingerprinter)
    ensures Flatten(a + b, scores, generate) == Flatten(a, scores, generate) + Flatten(b, scores, generate)
  {
    hide Scored;
    if b == [] {
      assert a + b == a;
    } else {
      assert (a + b)[..|a + b| - 1] == a + b[..|b| - 1];
      FlattenConcat(a, b[..|b| - 1], scores, generate);
    }
  }

  lemma {:induction false} FlattenIgnoresOrder(a: seq<ProviderResult>, b: seq<ProviderResult>,
                                               scores: map<string, real>, generate: Fingerprinter)
    requires multiset(a) == multiset(b)
    ensures multiset(Flatten(a, scores, generate)) == multiset(Flatten(b, scores, generate))
    decreases |a|
  {
    assert |a| == |multiset(a)| == |multiset(b)| == |b|;
    if a != [] {
      hide Flatten, Scored;
      var k := TakeOutLast(a, b);
      var front, x, l, r := a[..|a| - 1], [b[k]], b[..k], b[k + 1..];
      FlattenIgnoresOrder(front, l + r, scores, generate);
      FlattenConcat(front, x, scores, generate);
      FlattenConcat(l, r, scores, generate);
      FlattenConcat(l + x, r, scores, generate);
      FlattenConcat(l, x, scores, generate);
    }
  }

  lemma {:induction false} SelectConcat(a: seq<Item>, b: seq<Item>, fp: string)
    ensures Select(a + b, fp) == Select(a, fp) + Select(b, fp)
  {
    if b == [] {
      assert a + b == a;
    } else {
      assert (a + b)[..|a + b| - 1] == a + b[..|b| - 1];
      SelectConcat(a, b[..|b| - 1], fp);
    }
  }

  lemma {:induction false} SelectIgnoresOrder(a: seq<Item>, b: seq<Item>, fp: string)
    requires multiset(a) == multiset(b)
    ensures multiset(Select(a, fp)) == multiset(Select(b, fp))
    decreases |a|
  {
    assert |a| == |multiset(a)| == |multiset(b)| == |b|;
    if a != [] {
      hide Select;
      var k := TakeOutLast(a, b);
      var front, x, l, r := a[..|a| - 1], [b[k]], b[..k], b[k + 1..];
      SelectIgnoresOrder(front, l + r, fp);
      SelectConcat(front, x, fp);
      SelectConcat(l, r, fp);
      SelectConcat(l + x, r, fp);
      SelectConcat(l, x, fp);
    }
  }

  lemma {:induction false} SelectedItems(items: seq<Item>, fp: string)
    ensures forall i :: i in Select(items, fp) <==> i in items && i.work.fingerprint == fp
  {
    if items != [] {
      SelectedItems(items[..|items| - 1], fp);
      assert forall i :: i in items <==> i in items[..|items| - 1] || i == items[|items| - 1];
    }
  }

  lemma {:induction false} WinnerConcat(a: seq<Item>, b: seq<Item>, p: Item -> bool)
    ensures var x, y := Winner(a, p), Winner(b, p);
            Winner(a + b, p) == if y.None? then x else if x.None? || y.value.score > x.value.score then y else x
  {
    if b == [] {
      assert a + b == a;
    } else {
      assert (a + b)[..|a + b| - 1] == a + b[..|b| - 1];
      WinnerConcat(a, b[..|b| - 1], p);
    }
  }

  /** The winner of one batch for a fingerprint. */
  ghost function BatchWinner(pr: ProviderResult, fp: string, p: Item -> bool, scores: map<string, real>,
                             generate: Fingerprinter): Option<Item> {
    Winner(Select(Scored(pr, scores, generate), fp), p)
  }

  lemma BatchWinnerScore(pr: ProviderResult, fp: string, p: Item -> bool, scores: map<string, real>,
                         generate: Fingerprinter)
    ensures var w := BatchWinner(pr, fp, p, scores, generate); w.Some? ==>
              w.value.score == ScoreFor(scores, pr.provider)
  {
    hide WinsAt;
    var items := Scored(pr, scores, generate);
    SelectedItems(items, fp);
    WinnerWins(Select(items, fp), p);
    if BatchWinner(pr, fp, p, scores, generate).Some? {
      var k :| 0 <= k < |Select(items, fp)| && WinsAt(Select(items, fp), p, k)
          && Select(items, fp)[k] == Winner(Select(items, fp), p).value;
      assert Select(items, fp)[k] in items;
    }
  }

  /** The overall winner is the winner of a batch whose provider no winning batch outscores. */
  lemma {:induction false} WinnerOfBatches(results: seq<ProviderResult>, fp: string, p: Item -> bool,
                                           scores: map<string, real>, generate: Fingerprinter)
    ensures var w := Winner(Select(Flatten(results, scores, generate), fp), p);
            && (w.None? <==> forall b :: b in results ==> BatchWinner(b, fp, p, scores, generate).None?)
            && (w.Some? ==> exists b :: b in results && BatchWinner(b, fp, p, scores, generate) == w)
            && (w.Some? ==> forall b :: b in results && BatchWinner(b, fp, p, scores, generate).Some? ==>
                  ScoreFor(scores, b.provider) <= w.value.score)
  {
    if results != [] {
      var front, last := results[..|results| - 1], results[|results| - 1];
      WinnerOfBatches(front, fp, p, scores, generate);
      var a, b := Flatten(front, scores, generate), Scored(last, scores, generate);
      SelectConcat(a, b, fp);
      WinnerConcat(Select(a, fp), Select(b, fp), p);
      BatchWinnerScore(last, fp, p, scores, generate);
      assert forall x :: x in results <==> x in front || x == last;
      hide Winner, Select, Scored;
      var w := Winner(Select(Flatten(results, scores, generate), fp), p);
      if w.Some? && w != BatchWinner(last, fp, p, scores, generate) {
        var x :| x in front && BatchWinner(x, fp, p, scores, generate) == w;
        assert x in results;
      }
    }
  }

  ghost predicate DistinctScores(results: seq<ProviderResult>, scores: map<string, real>) {
    forall i, k :: 0 <= i < k < |results| ==>
        ScoreFor(scores, results[i].provider) != ScoreFor(scores, results[k].provider)
  }

  lemma ScoresTellApart(r: seq<ProviderResult>, scores: map<string, real>, b: ProviderResult, b': ProviderResult)
    requires DistinctScores(r, scores) && b in r && b' in r
             && ScoreFor(scores, b.provider) == ScoreFor(scores, b'.provider)
    ensures b == b'
  {
    var i :| 0 <= i < |r| && r[i] == b;
    var k :| 0 <= k < |r| && r[k] == b';
    assert i == k;
  }

  lemma SameMembers<T>(a: seq<T>, b: seq<T>)
    requires multiset(a) == multiset(b)
    ensures forall x :: x in a <==> x in b
  {
    assert forall x :: x in a <==> x in multiset(a);
    assert forall x :: x in b <==> x in multiset(b);
  }

  /** With distinct provider scores, the winner does not depend on the order of the batches. */
  lemma WinnerIgnoresOrder(r: seq<ProviderResult>, r': seq<ProviderResult>, fp: string, p: Item -> bool,
                           scores: map<string, real>, generate: Fingerprinter)
    requires multiset(r) == multiset(r') && DistinctScores(r, scores)
    ensures Winner(Select(Flatten(r, scores, generate), fp), p) == Winner(Select(Flatten(r', scores, generate), fp), p)
  {
    hide Winner, Select, Flatten, BatchWinner, DistinctScores, ScoreFor;
    SameMembers(r, r');
    WinnerOfBatches(r, fp, p, scores, generate);
    WinnerOfBatches(r', fp, p, scores, generate);
    var w, w' := Winner(Select(Flatten(r, scores, generate), fp), p),
        Winner(Select(Flatten(r', scores, generate), fp), p);
    if w.Some? {
      var b :| b in r && BatchWinner(b, fp, p, scores, generate) == w;
      var b' :| b' in r' && BatchWinner(b', fp, p, scores, generate) == w';
      BatchWinnerScore(b, fp, p, scores, generate);
      BatchWinnerScore(b', fp, p, scores, generate);
      ScoresTellApart(r, scores, b, b');
    }
  }

  // ---- the main theorem

  function SeriesOf(w: Work): Option<Series> {
    if NamesSeries(w) then w.series else None
  }

  ghost predicate NonNegative(items: seq<Item>) {
    forall i :: i in items ==> i.score >= 0.0 && i.work.year >= 0
  }

  lemma SelectedAreNonNegative(items: seq<Item>, fp: string)
    requires NonNegative(items)
    ensures forall i :: i in Select(items, fp) ==> i.score >= 0.0 && i.work.year >= 0
  {
    SelectedItems(items, fp);
  }

  /** Same fingerprints, same cleaned editions and same year, whatever the arrival order. */
  lemma MergeIgnoresArrivalOrder(r: seq<ProviderResult>, r': seq<ProviderResult>, scores: map<string, real>,
                                 generate: Fingerprinter, key: SubjectKey, fp: string)
    requires multiset(r) == multiset(r') && NonNegative(Flatten(r, scores, generate))
    ensures var a, b := Flatten(r, scores, generate), Flatten(r', scores, generate);
            && (fp in FirstSeen(a) <==> fp in FirstSeen(b))
            && (fp in FirstSeen(a) ==>
                  && Select(a, fp) != [] && Select(b, fp) != []
                  && multiset(MergedWork(a, fp, key).editions) == multiset(MergedWork(b, fp, key).editions)
                  && MergedWork(a, fp, key).year == MergedWork(b, fp, key).year)
  {
    var a, b := Flatten(r, scores, generate), Flatten(r', scores, generate);
    FlattenIgnoresOrder(r, r', scores, generate);
    SelectIgnoresOrder(a, b, fp);
    FirstSeenFacts(a);
    FirstSeenFacts(b);
    SelectedAreNonNegative(a, fp);
    hide Flatten, Select, FirstSeen, Fold, Years, AllEditions, CleanEditions;
    var x, y := Select(a, fp), Select(b, fp);
    assert |x| == |multiset(x)| == |multiset(y)| == |y|;
    if x != [] {
      YearIgnoresOrder(x, y, key);
      FoldCollects(x, key);
      FoldCollects(y, key);
      EditionsIgnoreOrder(x, y);
      CleaningIgnoresOrder(AllEditions(x), AllEditions(y));
    }
  }

  /** With distinct provider scores also the series, and the title if the first highest-scored work has one. */
  lemma DistinctScoresFixSeriesAndTitle(r: seq<ProviderResult>, r': seq<ProviderResult>, scores: map<string, real>,
                                        generate: Fingerprinter, key: SubjectKey, fp: string)
    requires multiset(r) == multiset(r') && DistinctScores(r, scores)
    requires Select(Flatten(r, scores, generate), fp) != [] && Select(Flatten(r', scores, generate), fp) != []
    ensures var a, b := Flatten(r, scores, generate), Flatten(r', scores, generate);
            var w := Winner(Select(a, fp), Any());
            && SeriesOf(MergedWork(a, fp, key)) == SeriesOf(MergedWork(b, fp, key))
            && (w.Some? && !Blank(w.value.work.title) ==> MergedWork(a, fp, key).title == MergedWork(b, fp, key).title)
  {
    var a, b := Flatten(r, scores, generate), Flatten(r', scores, generate);
    hide Flatten, Select, Fold, Winner, Blank;
    FoldPicksSeries(Select(a, fp), key);
    FoldPicksSeries(Select(b, fp), key);
    WinnerIgnoresOrder(r, r', fp, Names(), scores, generate);
    WinnerIgnoresOrder(r, r', fp, Any(), scores, generate);
    var w := Winner(Select(a, fp), Any());
    if w.Some? && !Blank(w.value.work.title) {
      TitleOfWinner(Select(a, fp), key);
      TitleOfWinner(Select(b, fp), key);
    }
  }
}
