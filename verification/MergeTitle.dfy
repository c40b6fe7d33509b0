/** Exactly when the merged title of a work does not depend on the order in which the providers answer. */
module MergeTitle {
  import opened Wrappers
  import opened Text
  import opened Sorting
  import opened MergeSpec
  import opened Merger
  import opened MergeTheorems
  import opened MergeOrder

  /** The works of one fingerprint, in arrival order. */
  function ItemsOf(r: seq<ProviderResult>, fp: string, scores: map<string, real>, generate: Fingerprinter): seq<Item> {
    Select(Flatten(r, scores, generate), fp)
  }

  /** Those of one batch. */
  function Batch(b: ProviderResult, fp: string, scores: map<string, real>, generate: Fingerprinter): seq<Item> {
    Select(Scored(b, scores, generate), fp)
  }

  ghost function TitleIn(r: seq<ProviderResult>, fp: string, scores: map<string, real>, generate: Fingerprinter,
                         key: SubjectKey): string {
    if ItemsOf(r, fp, scores, generate) == [] then ""
    else MergedWork(Flatten(r, scores, generate), fp, key).title
  }

  ghost predicate TitleIgnoresOrder(r: seq<ProviderResult>, fp: string, scores: map<string, real>,
                                    generate: Fingerprinter, key: SubjectKey) {
    forall r' :: multiset(r') == multiset(r) ==>
        TitleIn(r', fp, scores, generate, key) == TitleIn(r, fp, scores, generate, key)
  }

  // ---- the items of a batch

  /** A batch's first work of a fingerprint wins within it: all have the provider's score. */
  lemma BatchFirst(b: ProviderResult, fp: string, scores: map<string, real>, generate: Fingerprinter)
    ensures var s, w := Batch(b, fp, scores, generate), BatchWinner(b, fp, Any(), scores, generate);
            && (forall i :: 0 <= i < |s| ==> s[i].score == ScoreFor(scores, b.provider))
            && (w.Some? <==> s != []) && (w.Some? ==> w.value == s[0])
  {
    var items, s := Scored(b, scores, generate), Batch(b, fp, scores, generate);
    SelectedItems(items, fp);
    forall i | 0 <= i < |s|
      ensures s[i].score == ScoreFor(scores, b.provider)
    {
      assert s[i] in items;
    }
    hide Winner, Select;
    WinnerWins(s, Any());
    if s != [] {
      assert s[0] in s && Any()(s[0]);
      var k :| 0 <= k < |s| && WinsAt(s, Any(), k) && s[k] == Winner(s, Any()).value;
    }
  }

  lemma ItemsConcat(a: seq<ProviderResult>, b: seq<ProviderResult>, fp: string, scores: map<string, real>,
                    generate: Fingerprinter)
    ensures ItemsOf(a + b, fp, scores, generate) == ItemsOf(a, fp, scores, generate) + ItemsOf(b, fp, scores, generate)
  {
    FlattenConcat(a, b, scores, generate);
    SelectConcat(Flatten(a, scores, generate), Flatten(b, scores, generate), fp);
  }

  lemma ItemsOfOne(b: ProviderResult, fp: string, scores: map<string, real>, generate: Fingerprinter)
    ensures ItemsOf([b], fp, scores, generate) == Batch(b, fp, scores, generate)
  {
    hide Scored, Select;
    assert [b][..0] == [] && Flatten([], scores, generate) == [];
    assert [] + Scored(b, scores, generate) == Scored(b, scores, generate);
  }

  lemma ItemsPermute(r: seq<ProviderResult>, r': seq<ProviderResult>, fp: string, scores: map<string, real>,
                     generate: Fingerprinter)
    requires multiset(r) == multiset(r')
    ensures multiset(ItemsOf(r, fp, scores, generate)) == multiset(ItemsOf(r', fp, scores, generate))
    ensures forall i :: i in ItemsOf(r, fp, scores, generate) <==> i in ItemsOf(r', fp, scores, generate)
    ensures ItemsOf(r, fp, scores, generate) == [] <==> ItemsOf(r', fp, scores, generate) == []
  {
    FlattenIgnoresOrder(r, r', scores, generate);
    SelectIgnoresOrder(Flatten(r, scores, generate), Flatten(r', scores, generate), fp);
    hide Flatten, Select;
    SameMembers(ItemsOf(r, fp, scores, generate), ItemsOf(r', fp, scores, generate));
    assert |multiset(ItemsOf(r, fp, scores, generate))| == |ItemsOf(r, fp, scores, generate)|;
    assert |multiset(ItemsOf(r', fp, scores, generate))| == |ItemsOf(r', fp, scores, generate)|;
  }

  /** Whatever the order, the first work and every later record are the first works of their batches. */
  lemma {:induction false} RecordIsBatchFirst(r: seq<ProviderResult>, fp: string, scores: map<string, real>,
                                              generate: Fingerprinter, t: nat)
    requires t < |ItemsOf(r, fp, scores, generate)| && (t == 0 || StrictRecord(ItemsOf(r, fp, scores, generate), t))
    ensures exists b ::
              b in r && BatchWinner(b, fp, Any(), scores, generate) == Some(ItemsOf(r, fp, scores, generate)[t])
  {
    hide Flatten, Select, Scored, Winner, BatchWinner;
    if r == [] {
      NoItems(fp, scores, generate);
    } else {
      var front, last := r[..|r| - 1], r[|r| - 1];
      assert r == front + [last];
      ItemsConcat(front, [last], fp, scores, generate);
      ItemsOfOne(last, fp, scores, generate);
      BatchFirst(last, fp, scores, generate);
      var a, s, items := ItemsOf(front, fp, scores, generate), Batch(last, fp, scores, generate),
          ItemsOf(r, fp, scores, generate);
      if t < |a| {
        assert a == items[..|a|];
        SamePrefixRecord(items, |a|, t);
        RecordIsBatchFirst(front, fp, scores, generate, t);
        var b :| b in front && BatchWinner(b, fp, Any(), scores, generate) == Some(a[t]);
        assert b in r;
      } else {
        assert items[t] == s[t - |a|] && items[|a|] == s[0];
        assert t == |a|;
        assert last in r;
      }
    }
  }

  lemma NoItems(fp: string, scores: map<string, real>, generate: Fingerprinter)
    ensures ItemsOf([], fp, scores, generate) == []
  {
  }

  // ---- two telling orders

  /** With the winning batch first, its first work's title stands when it is blank. */
  lemma WinnerFirst(w: ProviderResult, rest: seq<ProviderResult>, fp: string, scores: map<string, real>,
                    generate: Fingerprinter, key: SubjectKey)
    requires Batch(w, fp, scores, generate) != []
    requires forall i :: i in ItemsOf([w] + rest, fp, scores, generate) ==> i.score <= ScoreFor(scores, w.provider)
    ensures TitleIn([w] + rest, fp, scores, generate, key) == Batch(w, fp, scores, generate)[0].work.title
  {
    hide Flatten, Select, Scored, Fold, Winner, BatchWinner;
    ItemsConcat([w], rest, fp, scores, generate);
    ItemsOfOne(w, fp, scores, generate);
    BatchFirst(w, fp, scores, generate);
    var items := ItemsOf([w] + rest, fp, scores, generate);
    forall t | 0 < t < |items|
      ensures !StrictRecord(items, t)
    {
      assert items[t] in items && items[0].score == ScoreFor(scores, w.provider);
    }
    FirstTitleStands(items, key);
  }

  /** With another batch before it, that batch's first work supplies the title. */
  lemma OtherFirst(b: ProviderResult, w: ProviderResult, rest: seq<ProviderResult>, fp: string,
                   scores: map<string, real>,
                   generate: Fingerprinter, key: SubjectKey)
    requires Batch(b, fp, scores, generate) != [] && Batch(w, fp, scores, generate) != []
    requires Blank(Batch(w, fp, scores, generate)[0].work.title)
    requires forall i :: i in ItemsOf([b, w] + rest, fp, scores, generate) ==> i.score <= ScoreFor(scores, w.provider)
    ensures TitleIn([b, w] + rest, fp, scores, generate, key) == Batch(b, fp, scores, generate)[0].work.title
  {
    hide Flatten, Select, Scored, Fold, Winner, BatchWinner, Blank;
    assert [b, w] == [b] + [w];
    ItemsConcat([b, w], rest, fp, scores, generate);
    ItemsConcat([b], [w], fp, scores, generate);
    ItemsOfOne(b, fp, scores, generate);
    ItemsOfOne(w, fp, scores, generate);
    BatchFirst(b, fp, scores, generate);
    BatchFirst(w, fp, scores, generate);
    var items, n := ItemsOf([b, w] + rest, fp, scores, generate), |Batch(b, fp, scores, generate)|;
    var s := Batch(w, fp, scores, generate);
    assert items[n] == s[0] && items[0] == Batch(b, fp, scores, generate)[0];
    assert items[n].score == ScoreFor(scores, w.provider) && forall m :: 0 <= m < n ==>
             items[m].score == items[0].score;
    forall t | 0 < t < |items| && StrictRecord(items, t)
      ensures Blank(items[t].work.title)
    {
      assert items[t] in items;
    }
    FirstTitleStands(items, key);
  }

  /** Batches put in front leave a permutation. */
  lemma PutFirst(r: seq<ProviderResult>, b: ProviderResult) returns (rest: seq<ProviderResult>)
    requires b in r
    ensures multiset([b] + rest) == multiset(r)
    ensures forall x :: x in r && x != b ==> x in rest
  {
    var k :| 0 <= k < |r| && r[k] == b;
    TakeOut(r, k);
    rest := r[..k] + r[k + 1..];
    assert multiset([b] + rest) == multiset{b} + multiset(rest);
    forall x | x in r && x != b
      ensures x in rest
    {
      assert x in multiset(r) && x in multiset(rest);
    }
  }

  // ---- the condition

  /** Every batch that has the work starts it with this title. */
  ghost predicate AllStartWith(r: seq<ProviderResult>, fp: string, scores: map<string, real>,
                               generate: Fingerprinter, title: string) {
    forall b :: b in r && BatchWinner(b, fp, Any(), scores, generate).Some? ==>
      BatchWinner(b, fp, Any(), scores, generate).value.work.title == title
  }

  /** A batch that has a work satisfying `p`, and that no other such batch outscores. Tied scores give several. */
  ghost predicate TopBatch(r: seq<ProviderResult>, b: ProviderResult, fp: string, p: Item -> bool,
                           scores: map<string, real>, generate: Fingerprinter) {
    && b in r && BatchWinner(b, fp, p, scores, generate).Some?
    && forall c :: c in r && BatchWinner(c, fp, p, scores, generate).Some? ==>
        ScoreFor(scores, c.provider) <= ScoreFor(scores, b.provider)
  }

  /** Every top batch starts the work with this title. */
  ghost predicate TopsStartWith(r: seq<ProviderResult>, fp: string, scores: map<string, real>,
                                generate: Fingerprinter, title: string) {
    forall b :: TopBatch(r, b, fp, Any(), scores, generate) ==>
      BatchWinner(b, fp, Any(), scores, generate).value.work.title == title
  }

  /**
    The merged title ignores the arrival order if and only if all highest-scored providers start the work with
    one title, and this is not blank or is the title every provider starts it with.
  */
  lemma TitleIgnoresOrderIff(r: seq<ProviderResult>, fp: string, scores: map<string, real>, generate: Fingerprinter,
                             key: SubjectKey)
    requires ItemsOf(r, fp, scores, generate) != []
    ensures Winner(ItemsOf(r, fp, scores, generate), Any()).Some?
    ensures var title := Winner(ItemsOf(r, fp, scores, generate), Any()).value.work.title;
            TitleIgnoresOrder(r, fp, scores, generate, key)
            <==> TopsStartWith(r, fp, scores, generate, title)
                 && (!Blank(title) || AllStartWith(r, fp, scores, generate, title))
  {
    hide *;
    var w := WinningItem(r, fp, scores, generate);
    var title := w.work.title;
    if !TopsStartWith(r, fp, scores, generate, title) {
      var x, y := TiedTitles(r, fp, scores, generate, key, w);
      ShowsOrder(r, x, y, fp, scores, generate, key);
    } else if !Blank(title) {
      forall r' | multiset(r') == multiset(r)
        ensures TitleIn(r', fp, scores, generate, key) == title
      {
        TopTitle(r, r', fp, scores, generate, key, title);
      }
      IgnoresOrderIf(r, fp, scores, generate, key, title);
    } else if AllStartWith(r, fp, scores, generate, title) {
      forall r' | multiset(r') == multiset(r)
        ensures TitleIn(r', fp, scores, generate, key) == title
      {
        SharedTitle(r, r', fp, scores, generate, key, title);
      }
      IgnoresOrderIf(r, fp, scores, generate, key, title);
    } else {
      var x, y := TwoTitles(r, fp, scores, generate, key, w);
      ShowsOrder(r, x, y, fp, scores, generate, key);
    }
  }

  /** With distinct provider scores there is one top batch, and only its title counts. */
  lemma DistinctTitleIgnoresOrderIff(r: seq<ProviderResult>, fp: string, scores: map<string, real>,
                                     generate: Fingerprinter, key: SubjectKey)
    requires DistinctScores(r, scores) && ItemsOf(r, fp, scores, generate) != []
    ensures Winner(ItemsOf(r, fp, scores, generate), Any()).Some?
    ensures var title := Winner(ItemsOf(r, fp, scores, generate), Any()).value.work.title;
            TitleIgnoresOrder(r, fp, scores, generate, key)
            <==> !Blank(title) || AllStartWith(r, fp, scores, generate, title)
  {
    TitleIgnoresOrderIff(r, fp, scores, generate, key);
    hide TitleIgnoresOrder, Flatten, Select, Winner, BatchWinner, DistinctScores, Blank, ScoreFor, AllStartWith;
    var w := Winner(ItemsOf(r, fp, scores, generate), Any()).value;
    WinnersBatch(r, fp, Any(), scores, generate, w);
    var best :| TopBatch(r, best, fp, Any(), scores, generate)
                && BatchWinner(best, fp, Any(), scores, generate) == Some(w);
    forall b | TopBatch(r, b, fp, Any(), scores, generate)
      ensures BatchWinner(b, fp, Any(), scores, generate).value.work.title == w.work.title
    {
      ScoresTellApart(r, scores, best, b);
    }
  }

  /** The winner of the whole list is the first such work of a top batch. */
  lemma WinnersBatch(r: seq<ProviderResult>, fp: string, p: Item -> bool, scores: map<string, real>,
                     generate: Fingerprinter, w: Item)
    requires Winner(ItemsOf(r, fp, scores, generate), p) == Some(w)
    ensures exists b :: TopBatch(r, b, fp, p, scores, generate) && BatchWinner(b, fp, p, scores, generate) == Some(w)
  {
    hide Flatten, Select, Winner, BatchWinner, ScoreFor;
    WinnerOfBatches(r, fp, p, scores, generate);
    var b :| b in r && BatchWinner(b, fp, p, scores, generate) == Some(w);
    BatchWinnerScore(b, fp, p, scores, generate);
    assert TopBatch(r, b, fp, p, scores, generate);
  }

  lemma SameTops(r: seq<ProviderResult>, r': seq<ProviderResult>, b: ProviderResult, fp: string, p: Item -> bool,
                 scores: map<string, real>, generate: Fingerprinter)
    requires multiset(r) == multiset(r') && TopBatch(r', b, fp, p, scores, generate)
    ensures TopBatch(r, b, fp, p, scores, generate)
  {
    hide BatchWinner, ScoreFor;
    SameMembers(r, r');
  }

  // whatever the order, the winner comes from a top batch
  lemma TopTitle(r: seq<ProviderResult>, r': seq<ProviderResult>, fp: string, scores: map<string, real>,
                 generate: Fingerprinter, key: SubjectKey, title: string)
    requires multiset(r') == multiset(r) && ItemsOf(r, fp, scores, generate) != []
    requires TopsStartWith(r, fp, scores, generate, title) && !Blank(title)
    ensures TitleIn(r', fp, scores, generate, key) == title
  {
    hide Flatten, Select, Fold, Winner, BatchWinner, Blank, TopBatch;
    ItemsPermute(r, r', fp, scores, generate);
    var w := WinningItem(r', fp, scores, generate);
    WinnersBatch(r', fp, Any(), scores, generate, w);
    var b :| TopBatch(r', b, fp, Any(), scores, generate) && BatchWinner(b, fp, Any(), scores, generate) == Some(w);
    SameTops(r, r', b, fp, Any(), scores, generate);
    TitleOfWinner(ItemsOf(r', fp, scores, generate), key);
  }

  /** Any top batch can come first, and then its title stands. */
  lemma TopFirst(r: seq<ProviderResult>, b: ProviderResult, fp: string, scores: map<string, real>,
                 generate: Fingerprinter, key: SubjectKey)
    returns (x: seq<ProviderResult>)
    requires TopBatch(r, b, fp, Any(), scores, generate)
    ensures multiset(x) == multiset(r)
    ensures TitleIn(x, fp, scores, generate, key) == BatchWinner(b, fp, Any(), scores, generate).value.work.title
  {
    hide Flatten, Select, Scored, Winner, BatchWinner, ScoreFor, TitleIn;
    var rest := PutFirst(r, b);
    x := [b] + rest;
    SameMembers(x, r);
    BatchFirst(b, fp, scores, generate);
    forall i | i in ItemsOf(x, fp, scores, generate)
      ensures i.score <= ScoreFor(scores, b.provider)
    {
      var w := WinningItem(x, fp, scores, generate);
      WinnersBatch(x, fp, Any(), scores, generate, w);
      var c :| TopBatch(x, c, fp, Any(), scores, generate) && BatchWinner(c, fp, Any(), scores, generate) == Some(w);
      BatchWinnerScore(c, fp, Any(), scores, generate);
    }
    WinnerFirst(b, rest, fp, scores, generate, key);
  }

  /** Two orders with two titles, when two top batches start differently. */
  lemma TiedTitles(r: seq<ProviderResult>, fp: string, scores: map<string, real>, generate: Fingerprinter,
                   key: SubjectKey, w: Item)
    returns (x: seq<ProviderResult>, y: seq<ProviderResult>)
    requires Winner(ItemsOf(r, fp, scores, generate), Any()) == Some(w)
    requires !TopsStartWith(r, fp, scores, generate, w.work.title)
    ensures multiset(x) == multiset(r) == multiset(y)
    ensures TitleIn(x, fp, scores, generate, key) != TitleIn(y, fp, scores, generate, key)
  {
    hide TitleIn, ItemsOf, BatchWinner, Winner, ScoreFor;
    WinnersBatch(r, fp, Any(), scores, generate, w);
    var best :| TopBatch(r, best, fp, Any(), scores, generate)
                && BatchWinner(best, fp, Any(), scores, generate) == Some(w);
    var other :| TopBatch(r, other, fp, Any(), scores, generate)
                 && BatchWinner(other, fp, Any(), scores, generate).value.work.title != w.work.title;
    x := TopFirst(r, best, fp, scores, generate, key);
    y := TopFirst(r, other, fp, scores, generate, key);
  }

  lemma WinningItem(r: seq<ProviderResult>, fp: string, scores: map<string, real>, generate: Fingerprinter)
    returns (w: Item)
    requires ItemsOf(r, fp, scores, generate) != []
    ensures Winner(ItemsOf(r, fp, scores, generate), Any()) == Some(w)
    ensures forall i :: i in ItemsOf(r, fp, scores, generate) ==> i.score <= w.score
  {
    hide ItemsOf, Winner;
    var items := ItemsOf(r, fp, scores, generate);
    WinnerWins(items, Any());
    assert items[0] in items && Any()(items[0]);
    var k :| 0 <= k < |items| && WinsAt(items, Any(), k) && items[k] == Winner(items, Any()).value;
    w := items[k];
    forall i | i in items
      ensures i.score <= w.score
    {
      var m :| 0 <= m < |items| && items[m] == i;
      assert Any()(items[m]);
    }
  }

  lemma IgnoresOrderIf(r: seq<ProviderResult>, fp: string, scores: map<string, real>, generate: Fingerprinter,
                       key: SubjectKey, title: string)
    requires forall r' :: multiset(r') == multiset(r) ==> TitleIn(r', fp, scores, generate, key) == title
    ensures TitleIgnoresOrder(r, fp, scores, generate, key)
  {
    hide TitleIn;
  }

  lemma ShowsOrder(r: seq<ProviderResult>, x: seq<ProviderResult>, y: seq<ProviderResult>, fp: string,
                   scores: map<string, real>,
                   generate: Fingerprinter, key: SubjectKey)
    requires multiset(x) == multiset(r) == multiset(y)
    requires TitleIn(x, fp, scores, generate, key) != TitleIn(y, fp, scores, generate, key)
    ensures !TitleIgnoresOrder(r, fp, scores, generate, key)
  {
    hide TitleIn;
  }

  lemma SharedTitle(r: seq<ProviderResult>, r': seq<ProviderResult>, fp: string, scores: map<string, real>,
                    generate: Fingerprinter,
                    key: SubjectKey, title: string)
    requires multiset(r') == multiset(r) && ItemsOf(r, fp, scores, generate) != []
             && AllStartWith(r, fp, scores, generate, title)
    ensures TitleIn(r', fp, scores, generate, key) == title
  {
    hide Flatten, Select, Fold, Winner, BatchWinner, StrictRecord, TopScore;
    ItemsPermute(r, r', fp, scores, generate);
    SameMembers(r, r');
    var items := ItemsOf(r', fp, scores, generate);
    var t, a := FoldKeepsLastRecord(items, key);
    RecordIsBatchFirst(r', fp, scores, generate, t);
    var b :| b in r' && BatchWinner(b, fp, Any(), scores, generate) == Some(items[t]);
    assert b in r;
  }

  /** Two orders with two titles, when the winning work has none and some other batch starts differently. */
  lemma TwoTitles(r: seq<ProviderResult>, fp: string, scores: map<string, real>, generate: Fingerprinter,
                  key: SubjectKey, w: Item)
      returns (x: seq<ProviderResult>, y: seq<ProviderResult>)
    requires Winner(ItemsOf(r, fp, scores, generate), Any()) == Some(w) && Blank(w.work.title)
    requires forall i :: i in ItemsOf(r, fp, scores, generate) ==> i.score <= w.score
    requires !AllStartWith(r, fp, scores, generate, w.work.title)
    ensures multiset(x) == multiset(r) == multiset(y)
    ensures TitleIn(x, fp, scores, generate, key) != TitleIn(y, fp, scores, generate, key)
  {
    hide Flatten, Select, Scored, Winner, BatchWinner, Blank, TitleIn, ScoreFor;
    WinnerOfBatches(r, fp, Any(), scores, generate);
    var best :| best in r && BatchWinner(best, fp, Any(), scores, generate) == Some(w);
    var other :| other in r && BatchWinner(other, fp, Any(), scores, generate).Some?
                 && BatchWinner(other, fp, Any(), scores, generate).value.work.title != w.work.title;
    BatchFirst(best, fp, scores, generate);
    BatchFirst(other, fp, scores, generate);
    var rest := PutFirst(r, best);
    var others := PutFirst(rest, other);
    x, y := [best] + rest, [other, best] + others;
    assert multiset(y) == multiset{best} + multiset([other] + others);
    assert multiset(x) == multiset{best} + multiset(rest);
    ItemsPermute(r, x, fp, scores, generate);
    ItemsPermute(r, y, fp, scores, generate);
    WinnerFirst(best, rest, fp, scores, generate, key);
    OtherFirst(other, best, others, fp, scores, generate, key);
  }

  // ---- the tied case

  function TwinWork(title: string): Work {
    Work("f", title, 0, [], None, [], [], 0.0)
  }

  /** Two unknown providers, which score alike, with one work under two titles. */
  function Twins(): seq<ProviderResult> {
    [ProviderResult("p", [TwinWork("X")]), ProviderResult("q", [TwinWork("Y")])]
  }

  /** Without scores, the default, the first provider to answer gives the title. */
  lemma TiedTitleShowsOrder(generate: Fingerprinter, key: SubjectKey)
    ensures TitleIn(Twins(), "f", map[], generate, key) == "X"
    ensures TitleIn([Twins()[1], Twins()[0]], "f", map[], generate, key) == "Y"
    ensures !TitleIgnoresOrder(Twins(), "f", map[], generate, key)
  {
    var p, q := Twins()[0], Twins()[1];
    TwinFirst(p, q, "X", "Y", generate, key);
    TwinFirst(q, p, "Y", "X", generate, key);
    assert Twins() == [p] + [q];
    assert multiset([q] + [p]) == multiset(Twins());
    assert [q, p] == [q] + [p];
    ShowsOrder(Twins(), Twins(), [q] + [p], "f", map[], generate, key);
  }

  lemma TwinFirst(a: ProviderResult, b: ProviderResult, t: string, u: string, generate: Fingerprinter, key: SubjectKey)
    requires a.works == [TwinWork(t)] && b.works == [TwinWork(u)]
    ensures TitleIn([a] + [b], "f", map[], generate, key) == t
  {
    TwinBatch(a, t, generate);
    TwinBatch(b, u, generate);
    hide Batch, ItemsOf, TitleIn;
    ItemsConcat([a], [b], "f", map[], generate);
    ItemsOfOne(a, "f", map[], generate);
    ItemsOfOne(b, "f", map[], generate);
    WinnerFirst(a, [b], "f", map[], generate, key);
  }

  lemma TwinBatch(b: ProviderResult, t: string, generate: Fingerprinter)
    requires b.works == [TwinWork(t)]
    ensures Batch(b, "f", map[], generate) == [Item(0.0, TwinWork(t))]
  {
    var s := Scored(b, map[], generate);
    assert b.works[0].fingerprint == "f" && Identified(b.works[0], generate) == TwinWork(t);
    assert s == [Item(0.0, TwinWork(t))];
    SelectStep([], s[0], "f");
    assert [] + [s[0]] == s;
  }

  // ---- the series

  ghost function SeriesIn(r: seq<ProviderResult>, fp: string, scores: map<string, real>, generate: Fingerprinter,
                          key: SubjectKey): Option<Series> {
    if ItemsOf(r, fp, scores, generate) == [] then None
    else SeriesOf(MergedWork(Flatten(r, scores, generate), fp, key))
  }

  ghost predicate SeriesIgnoresOrder(r: seq<ProviderResult>, fp: string, scores: map<string, real>,
                                     generate: Fingerprinter, key: SubjectKey) {
    forall r' :: multiset(r') == multiset(r) ==>
        SeriesIn(r', fp, scores, generate, key) == SeriesIn(r, fp, scores, generate, key)
  }

  /** All top batches among those naming a series name the same one first. */
  ghost predicate TopsName(r: seq<ProviderResult>, fp: string, scores: map<string, real>, generate: Fingerprinter,
                           series: Option<Series>) {
    forall b :: TopBatch(r, b, fp, Names(), scores, generate) ==>
      BatchWinner(b, fp, Names(), scores, generate).value.work.series == series
  }

  /** The merged series ignores the arrival order if and only if all highest-scored providers naming one agree. */
  lemma SeriesIgnoresOrderIff(r: seq<ProviderResult>, fp: string, scores: map<string, real>, generate: Fingerprinter,
                              key: SubjectKey)
    ensures SeriesIgnoresOrder(r, fp, scores, generate, key)
            <==> TopsName(r, fp, scores, generate, SeriesIn(r, fp, scores, generate, key))
  {
    hide *;
    var series := SeriesIn(r, fp, scores, generate, key);
    if TopsName(r, fp, scores, generate, series) {
      forall r' | multiset(r') == multiset(r)
        ensures SeriesIn(r', fp, scores, generate, key) == series
      {
        SeriesFromTop(r, r', fp, scores, generate, key);
      }
      SameSeriesAlways(r, fp, scores, generate, key);
    } else {
      var b := OtherTop(r, fp, scores, generate, series);
      var x := TopNamingFirst(r, b, fp, scores, generate, key);
      SeriesShowsOrder(r, x, fp, scores, generate, key);
    }
  }

  lemma SameSeriesAlways(r: seq<ProviderResult>, fp: string, scores: map<string, real>, generate: Fingerprinter,
                         key: SubjectKey)
    requires forall r' :: multiset(r') == multiset(r) ==>
               SeriesIn(r', fp, scores, generate, key) == SeriesIn(r, fp, scores, generate, key)
    ensures SeriesIgnoresOrder(r, fp, scores, generate, key)
  {
    hide SeriesIn;
  }

  lemma SeriesShowsOrder(r: seq<ProviderResult>, x: seq<ProviderResult>, fp: string, scores: map<string, real>,
                         generate: Fingerprinter, key: SubjectKey)
    requires multiset(x) == multiset(r)
    requires SeriesIn(x, fp, scores, generate, key) != SeriesIn(r, fp, scores, generate, key)
    ensures !SeriesIgnoresOrder(r, fp, scores, generate, key)
  {
    hide SeriesIn;
  }

  lemma OtherTop(r: seq<ProviderResult>, fp: string, scores: map<string, real>, generate: Fingerprinter,
                 series: Option<Series>) returns (b: ProviderResult)
    requires !TopsName(r, fp, scores, generate, series)
    ensures TopBatch(r, b, fp, Names(), scores, generate)
    ensures BatchWinner(b, fp, Names(), scores, generate).value.work.series != series
  {
    hide BatchWinner, ScoreFor;
    b :| TopBatch(r, b, fp, Names(), scores, generate)
         && BatchWinner(b, fp, Names(), scores, generate).value.work.series != series;
  }

  // the series is that of the winner among the works naming one
  lemma SeriesOfWinner(r: seq<ProviderResult>, fp: string, scores: map<string, real>, generate: Fingerprinter,
                       key: SubjectKey)
    ensures var w := Winner(ItemsOf(r, fp, scores, generate), Names());
            SeriesIn(r, fp, scores, generate, key) == if w.Some? then w.value.work.series else None
  {
    hide Flatten, Select, Fold;
    if ItemsOf(r, fp, scores, generate) != [] {
      hide Winner;
      FoldPicksSeries(ItemsOf(r, fp, scores, generate), key);
    }
  }

  lemma SeriesFromTop(r: seq<ProviderResult>, r': seq<ProviderResult>, fp: string, scores: map<string, real>,
                      generate: Fingerprinter, key: SubjectKey)
    requires multiset(r) == multiset(r')
    requires TopsName(r, fp, scores, generate, SeriesIn(r, fp, scores, generate, key))
    ensures SeriesIn(r', fp, scores, generate, key) == SeriesIn(r, fp, scores, generate, key)
  {
    hide Flatten, Select, Winner, BatchWinner, TopBatch, SeriesIn;
    SeriesOfWinner(r, fp, scores, generate, key);
    SeriesOfWinner(r', fp, scores, generate, key);
    var w := Winner(ItemsOf(r', fp, scores, generate), Names());
    if w.Some? {
      WinnersBatch(r', fp, Names(), scores, generate, w.value);
      var b :| TopBatch(r', b, fp, Names(), scores, generate)
               && BatchWinner(b, fp, Names(), scores, generate) == w;
      SameTops(r, r', b, fp, Names(), scores, generate);
    } else {
      SameMembers(r, r');
      WinnerOfBatches(r, fp, Names(), scores, generate);
      WinnerOfBatches(r', fp, Names(), scores, generate);
    }
  }

  lemma TopNamingFirst(r: seq<ProviderResult>, b: ProviderResult, fp: string, scores: map<string, real>,
                       generate: Fingerprinter, key: SubjectKey)
    returns (x: seq<ProviderResult>)
    requires TopBatch(r, b, fp, Names(), scores, generate)
    ensures multiset(x) == multiset(r)
    ensures SeriesIn(x, fp, scores, generate, key) == BatchWinner(b, fp, Names(), scores, generate).value.work.series
  {
    hide Flatten, Select, Scored, Winner, SeriesIn, ScoreFor;
    var rest := PutFirst(r, b);
    x := [b] + rest;
    SameMembers(x, r);
    SeriesOfWinner(x, fp, scores, generate, key);
    ItemsConcat([b], rest, fp, scores, generate);
    ItemsOfOne(b, fp, scores, generate);
    WinnerConcat(Batch(b, fp, scores, generate), ItemsOf(rest, fp, scores, generate), Names());
    BatchWinnerScore(b, fp, Names(), scores, generate);
    var y := Winner(ItemsOf(rest, fp, scores, generate), Names());
    if y.Some? {
      WinnersBatch(rest, fp, Names(), scores, generate, y.value);
      var c :| TopBatch(rest, c, fp, Names(), scores, generate) && BatchWinner(c, fp, Names(), scores, generate) == y;
      BatchWinnerScore(c, fp, Names(), scores, generate);
      assert c in x;
    }
  }
}
