/** `MergeWorksWeighted`: one pass over the provider batches, with an index from fingerprint to entry. */
module Merger {
  import opened Wrappers
  import opened Text
  import opened Sorting
  import opened MergeSpec

  datatype ProviderResult = ProviderResult(provider: string, works: seq<Work>)

  /** What a work without a fingerprint gets, from its title, first author and year. */
  type Fingerprinter = (string, string, int) -> string

  function ScoreFor(scores: map<string, real>, provider: string): real {
    if provider in scores then scores[provider] else 0.0
  }

  function Identified(w: Work, generate: Fingerprinter): Work {
    if w.fingerprint != "" then w
    else w.(fingerprint := generate(w.title, if w.authors != [] then w.authors[0] else "", w.year))
  }

  /** The works of one batch, each with its fingerprint and its provider's score. */
  function Scored(pr: ProviderResult, scores: map<string, real>, generate: Fingerprinter): (items: seq<Item>)
    ensures |items| == |pr.works|
  {
    seq(|pr.works|,
        i requires 0 <= i < |pr.works| => Item(ScoreFor(scores, pr.provider), Identified(pr.works[i], generate)))
  }

  /** A work keeps its fingerprint; one without gets that of its title, first author and year, and nothing else. */
  lemma ScoredMeans(pr: ProviderResult, scores: map<string, real>, generate: Fingerprinter, i: nat)
    requires i < |pr.works|
    ensures var item, w := Scored(pr, scores, generate)[i], pr.works[i];
            && item.work.(fingerprint := w.fingerprint) == w
            && (w.fingerprint != "" ==> item.work.fingerprint == w.fingerprint)
            && (w.fingerprint == "" && w.authors == [] ==> item.work.fingerprint == generate(w.title, "", w.year))
            && (w.fingerprint == "" && w.authors != [] ==>
                  item.work.fingerprint == generate(w.title, w.authors[0], w.year))
            && (pr.provider in scores ==> item.score == scores[pr.provider])
            && (pr.provider !in scores ==> item.score == 0.0)
  {
  }

  /** All items in arrival order. */
  function Flatten(results: seq<ProviderResult>, scores: map<string, real>, generate: Fingerprinter): seq<Item> {
    if results == [] then []
    else Flatten(results[..|results| - 1], scores, generate) + Scored(results[|results| - 1], scores, generate)
  }

  /** The subjects of both lists, trimmed, each key once and first come first served, up to the cap. */
  method MergeSubjects(existing: seq<string>, incoming: seq<string>, key: SubjectKey) returns (out: seq<string>)
    ensures out == MergedSubjects(existing, incoming, key)
    ensures SubjectList(out, key)
  {
    out := [];
    var seen: set<string> := {};
    for i := 0 to |existing|
      invariant out == AddSubjects([], existing[..i], key)
      invariant forall k :: k in seen <==> HasKey(out, key, k)
    {
      hide AddSubject, HasKey;
      assert existing[..i + 1][..i] == existing[..i];
      out, seen := Add(out, seen, existing[i], key);
    }
    assert existing[..|existing|] == existing;
    ghost var before := out;
    for i := 0 to |incoming|
      invariant out == AddSubjects(before, incoming[..i], key)
      invariant forall k :: k in seen <==> HasKey(out, key, k)
    {
      hide AddSubject, HasKey;
      assert incoming[..i + 1][..i] == incoming[..i];
      out, seen := Add(out, seen, incoming[i], key);
    }
    assert incoming[..|incoming|] == incoming;
    EmptySubjectList(key);
    AddingKeepsSubjectList([], existing, key);
    AddingKeepsSubjectList(before, incoming, key);
  }

  // the closure `add`: one subject, unless the list is full or its key was seen
  method Add(out: seq<string>, seen: set<string>, subject: string, key: SubjectKey)
    returns (out': seq<string>, seen': set<string>)
    requires forall k :: k in seen <==> HasKey(out, key, k)
    ensures out' == AddSubject(out, subject, key)
    ensures forall k :: k in seen' <==> HasKey(out', key, k)
  {
    hide Trim;
    out', seen' := out, seen;
    if |out| >= MAX_SUBJECTS {
      return;
    }
    var trimmed := Trim(subject);
    if trimmed == "" || key(trimmed) == "" || key(trimmed) in seen {
      return;
    }
    seen' := seen + {key(trimmed)};
    out' := out + [trimmed];
    assert out'[|out|] == trimmed && forall i :: 0 <= i < |out| ==> out'[i] == out[i];
  }

  method CleanOne(ids: seq<Identifier>) returns (merged: seq<Identifier>)
    ensures merged == CleanIdentifiers(ids)
  {
    merged := [];
    var seen: set<string> := {};
    for i := 0 to |ids|
      invariant merged == CleanIdentifiers(ids[..i])
      invariant forall k :: k in seen <==> exists m :: 0 <= m < |merged| && IDKey(merged[m]) == k
    {
      assert ids[..i + 1][..i] == ids[..i];
      var clean := Clean(ids[i]);
      if clean.kind == "" || clean.value == "" || IDKey(clean) in seen {
        continue;
      }
      seen := seen + {IDKey(clean)};
      ghost var before := merged;
      merged := merged + [clean];
      assert merged[|before|] == clean && forall m :: 0 <= m < |before| ==> merged[m] == before[m];
    }
    assert ids[..|ids|] == ids;
  }

  method MergeEditionIdentifiers(editions: seq<Edition>) returns (r: seq<Edition>)
    ensures r == CleanEditions(editions)
  {
    r := [];
    for i := 0 to |editions|
      invariant |r| == i && forall k :: 0 <= k < i ==> r[k] == CleanEdition(editions[k])
    {
      var ids := CleanOne(editions[i].identifiers);
      r := r + [editions[i].(identifiers := ids)];
    }
  }

  datatype Ballot = Ballot(year: int, count: nat, maxScore: real)

  /** Lists the candidate years in map order, sorts them and takes the first. */
  method PickBestYear(votes: map<int, nat>, maxScore: map<int, real>, current: int) returns (y: int)
    ensures y == BestYear(votes, maxScore, current)
  {
    var all: seq<Ballot> := [];
    var rest := votes.Keys;
    while rest != {}
      invariant rest <= votes.Keys
      invariant forall b :: b in all ==>
                  b.year in votes && b.year !in rest && b == Ballot(b.year, votes[b.year], ScoreAt(maxScore, b.year))
      invariant forall z :: z in votes && z !in rest ==> Ballot(z, votes[z], ScoreAt(maxScore, z)) in all
      invariant forall i, k :: 0 <= i < k < |all| ==> all[i].year != all[k].year
      invariant votes.Keys != rest ==> all != []
    {
      var year := Pick(rest);
      rest := rest - {year};
      all := all + [Ballot(year, votes[year], ScoreAt(maxScore, year))];
    }
    if all == [] {
      assert votes.Keys == {} && votes == map[];
      return current;
    }
    var sorted := Sort(all, StrongerBallot);
    StrongerIsStrict();
    SortAscends(all, StrongerBallot);
    SortPermutes(all, StrongerBallot);
    y := sorted[0].year;
    assert sorted[0] in all;
    forall z | z in votes && z != y
      ensures Beats(votes, maxScore, y, z)
    {
      var b := Ballot(z, votes[z], ScoreAt(maxScore, z));
      assert b in sorted;
      var k :| 0 <= k < |sorted| && sorted[k] == b;
    }
    BestYearIsUnique(votes, maxScore, y, BestYear(votes, maxScore, current));
  }

  predicate StrongerBallot(a: Ballot, b: Ballot) {
    if a.count == b.count then
      if a.maxScore == b.maxScore then a.year < b.year else a.maxScore > b.maxScore
    else a.count > b.count
  }

  lemma StrongerIsStrict()
    ensures StrictOrder(StrongerBallot)
  {
  }

  /** The bookkeeping kept per fingerprint. */
  datatype Meta = Meta(idx: nat, score: real, seriesScore: real, votes: map<int, nat>, maxScore: map<int, real>)

  function EntryOf(w: Work, m: Meta): Entry {
    Entry(w, m.score, m.seriesScore, m.votes, m.maxScore)
  }

  /** What the merge returns: one finished fold per fingerprint, in first-seen order. */
  ghost function MergedWork(items: seq<Item>, fp: string, key: SubjectKey): Work
    requires Select(items, fp) != []
  {
    var w := Fold(Select(items, fp), key).work;
    w.(confidence := Completeness(w))
  }

  ghost predicate IsMerge(items: seq<Item>, merged: seq<Work>, key: SubjectKey) {
    && |merged| == |FirstSeen(items)|
    && forall k :: 0 <= k < |merged| ==>
         Select(items, FirstSeen(items)[k]) != [] && merged[k] == MergedWork(items, FirstSeen(items)[k], key)
  }

  /** The loop's state after a prefix of the items. */
  ghost predicate MergedSoFar(items: seq<Item>, merged: seq<Work>, seen: map<string, Meta>, key: SubjectKey) {
    && |merged| == |FirstSeen(items)|
    && (forall fp :: fp in seen <==> fp in FirstSeen(items))
    && forall k :: 0 <= k < |merged| ==> EntryAt(items, FirstSeen(items)[k], k, merged, seen, key)
  }

  ghost predicate EntryAt(items: seq<Item>, fp: string, k: nat, merged: seq<Work>, seen: map<string, Meta>,
                          key: SubjectKey)
    requires k < |merged|
  {
    fp in seen && seen[fp].idx == k && Select(items, fp) != []
        && EntryOf(merged[k], seen[fp]) == Fold(Select(items, fp), key)
  }

  /** The branch for a fingerprint already seen. */
  method AbsorbWork(existing: Work, m: Meta, w: Work, score: real, key: SubjectKey) returns (existing': Work, m': Meta)
    ensures m'.idx == m.idx && EntryOf(existing', m') == Absorb(EntryOf(existing, m), Item(score, w), key)
  {
    hide BestYear, MergedSubjects, CleanEditions, Blank, ScoreAt, Absorb, EntryOf;
    existing', m' := existing.(editions := existing.editions + w.editions), m;
    if score > m'.score {
      if !Blank(w.title) {
        existing' := existing'.(title := w.title);
      }
      if w.year > 0 {
        existing' := existing'.(year := w.year);
      }
      if w.authors != [] {
        existing' := existing'.(authors := w.authors);
      }
      m' := m'.(score := score);
    }
    ghost var wins, named := score > m.score, NamesSeries(w) && (!NamesSeries(existing') || score > m'.seriesScore);
    assert existing' == existing.(
      title := if wins && !Blank(w.title) then w.title else existing.title,
      year := if wins && w.year > 0 then w.year else existing.year,
      authors := if wins && w.authors != [] then w.authors else existing.authors,
      editions := existing.editions + w.editions);
    if NamesSeries(w) && (!NamesSeries(existing') || score > m'.seriesScore) {
      existing' := existing'.(series := w.series);
      m' := m'.(seriesScore := score);
    }
    var subjects := MergeSubjects(existing'.subjects, w.subjects, key);
    var editions := MergeEditionIdentifiers(existing'.editions);
    existing' := existing'.(subjects := subjects, editions := editions);
    if w.year > 0 {
      m' := m'.(votes := m'.votes[w.year := (if w.year in m'.votes then m'.votes[w.year] else 0) + 1]);
      if score > ScoreAt(m'.maxScore, w.year) {
        m' := m'.(maxScore := m'.maxScore[w.year := score]);
      }
      var best := PickBestYear(m'.votes, m'.maxScore, existing'.year);
      existing' := existing'.(year := best);
    }
    IsAbsorbed(existing, m, w, score, key, wins, named, existing', m');
  }

  // the fields the branch leaves behind are those of the fold's step
  lemma IsAbsorbed(was: Work, m: Meta, w: Work, score: real, key: SubjectKey, wins: bool, named: bool, now: Work,
                   m': Meta)
    requires wins == (score > m.score)
    requires named == (NamesSeries(w) && (!NamesSeries(was) || score > m.seriesScore))
    requires m'.score == (if wins then score else m.score) && m'.seriesScore == (if named then score else m.seriesScore)
    requires m'.votes == if w.year > 0 then m.votes[w.year := (if w.year in m.votes then m.votes[w.year] else 0) + 1]
             else m.votes
    requires m'.maxScore == if w.year > 0 && score > ScoreAt(m.maxScore, w.year) then m.maxScore[w.year := score]
             else m.maxScore
    requires now == was.(
      title := if wins && !Blank(w.title) then w.title else was.title,
      year := if w.year > 0 then BestYear(m'.votes, m'.maxScore, if wins then w.year else was.year) else was.year,
      authors := if wins && w.authors != [] then w.authors else was.authors,
      series := if named then w.series else was.series,
      subjects := MergedSubjects(was.subjects, w.subjects, key),
      editions := CleanEditions(was.editions + w.editions))
    ensures EntryOf(now, m') == Absorb(EntryOf(was, m), Item(score, w), key)
  {
    hide BestYear, MergedSubjects, CleanEditions, Blank, ScoreAt;
  }

  lemma NewItem(items: seq<Item>, i: Item, merged: seq<Work>, seen: map<string, Meta>, w: Work, m: Meta,
                key: SubjectKey)
    requires MergedSoFar(items, merged, seen, key)
    requires i.work.fingerprint !in seen && m.idx == |merged| && EntryOf(w, m) == First(i, key)
    ensures MergedSoFar(items + [i], merged + [w], seen[i.work.fingerprint := m], key)
  {
    hide First, Select, FirstSeen, Fold, EntryOf, EntryAt;
    var fp, merged', seen' := i.work.fingerprint, merged + [w], seen[i.work.fingerprint := m];
    var fps := FirstSeen(items);
    assert fp !in fps;
    SelectStep(items, i, fp);
    NewEntry(items, i, merged, seen, w, m, key);
    forall k | 0 <= k < |fps + [fp]|
      ensures EntryAt(items + [i], (fps + [fp])[k], k, merged', seen', key)
    {
      if k < |merged| {
        OldEntryStays(items, i, fps[k], k, merged, seen, w, m, key);
      }
    }
    hide MergedSoFar;
    AssembleMerge(items + [i], fps + [fp], merged', seen', key);
  }

  lemma AssembleMerge(items: seq<Item>, fps: seq<string>, merged: seq<Work>, seen: map<string, Meta>, key: SubjectKey)
    requires fps == FirstSeen(items) && |merged| == |fps| && forall fp :: fp in seen <==> fp in fps
    requires forall k :: 0 <= k < |fps| ==> EntryAt(items, fps[k], k, merged, seen, key)
    ensures MergedSoFar(items, merged, seen, key)
  {
    hide FirstSeen, EntryAt;
  }

  lemma NewEntry(items: seq<Item>, i: Item, merged: seq<Work>, seen: map<string, Meta>, w: Work, m: Meta,
                 key: SubjectKey)
    requires i.work.fingerprint !in FirstSeen(items) && m.idx == |merged| && EntryOf(w, m) == First(i, key)
    ensures EntryAt(items + [i], i.work.fingerprint, |merged|, merged + [w], seen[i.work.fingerprint := m], key)
  {
    hide First, Select, FirstSeen, Fold, EntryOf;
    FirstSeenFacts(items);
    SelectStep(items, i, i.work.fingerprint);
    OneItem(i, key);
    assert Select(items, i.work.fingerprint) == [] && Select(items, i.work.fingerprint) + [i] == [i];
  }

  lemma OldEntryStays(items: seq<Item>, i: Item, fp: string, k: nat, merged: seq<Work>, seen: map<string, Meta>,
                      w: Work, m: Meta, key: SubjectKey)
    requires k < |merged| && EntryAt(items, fp, k, merged, seen, key) && i.work.fingerprint !in seen
    ensures EntryAt(items + [i], fp, k, merged + [w], seen[i.work.fingerprint := m], key)
  {
    hide Select, Fold, EntryOf;
    SelectStep(items, i, fp);
  }

  lemma OneItem(i: Item, key: SubjectKey)
    ensures Fold([i], key) == First(i, key)
  {
  }

  lemma KnownItem(items: seq<Item>, i: Item, merged: seq<Work>, seen: map<string, Meta>, w: Work, m: Meta,
                  key: SubjectKey)
    requires MergedSoFar(items, merged, seen, key)
    requires i.work.fingerprint in seen && seen[i.work.fingerprint].idx < |merged|
    requires m.idx == seen[i.work.fingerprint].idx
    requires EntryOf(w, m) == Absorb(EntryOf(merged[m.idx], seen[i.work.fingerprint]), i, key)
    ensures MergedSoFar(items + [i], merged[m.idx := w], seen[i.work.fingerprint := m], key)
  {
    hide Absorb, First, Fold, Select, FirstSeen, EntryOf;
    var fp, merged', seen' := i.work.fingerprint, merged[m.idx := w], seen[i.work.fingerprint := m];
    FirstSeenFacts(items);
    SelectStep(items, i, fp);
    forall k | 0 <= k < |merged|
      ensures EntryAt(items + [i], FirstSeen(items)[k], k, merged', seen', key)
    {
      assert EntryAt(items, FirstSeen(items)[k], k, merged, seen, key);
      SelectStep(items, i, FirstSeen(items)[k]);
      if FirstSeen(items)[k] == fp {
        FoldStep(Select(items, fp), i, key);
      }
    }
  }

  lemma SeenIndex(items: seq<Item>, merged: seq<Work>, seen: map<string, Meta>, key: SubjectKey, fp: string)
    requires MergedSoFar(items, merged, seen, key) && fp in seen
    ensures seen[fp].idx < |merged|
  {
    var k :| 0 <= k < |FirstSeen(items)| && FirstSeen(items)[k] == fp;
    assert EntryAt(items, fp, k, merged, seen, key);
  }

  method MergeWorksWeighted(results: seq<ProviderResult>, scores: map<string, real>, generate: Fingerprinter,
                            key: SubjectKey)
    returns (merged: seq<Work>)
    ensures IsMerge(Flatten(results, scores, generate), merged, key)
  {
    hide MergedSoFar, Absorb, First, Fold, MergedSubjects;
    merged := [];
    var seen: map<string, Meta> := map[];
    ghost var items: seq<Item> := [];
    NothingMerged(key);
    for p := 0 to |results|
      invariant items == Flatten(results[..p], scores, generate)
      invariant MergedSoFar(items, merged, seen, key)
    {
      var pr := results[p];
      var provScore := ScoreFor(scores, pr.provider);
      ghost var batch := Scored(pr, scores, generate);
      ghost var before := items;
      for k := 0 to |pr.works|
        invariant items == before + batch[..k]
        invariant MergedSoFar(items, merged, seen, key)
      {
        var w := Identified(pr.works[k], generate);
        assert batch[k] == Item(provScore, w);
        if w.fingerprint in seen {
          SeenIndex(items, merged, seen, key, w.fingerprint);
          var m := seen[w.fingerprint];
          var existing, m' := AbsorbWork(merged[m.idx], m, w, provScore, key);
          KnownItem(items, batch[k], merged, seen, existing, m', key);
          merged := merged[m.idx := existing];
          seen := seen[w.fingerprint := m'];
        } else {
          var subjects := MergeSubjects([], w.subjects, key);
          var editions := MergeEditionIdentifiers(w.editions);
          var m := Meta(|merged|, provScore, provScore, if w.year > 0 then map[w.year := 1] else map[],
                        if w.year > 0 then map[w.year := provScore] else map[]);
          FirstIs(batch[k], m, key);
          NewItem(items, batch[k], merged, seen, w.(subjects := subjects, editions := editions), m, key);
          seen := seen[w.fingerprint := m];
          merged := merged + [w.(subjects := subjects, editions := editions)];
        }
        assert items + [batch[k]] == before + batch[..k + 1];
        items := items + [batch[k]];
      }
      assert results[..p + 1][..p] == results[..p];
      assert batch[..|batch|] == batch;
    }
    assert results[..|results|] == results;
    ghost var folded := merged;
    for i := 0 to |merged|
      invariant |merged| == |folded|
      invariant forall k :: 0 <= k < |merged| ==> merged[k] == if k < i then Finished(folded[k]) else folded[k]
    {
      merged := merged[i := merged[i].(confidence := Completeness(merged[i]))];
    }
    FinishedMerge(items, folded, merged, seen, key);
  }

  function Finished(w: Work): Work {
    w.(confidence := Completeness(w))
  }

  lemma NothingMerged(key: SubjectKey)
    ensures MergedSoFar([], [], map[], key)
  {
  }

  lemma FirstIs(i: Item, m: Meta, key: SubjectKey)
    requires m.score == i.score && m.seriesScore == i.score
    requires m.votes == (if i.work.year > 0 then map[i.work.year := 1] else map[])
    requires m.maxScore == (if i.work.year > 0 then map[i.work.year := i.score] else map[])
    ensures EntryOf(i.work.(subjects := MergedSubjects([], i.work.subjects, key),
                            editions := CleanEditions(i.work.editions)), m) == First(i, key)
  {
  }

  lemma FinishedMerge(items: seq<Item>, folded: seq<Work>, merged: seq<Work>, seen: map<string, Meta>, key: SubjectKey)
    requires MergedSoFar(items, folded, seen, key) && |merged| == |folded|
    requires forall k :: 0 <= k < |merged| ==> merged[k] == Finished(folded[k])
    ensures IsMerge(items, merged, key)
  {
    hide Fold;
    forall k | 0 <= k < |merged|
      ensures Select(items, FirstSeen(items)[k]) != [] && merged[k] == MergedWork(items, FirstSeen(items)[k], key)
    {
      var fp := FirstSeen(items)[k];
      assert EntryAt(items, fp, k, folded, seen, key);
    }
  }
}
