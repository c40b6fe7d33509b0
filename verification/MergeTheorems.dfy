/**
  Closed forms of the merge fold, and from them: what the merge of a fixed set of provider answers
  does not owe to their order of arrival.
*/
module MergeTheorems {
  import opened Wrappers
  import opened Text
  import opened MergeSpec
  import opened Merger

  // ---- cleaning twice is cleaning once

  ghost predicate CleanList(ids: seq<Identifier>) {
    && (forall i :: 0 <= i < |ids| ==> Usable(ids[i]) && Clean(ids[i]) == ids[i])
    && (forall i, k :: 0 <= i < k < |ids| ==> IDKey(ids[i]) != IDKey(ids[k]))
  }

  lemma CleanTwice(id: Identifier)
    ensures Clean(Clean(id)) == Clean(id) && (Usable(id) ==> Usable(Clean(id)))
  {
    TrimIsIdempotent(id.kind);
    TrimIsIdempotent(id.value);
    UpperOfTrimmed(Trim(id.kind));
    TrimmedIsFixed(ToUpper(Trim(id.kind)));
    ToUpperIsIdempotent(Trim(id.kind));
  }

  lemma {:induction false} CleaningCleans(ids: seq<Identifier>)
    ensures CleanList(CleanIdentifiers(ids))
  {
    if ids != [] {
      CleaningCleans(ids[..|ids| - 1]);
      CleanTwice(ids[|ids| - 1]);
    }
  }

  lemma {:induction false} CleanIsFixed(ids: seq<Identifier>)
    requires CleanList(ids)
    ensures CleanIdentifiers(ids) == ids
  {
    hide Clean, Usable, IDKey;
    if ids != [] {
      CleanIsFixed(ids[..|ids| - 1]);
      assert ids[..|ids| - 1] + [ids[|ids| - 1]] == ids;
    }
  }

  lemma CleanEditionTwice(e: Edition)
    ensures CleanEdition(CleanEdition(e)) == CleanEdition(e)
  {
    CleaningCleans(e.identifiers);
    CleanIsFixed(CleanIdentifiers(e.identifiers));
  }

  // ---- one step of the fold, field by field

  lemma FoldOne(items: seq<Item>, key: SubjectKey)
    requires |items| == 1
    ensures Fold(items, key) == First(items[0], key)
  {
  }

  lemma FoldMore(items: seq<Item>, key: SubjectKey)
    requires |items| > 1
    ensures Fold(items, key) == Absorb(Fold(items[..|items| - 1], key), items[|items| - 1], key)
  {
    hide Absorb, First;
  }

  lemma StepOfText(e: Entry, i: Item, key: SubjectKey)
    ensures var e', f := Absorb(e, i, key), First(i, key);
            && e'.score == (if i.score > e.score then i.score else e.score) && f.score == i.score
            && e'.work.title == (if i.score > e.score && HasTitle()(i) then i.work.title else e.work.title)
            && e'.work.authors == (if i.score > e.score && HasAuthors()(i) then i.work.authors else e.work.authors)
            && f.work.title == i.work.title && f.work.authors == i.work.authors
  {
    hide BestYear, MergedSubjects, CleanEditions, Blank;
  }

  lemma StepOfSeries(e: Entry, i: Item, key: SubjectKey)
    ensures var e', f := Absorb(e, i, key), First(i, key);
            && f.work.series == i.work.series && f.seriesScore == i.score
            && (if NamesSeries(i.work) && (!NamesSeries(e.work) || i.score > e.seriesScore)
                then e'.work.series == i.work.series && e'.seriesScore == i.score
                else e'.work.series == e.work.series && e'.seriesScore == e.seriesScore)
  {
    hide BestYear, MergedSubjects, CleanEditions, Blank;
  }

  lemma StepOfLists(e: Entry, i: Item, key: SubjectKey)
    ensures var e', f := Absorb(e, i, key), First(i, key);
            && e'.work.subjects == MergedSubjects(e.work.subjects, i.work.subjects, key)
            && e'.work.editions == CleanEditions(e.work.editions + i.work.editions)
            && f.work.subjects == MergedSubjects([], i.work.subjects, key)
            && f.work.editions == CleanEditions(i.work.editions)
  {
    hide BestYear, MergedSubjects, CleanEditions, Blank;
  }

  // ---- subjects: merging step by step is one merge of the concatenation

  lemma {:induction false} SubjectListIsFixed(out: seq<string>, key: SubjectKey)
    requires SubjectList(out, key)
    ensures AddSubjects([], out, key) == out
  {
    hide Trim;
    if out != [] {
      SubjectListIsFixed(out[..|out| - 1], key);
      assert out[..|out| - 1] + [out[|out| - 1]] == out;
    }
  }

  lemma {:induction false} AddSubjectsConcat(out: seq<string>, a: seq<string>, b: seq<string>, key: SubjectKey)
    ensures AddSubjects(out, a + b, key) == AddSubjects(AddSubjects(out, a, key), b, key)
  {
    if b == [] {
      assert a + b == a;
    } else {
      AddSubjectsConcat(out, a, b[..|b| - 1], key);
      assert (a + b)[..|a + b| - 1] == a + b[..|b| - 1];
    }
  }

  function AllSubjects(items: seq<Item>): seq<string> {
    if items == [] then [] else AllSubjects(items[..|items| - 1]) + items[|items| - 1].work.subjects
  }

  function AllEditions(items: seq<Item>): seq<Edition> {
    if items == [] then [] else AllEditions(items[..|items| - 1]) + items[|items| - 1].work.editions
  }

  /** Subjects: one capped merge of the concatenation. Editions: all of them, each cleaned once. */
  lemma {:induction false} FoldCollects(items: seq<Item>, key: SubjectKey)
    requires items != []
    ensures Fold(items, key).work.subjects == AddSubjects([], AllSubjects(items), key)
    ensures SubjectList(Fold(items, key).work.subjects, key)
    ensures Fold(items, key).work.editions == CleanEditions(AllEditions(items))
  {
    hide Absorb, First, Fold, AddSubjects, SubjectList, CleanEdition;
    var n := |items| - 1;
    var last := items[n];
    EmptySubjectList(key);
    if n == 0 {
      assert items[..0] == [];
      assert [] + last.work.subjects == last.work.subjects && [] + last.work.editions == last.work.editions;
      assert AllSubjects(items) == last.work.subjects;
      assert AllEditions(items[..n]) == [] && AllEditions(items) == AllEditions(items[..n]) + last.work.editions;
      FoldOne(items, key);
      StepOfLists(First(last, key), last, key);
      AddingKeepsSubjectList([], last.work.subjects, key);
    } else {
      FoldCollects(items[..n], key);
      FoldMore(items, key);
      var before := Fold(items[..n], key);
      StepOfLists(before, last, key);
      SubjectListIsFixed(before.work.subjects, key);
      AddSubjectsConcat([], AllSubjects(items[..n]), last.work.subjects, key);
      AddingKeepsSubjectList(before.work.subjects, last.work.subjects, key);
      CleanMore(AllEditions(items[..n]), last.work.editions);
    }
  }

  lemma CleanMore(a: seq<Edition>, b: seq<Edition>)
    ensures CleanEditions(CleanEditions(a) + b) == CleanEditions(a + b)
  {
    hide CleanEdition;
    forall i | 0 <= i < |a|
      ensures CleanEdition(CleanEdition(a[i])) == CleanEdition(a[i])
    {
      CleanEditionTwice(a[i]);
    }
  }

  // ---- series and title: the first highest score

  /** The first item of highest score among those that satisfy `p`. */
  ghost function Winner(items: seq<Item>, p: Item -> bool): Option<Item> {
    if items == [] then None
    else
      var rest := Winner(items[..|items| - 1], p);
      var last := items[|items| - 1];
      if p(last) && (rest.None? || last.score > rest.value.score) then Some(last) else rest
  }

  ghost predicate WinsAt(items: seq<Item>, p: Item -> bool, k: int) {
    && 0 <= k < |items| && p(items[k])
    && (forall m :: 0 <= m < k && p(items[m]) ==> items[m].score < items[k].score)
    && (forall m :: k <= m < |items| && p(items[m]) ==> items[m].score <= items[k].score)
  }

  lemma WinsLater(items: seq<Item>, p: Item -> bool, k: int)
    requires items != [] && WinsAt(items[..|items| - 1], p, k)
    ensures var n := |items| - 1;
            if p(items[n]) && items[n].score > items[k].score then WinsAt(items, p, n) else WinsAt(items, p, k)
  {
    assert forall m :: 0 <= m < |items| - 1 ==> items[..|items| - 1][m] == items[m];
  }

  lemma {:induction false} WinnerWins(items: seq<Item>, p: Item -> bool)
    ensures Winner(items, p).None? <==> forall i :: i in items ==> !p(i)
    ensures Winner(items, p).Some? ==>
              exists k :: 0 <= k < |items| && WinsAt(items, p, k) && items[k] == Winner(items, p).value
  {
    hide WinsAt;
    if items != [] {
      var n := |items| - 1;
      WinnerWins(items[..n], p);
      assert forall i :: i in items <==> i in items[..n] || i == items[n];
      if Winner(items[..n], p).Some? {
        var k :| 0 <= k < n && WinsAt(items[..n], p, k) && items[..n][k] == Winner(items[..n], p).value;
        assert items[k] == items[..n][k];
        WinsLater(items, p, k);
      } else if p(items[n]) {
        OnlyWinner(items, p);
      }
    }
  }

  lemma OnlyWinner(items: seq<Item>, p: Item -> bool)
    requires items != [] && p(items[|items| - 1]) && forall i :: i in items[..|items| - 1] ==> !p(i)
    ensures WinsAt(items, p, |items| - 1)
  {
    assert forall m :: 0 <= m < |items| - 1 ==> items[m] in items[..|items| - 1];
  }

  function Names(): Item -> bool {
    (i: Item) => NamesSeries(i.work)
  }

  /** The series is that of the first highest-scored work naming one; without any, the first work's blank one stays. */
  lemma {:induction false} FoldPicksSeries(items: seq<Item>, key: SubjectKey)
    requires items != []
    ensures var w, e := Winner(items, Names()), Fold(items, key);
            && (w.Some? <==> NamesSeries(e.work))
            && (w.Some? ==> e.work.series == w.value.work.series && e.seriesScore == w.value.score)
            && (w.None? ==> e.work.series == items[0].work.series)
  {
    hide Absorb, First, Fold, Blank;
    var last := items[|items| - 1];
    if |items| > 1 {
      FoldPicksSeries(items[..|items| - 1], key);
      FoldMore(items, key);
      StepOfSeries(Fold(items[..|items| - 1], key), last, key);
    } else {
      assert items[..0] == [];
      FoldOne(items, key);
      StepOfSeries(First(last, key), last, key);
    }
  }

  /** `i` is the last strict record of the score that supplies a field, or the first item. */
  ghost predicate IsLastRecord(items: seq<Item>, supplies: Item -> bool, i: nat) {
    && i < |items| && (i == 0 || (StrictRecord(items, i) && supplies(items[i])))
    && forall k :: i < k < |items| && StrictRecord(items, k) ==> !supplies(items[k])
  }

  ghost predicate StrictRecord(items: seq<Item>, i: nat) {
    i < |items| && forall k :: 0 <= k < i ==> items[k].score < items[i].score
  }

  function HasTitle(): Item -> bool {
    (i: Item) => !Blank(i.work.title)
  }

  function HasAuthors(): Item -> bool {
    (i: Item) => i.work.authors != []
  }

  ghost predicate TopScore(items: seq<Item>, score: real) {
    && (exists i :: 0 <= i < |items| && items[i].score == score)
    && (forall i :: 0 <= i < |items| ==> items[i].score <= score)
  }

  lemma TopScoreStep(items: seq<Item>, score: real)
    requires items != [] && TopScore(items[..|items| - 1], score)
    ensures var last := items[|items| - 1].score;
            TopScore(items, if last > score then last else score)
                && (last > score <==> StrictRecord(items, |items| - 1))
  {
    var front := items[..|items| - 1];
    assert forall i :: 0 <= i < |front| ==> front[i] == items[i];
    var i :| 0 <= i < |front| && front[i].score == score;
    assert items[i].score == score;
  }

  lemma LastRecordStep(items: seq<Item>, supplies: Item -> bool, t: nat)
    requires |items| > 1 && IsLastRecord(items[..|items| - 1], supplies, t)
    ensures var n := |items| - 1;
            IsLastRecord(items, supplies, if StrictRecord(items, n) && supplies(items[n]) then n else t)
  {
    var n := |items| - 1;
    var front := items[..n];
    forall i | 0 <= i < n
      ensures front[i] == items[i] && (StrictRecord(front, i) <==> StrictRecord(items, i))
    {
      SamePrefixRecord(items, n, i);
    }
    hide StrictRecord;
    var r := if StrictRecord(items, n) && supplies(items[n]) then n else t;
    forall k | r < k < |items| && StrictRecord(items, k)
      ensures !supplies(items[k])
    {
      assert k < n ==> StrictRecord(front, k) && front[k] == items[k];
    }
  }

  lemma SamePrefixRecord(items: seq<Item>, n: nat, i: nat)
    requires i < n <= |items|
    ensures StrictRecord(items[..n], i) <==> StrictRecord(items, i)
  {
  }

  /** Title and authors come from the last work that beat every earlier score and supplies them. */
  lemma {:induction false} FoldKeepsLastRecord(items: seq<Item>, key: SubjectKey) returns (t: nat, a: nat)
    requires items != []
    ensures IsLastRecord(items, HasTitle(), t) && Fold(items, key).work.title == items[t].work.title
    ensures IsLastRecord(items, HasAuthors(), a) && Fold(items, key).work.authors == items[a].work.authors
    ensures TopScore(items, Fold(items, key).score)
  {
    hide Absorb, First, Fold, Blank;
    var n := |items| - 1;
    if n == 0 {
      FoldOne(items, key);
      StepOfText(First(items[0], key), items[0], key);
      assert TopScore(items, items[0].score);
      t, a := 0, 0;
    } else {
      t, a := FoldKeepsLastRecord(items[..n], key);
      FoldMore(items, key);
      StepOfText(Fold(items[..n], key), items[n], key);
      TopScoreStep(items, Fold(items[..n], key).score);
      LastRecordStep(items, HasTitle(), t);
      LastRecordStep(items, HasAuthors(), a);
      var record := StrictRecord(items, n);
      t := if record && HasTitle()(items[n]) then n else t;
      a := if record && HasAuthors()(items[n]) then n else a;
    }
  }

  function Any(): Item -> bool {
    (i: Item) => true
  }

  /** When the first highest-scored work has a title, that is the merged title. */
  lemma TitleOfWinner(items: seq<Item>, key: SubjectKey)
    requires Winner(items, Any()).Some? && !Blank(Winner(items, Any()).value.work.title)
    ensures items != [] && Fold(items, key).work.title == Winner(items, Any()).value.work.title
  {
    hide Fold, Blank, WinsAt, IsLastRecord, TopScore;
    assert items != [];
    hide Winner;
    var t, a := FoldKeepsLastRecord(items, key);
    WinnerWins(items, Any());
    var k :| 0 <= k < |items| && WinsAt(items, Any(), k) && items[k] == Winner(items, Any()).value;
    RecordIsWinner(items, t, k);
  }

  lemma RecordIsWinner(items: seq<Item>, t: nat, k: int)
    requires 0 <= k < |items| && !Blank(items[k].work.title)
    requires IsLastRecord(items, HasTitle(), t) && WinsAt(items, Any(), k)
    ensures t == k
  {
    hide Blank;
    assert forall m :: 0 <= m < |items| ==> Any()(items[m]);
    assert StrictRecord(items, k) && HasTitle()(items[k]);
  }

  /** When no later record supplies a title, the first work's title stays. */
  lemma FirstTitleStands(items: seq<Item>, key: SubjectKey)
    requires items != [] && forall t :: 0 < t < |items| && StrictRecord(items, t) ==> Blank(items[t].work.title)
    ensures Fold(items, key).work.title == items[0].work.title
  {
    hide Fold, Blank, TopScore, StrictRecord;
    var t, a := FoldKeepsLastRecord(items, key);
  }

  // ---- confidence

  /** How many of year, editions and title a work has. */
  function Extras(w: Work): nat {
    (if w.year > 0 then 1 else 0) + (if |w.editions| > 0 then 1 else 0) + (if Trim(w.title) != "" then 1 else 0)
  }

  /**
    The confidence of a merged work, over its own fields: full when nothing is missing, and enough for enrichment
    exactly with authors and two of year, editions and title.
  */
  lemma ConfidenceIff(items: seq<Item>, merged: seq<Work>, key: SubjectKey, k: nat)
    requires IsMerge(items, merged, key) && k < |merged|
    ensures var w := merged[k];
            && 0.5 <= w.confidence <= 1.0
            && (w.confidence == 1.0 <==> |w.authors| > 0 && Extras(w) == 3)
            && (w.confidence >= 0.85 <==> |w.authors| > 0 && Extras(w) >= 2)
  {
    hide Fold, Select, FirstSeen, Trim;
  }

  /** Supplying any one thing that a merged work lacks raises its confidence, and authors weigh twice the rest. */
  lemma MoreIsMoreConfident(items: seq<Item>, merged: seq<Work>, key: SubjectKey, i: nat, k: nat)
    requires IsMerge(items, merged, key) && i < |merged| && k < |merged|
    ensures var v, w := merged[i], merged[k];
            var a, b := (if |v.authors| > 0 then 2 else 0) + Extras(v), (if |w.authors| > 0 then 2 else 0) + Extras(w);
            v.confidence < w.confidence <==> a < b
  {
    hide Fold, Select, FirstSeen, Trim;
  }
}
