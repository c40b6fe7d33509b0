/**
  What merging provider results means for one fingerprint: a fold over the works that carry it, in
  arrival order. Scores are reals; the subject key is an arbitrary function.
*/
module MergeSpec {
  import opened Wrappers
  import opened Text

  datatype Identifier = Identifier(kind: string, value: string)

  datatype Edition = Edition(id: string, identifiers: seq<Identifier>)

  datatype Series = Series(name: string, index: Option<real>)

  datatype Work = Work(
    fingerprint: string, title: string, year: int, authors: seq<string>, series: Option<Series>,
    subjects: seq<string>, editions: seq<Edition>, confidence: real)

  /** A work with the score of the provider it came from. */
  datatype Item = Item(score: real, work: Work)

  // ---- subjects

  const MAX_SUBJECTS: nat := 25

  type SubjectKey = string -> string

  predicate HasKey(out: seq<string>, key: SubjectKey, k: string) {
    exists i :: 0 <= i < |out| && key(out[i]) == k
  }

  function AddSubject(out: seq<string>, s: string, key: SubjectKey): seq<string> {
    var t := Trim(s);
    if |out| >= MAX_SUBJECTS || t == "" || key(t) == "" || HasKey(out, key, key(t)) then out else out + [t]
  }

  function AddSubjects(out: seq<string>, more: seq<string>, key: SubjectKey): seq<string> {
    if more == [] then out else AddSubject(AddSubjects(out, more[..|more| - 1], key), more[|more| - 1], key)
  }

  /** `mergeSubjects` */
  function MergedSubjects(existing: seq<string>, incoming: seq<string>, key: SubjectKey): seq<string> {
    AddSubjects(AddSubjects([], existing, key), incoming, key)
  }

  /** Trimmed, non-blank subjects, one for each key, no more than the cap. */
  ghost predicate SubjectList(out: seq<string>, key: SubjectKey) {
    && |out| <= MAX_SUBJECTS
    && (forall i :: 0 <= i < |out| ==> out[i] != "" && Trim(out[i]) == out[i] && key(out[i]) != "")
    && (forall i, k :: 0 <= i < k < |out| ==> key(out[i]) != key(out[k]))
  }

  lemma {:induction false} AddingKeepsSubjectList(out: seq<string>, more: seq<string>, key: SubjectKey)
    requires SubjectList(out, key)
    ensures SubjectList(AddSubjects(out, more, key), key)
  {
    if more != [] {
      AddingKeepsSubjectList(out, more[..|more| - 1], key);
      TrimIsIdempotent(more[|more| - 1]);
    }
  }

  lemma EmptySubjectList(key: SubjectKey)
    ensures SubjectList([], key) && AddSubjects([], [], key) == []
  {
  }

  // ---- editions

  function Clean(id: Identifier): Identifier {
    Identifier(ToUpper(Trim(id.kind)), Trim(id.value))
  }

  /** The dedupe key of a clean identifier. */
  function IDKey(id: Identifier): string {
    id.kind + "|" + ToUpper(id.value)
  }

  /** Among kinds without a bar, one key is one kind and one value, whatever the value's case. */
  lemma IdentifierKeyIff(a: Identifier, b: Identifier)
    requires '|' !in a.kind && '|' !in b.kind
    ensures IDKey(a) == IDKey(b) <==> a.kind == b.kind && ToUpper(a.value) == ToUpper(b.value)
  {
    hide ToUpper;
    FirstBarSplits(a.kind, ToUpper(a.value), b.kind, ToUpper(b.value));
  }

  lemma FirstBarSplits(a: string, x: string, b: string, y: string)
    requires '|' !in a && '|' !in b
    ensures a + "|" + x == b + "|" + y <==> a == b && x == y
  {
    var s, t := a + "|" + x, b + "|" + y;
    assert s[|a|] == '|' && t[|b|] == '|';
    assert |a| < |b| ==> t[|a|] == b[|a|];
    assert |b| < |a| ==> s[|b|] == a[|b|];
    assert s[..|a|] == a && s[|a| + 1..] == x && t[..|b|] == b && t[|b| + 1..] == y;
  }

  /** With a bar in it, a kind can pass for part of a value. */
  lemma IdentifierKeyConfuses()
    ensures IDKey(Identifier("A|B", "C")) == IDKey(Identifier("A", "B|C"))
  {
    assert ToUpper("C") == "C" && ToUpper("B|C") == "B|C";
  }

  predicate Usable(id: Identifier) {
    Clean(id).kind != "" && Clean(id).value != ""
  }

  function AddIdentifier(out: seq<Identifier>, id: Identifier): seq<Identifier> {
    if !Usable(id) || (exists i :: 0 <= i < |out| && IDKey(out[i]) == IDKey(Clean(id))) then out else out + [Clean(id)]
  }

  function CleanIdentifiers(ids: seq<Identifier>): seq<Identifier> {
    if ids == [] then [] else AddIdentifier(CleanIdentifiers(ids[..|ids| - 1]), ids[|ids| - 1])
  }

  function CleanEdition(e: Edition): Edition {
    e.(identifiers := CleanIdentifiers(e.identifiers))
  }

  /** `mergeEditionIdentifiers` */
  function CleanEditions(es: seq<Edition>): (r: seq<Edition>)
    ensures |r| == |es| && forall i :: 0 <= i < |es| ==> r[i] == CleanEdition(es[i])
  {
    seq(|es|, i requires 0 <= i < |es| => CleanEdition(es[i]))
  }

  // ---- publication year

  function ScoreAt(maxScore: map<int, real>, year: int): real {
    if year in maxScore then maxScore[year] else 0.0
  }

  /** More votes, then the higher score, then the earlier year. */
  predicate Beats(votes: map<int, nat>, maxScore: map<int, real>, a: int, b: int)
    requires a in votes && b in votes
  {
    if votes[a] != votes[b] then votes[a] > votes[b]
    else if ScoreAt(maxScore, a) != ScoreAt(maxScore, b) then ScoreAt(maxScore, a) > ScoreAt(maxScore, b)
    else a < b
  }

  ghost predicate IsBestYear(votes: map<int, nat>, maxScore: map<int, real>, y: int) {
    y in votes && forall z :: z in votes && z != y ==> Beats(votes, maxScore, y, z)
  }

  lemma BestYearIsUnique(votes: map<int, nat>, maxScore: map<int, real>, y: int, z: int)
    requires IsBestYear(votes, maxScore, y) && IsBestYear(votes, maxScore, z)
    ensures y == z
  {
  }

  lemma {:induction false} BestYearExists(votes: map<int, nat>, maxScore: map<int, real>, years: set<int>)
    returns (best: int)
    requires years != {} && years <= votes.Keys
    ensures best in years && forall z :: z in years && z != best ==> Beats(votes, maxScore, best, z)
  {
    var first := SomeMember(years);
    best := first;
    if years != {first} {
      var other := BestYearExists(votes, maxScore, years - {first});
      if Beats(votes, maxScore, other, first) {
        best := other;
      }
      forall z | z in years && z != best
        ensures Beats(votes, maxScore, best, z)
      {
        assert z != first ==> z in years - {first};
      }
    }
  }

  /** `pickBestYear` */
  ghost function BestYear(votes: map<int, nat>, maxScore: map<int, real>, current: int): (y: int)
    ensures votes != map[] ==> IsBestYear(votes, maxScore, y)
    ensures votes == map[] ==> y == current
  {
    if votes == map[] then current
    else
      assert exists y :: IsBestYear(votes, maxScore, y) by {
        assert votes.Keys != {};
        var best := BestYearExists(votes, maxScore, votes.Keys);
        assert IsBestYear(votes, maxScore, best);
      }
      var y :| IsBestYear(votes, maxScore, y); y
  }

  // ---- one fingerprint

  /** A merged work with the bookkeeping kept beside it. */
  datatype Entry = Entry(work: Work, score: real, seriesScore: real, votes: map<int, nat>, maxScore: map<int, real>)

  predicate NamesSeries(w: Work) {
    w.series.Some? && !Blank(w.series.value.name)
  }

  function First(i: Item, key: SubjectKey): Entry {
    var w := i.work;
    Entry(w.(subjects := MergedSubjects([], w.subjects, key), editions := CleanEditions(w.editions)),
          i.score, i.score,
          if w.year > 0 then map[w.year := 1] else map[], if w.year > 0 then map[w.year := i.score] else map[])
  }

  ghost function Absorb(e: Entry, i: Item, key: SubjectKey): Entry {
    var w := i.work;
    var wins := i.score > e.score;
    var named := if !NamesSeries(w) then false else if !NamesSeries(e.work) then true else i.score > e.seriesScore;
    var votes := if w.year > 0 then e.votes[w.year := (if w.year in e.votes then e.votes[w.year] else 0) + 1]
        else e.votes;
    var maxScore := if w.year > 0 && i.score > ScoreAt(e.maxScore, w.year) then e.maxScore[w.year := i.score]
        else e.maxScore;
    Entry(
      e.work.(
        title := if wins && !Blank(w.title) then w.title else e.work.title,
        year := if w.year > 0 then BestYear(votes, maxScore, if wins then w.year else e.work.year) else e.work.year,
        authors := if wins && w.authors != [] then w.authors else e.work.authors,
        series := if named then w.series else e.work.series,
        subjects := MergedSubjects(e.work.subjects, w.subjects, key),
        editions := CleanEditions(e.work.editions + w.editions)),
      if wins then i.score else e.score,
      if named then i.score else e.seriesScore,
      votes, maxScore)
  }

  ghost function Fold(items: seq<Item>, key: SubjectKey): Entry
    requires items != []
  {
    if |items| == 1 then First(items[0], key)
    else Absorb(Fold(items[..|items| - 1], key), items[|items| - 1], key)
  }

  /** `scoreWork` */
  function Completeness(w: Work): real {
    0.5 + (if w.authors != [] then 0.2 else 0.0) + (if w.year > 0 then 0.1 else 0.0)
    + (if w.editions != [] then 0.1 else 0.0) + (if !Blank(w.title) then 0.1 else 0.0)
  }

  // ---- all fingerprints

  /** The items with a given fingerprint, in arrival order. */
  function Select(items: seq<Item>, fp: string): seq<Item> {
    if items == [] then []
    else
      var rest := Select(items[..|items| - 1], fp);
      if items[|items| - 1].work.fingerprint == fp then rest + [items[|items| - 1]] else rest
  }

  /** The fingerprints in first-seen order. */
  function FirstSeen(items: seq<Item>): seq<string> {
    if items == [] then []
    else
      var rest := FirstSeen(items[..|items| - 1]);
      var fp := items[|items| - 1].work.fingerprint;
      if fp in rest then rest else rest + [fp]
  }

  lemma FoldStep(items: seq<Item>, i: Item, key: SubjectKey)
    requires items != []
    ensures Fold(items + [i], key) == Absorb(Fold(items, key), i, key)
  {
    hide Absorb, First;
    assert (items + [i])[..|items|] == items;
  }

  lemma SelectStep(items: seq<Item>, i: Item, fp: string)
    ensures Select(items + [i], fp) == if i.work.fingerprint == fp then Select(items, fp) + [i] else Select(items, fp)
    ensures FirstSeen(items + [i]) ==
            if i.work.fingerprint in FirstSeen(items) then FirstSeen(items) else FirstSeen(items) + [i.work.fingerprint]
  {
    assert (items + [i])[..|items|] == items;
  }

  lemma {:induction false} FirstSeenFacts(items: seq<Item>)
    ensures forall i, k :: 0 <= i < k < |FirstSeen(items)| ==> FirstSeen(items)[i] != FirstSeen(items)[k]
    ensures forall fp :: fp in FirstSeen(items) <==> Select(items, fp) != []
    ensures forall fp :: fp in FirstSeen(items) <==> exists i :: 0 <= i < |items| && items[i].work.fingerprint == fp
  {
    if items != [] {
      FirstSeenFacts(items[..|items| - 1]);
    }
  }
}
