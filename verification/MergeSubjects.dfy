/** Exactly when the subjects of a merged work do not depend on the order in which the providers answer. */
module MergeSubjectOrder {
  import opened Wrappers
  import opened Text
  import opened MergeSpec
  import opened Merger
  import opened MergeTheorems
  import opened MergeOrder
  import opened MergeTitle

  function KeySet(subjects: seq<string>, key: SubjectKey): set<string> {
    set s | s in subjects :: key(s)
  }

  /** The keys a list of subjects shows when it is merged into nothing: its first ones, up to the cap. */
  function Shown(subjects: seq<string>, key: SubjectKey): set<string> {
    KeySet(AddSubjects([], subjects, key), key)
  }

  function SubjectsOf(b: ProviderResult, fp: string, scores: map<string, real>, generate: Fingerprinter): seq<string> {
    AllSubjects(Batch(b, fp, scores, generate))
  }

  /** The keys shown by each batch alone, taken together. */
  function ShownByAny(r: seq<ProviderResult>, fp: string, scores: map<string, real>, generate: Fingerprinter,
                      key: SubjectKey): set<string> {
    if r == [] then {}
    else
      ShownByAny(r[..|r| - 1], fp, scores, generate, key)
      + Shown(SubjectsOf(r[|r| - 1], fp, scores, generate), key)
  }

  /** The keys of the merged work's subjects. */
  ghost function SubjectsIn(r: seq<ProviderResult>, fp: string, scores: map<string, real>, generate: Fingerprinter,
                            key: SubjectKey): set<string> {
    if ItemsOf(r, fp, scores, generate) == [] then {}
    else KeySet(MergedWork(Flatten(r, scores, generate), fp, key).subjects, key)
  }

  ghost predicate SubjectsIgnoreOrder(r: seq<ProviderResult>, fp: string, scores: map<string, real>,
                                      generate: Fingerprinter, key: SubjectKey) {
    forall r' :: multiset(r') == multiset(r) ==>
        SubjectsIn(r', fp, scores, generate, key) == SubjectsIn(r, fp, scores, generate, key)
  }

  // ---- one list

  lemma {:induction false} OneKeyEach(out: seq<string>, key: SubjectKey)
    requires SubjectList(out, key)
    ensures |KeySet(out, key)| == |out| <= MAX_SUBJECTS
  {
    hide Trim;
    if out != [] {
      var n := |out| - 1;
      assert SubjectList(out[..n], key);
      OneKeyEach(out[..n], key);
      hide SubjectList;
      LastKey(out, key);
    }
  }

  lemma LastKey(out: seq<string>, key: SubjectKey)
    requires out != [] && SubjectList(out, key)
    ensures var n := |out| - 1;
            KeySet(out, key) == KeySet(out[..n], key) + {key(out[n])} && key(out[n]) !in KeySet(out[..n], key)
  {
    var n := |out| - 1;
    assert forall s :: s in out <==> s in out[..n] || s == out[n];
  }

  lemma AddedKeys(out: seq<string>, s: string, key: SubjectKey)
    ensures var t := Trim(s); var k := key(t);
            KeySet(AddSubject(out, s, key), key)
            == if |out| >= MAX_SUBJECTS || t == "" || k == "" then KeySet(out, key) else KeySet(out, key) + {k}
  {
    var t := Trim(s);
    hide Trim;
    assert forall x :: x in out + [t] <==> x in out || x == t;
  }

  lemma {:induction false} AddingExtends(out: seq<string>, more: seq<string>, key: SubjectKey)
    ensures KeySet(out, key) <= KeySet(AddSubjects(out, more, key), key)
  {
    if more != [] {
      hide AddSubject, KeySet;
      AddingExtends(out, more[..|more| - 1], key);
      AddedKeys(AddSubjects(out, more[..|more| - 1], key), more[|more| - 1], key);
    }
  }

  /** While everything shown fits the cap, each list adds just what it would show alone. */
  lemma {:induction false} AddingAddsShown(out: seq<string>, more: seq<string>, all: set<string>, key: SubjectKey)
    requires SubjectList(out, key) && |all| <= MAX_SUBJECTS
    requires KeySet(out, key) <= all && Shown(more, key) <= all
    ensures KeySet(AddSubjects(out, more, key), key) == KeySet(out, key) + Shown(more, key)
  {
    hide AddSubject, KeySet, SubjectList, Trim;
    EmptySubjectList(key);
    if more != [] {
      var front, last := more[..|more| - 1], more[|more| - 1];
      var a, b := AddSubjects(out, front, key), AddSubjects([], front, key);
      AddedKeys(a, last, key);
      AddedKeys(b, last, key);
      AddingAddsShown(out, front, all, key);
      AddingKeepsSubjectList(out, front, key);
      AddingKeepsSubjectList([], front, key);
      OneKeyEach(a, key);
      OneKeyEach(b, key);
      if |a| >= MAX_SUBJECTS || |b| >= MAX_SUBJECTS {
        assert KeySet(b, key) <= KeySet(a, key) <= all;
        SmallerSet(KeySet(a, key), all);
        SmallerSet(KeySet(b, key), KeySet(a, key));
      }
    } else {
      NoKeys(key);
    }
  }

  lemma NoKeys(key: SubjectKey)
    ensures KeySet([], key) == {}
  {
  }

  // ---- all batches

  lemma {:induction false} SubjectsConcat(a: seq<Item>, b: seq<Item>)
    ensures AllSubjects(a + b) == AllSubjects(a) + AllSubjects(b)
  {
    if b == [] {
      assert a + b == a;
    } else {
      assert (a + b)[..|a + b| - 1] == a + b[..|b| - 1];
      SubjectsConcat(a, b[..|b| - 1]);
    }
  }

  lemma SubjectsAreShown(r: seq<ProviderResult>, fp: string, scores: map<string, real>, generate: Fingerprinter,
                         key: SubjectKey)
    ensures SubjectsIn(r, fp, scores, generate, key) == Shown(AllSubjects(ItemsOf(r, fp, scores, generate)), key)
    ensures |SubjectsIn(r, fp, scores, generate, key)| <= MAX_SUBJECTS
  {
    hide Flatten, Select, AddSubject, KeySet, SubjectList, Fold;
    var items := ItemsOf(r, fp, scores, generate);
    EmptySubjectList(key);
    AddingKeepsSubjectList([], AllSubjects(items), key);
    OneKeyEach(AddSubjects([], AllSubjects(items), key), key);
    NoKeys(key);
    if items != [] {
      FoldCollects(items, key);
    }
  }

  /** When the keys shown by the batches fit the cap, the merged work shows them all. */
  lemma {:induction false} AllAreShown(r: seq<ProviderResult>, fp: string, scores: map<string, real>,
                                       generate: Fingerprinter, key: SubjectKey, all: set<string>)
    requires |all| <= MAX_SUBJECTS && ShownByAny(r, fp, scores, generate, key) <= all
    ensures Shown(AllSubjects(ItemsOf(r, fp, scores, generate)), key) == ShownByAny(r, fp, scores, generate, key)
  {
    hide ItemsOf, AddSubjects, KeySet, SubjectList, Batch, AllSubjects;
    EmptySubjectList(key);
    NoKeys(key);
    if r == [] {
      NoItems(fp, scores, generate);
      NoSubjects();
    } else {
      var front, last := r[..|r| - 1], r[|r| - 1];
      var a, b := AllSubjects(ItemsOf(front, fp, scores, generate)), SubjectsOf(last, fp, scores, generate);
      AllAreShown(front, fp, scores, generate, key, all);
      assert r == front + [last];
      ItemsConcat(front, [last], fp, scores, generate);
      ItemsOfOne(last, fp, scores, generate);
      SubjectsConcat(ItemsOf(front, fp, scores, generate), Batch(last, fp, scores, generate));
      AddSubjectsConcat([], a, b, key);
      AddingKeepsSubjectList([], a, key);
      AddingAddsShown(AddSubjects([], a, key), b, all, key);
    }
  }

  lemma NoSubjects()
    ensures AllSubjects([]) == []
  {
  }

  lemma {:induction false} ShownIffBatchShows(r: seq<ProviderResult>, fp: string, scores: map<string, real>,
                                              generate: Fingerprinter, key: SubjectKey)
    ensures forall k :: k in ShownByAny(r, fp, scores, generate, key)
                        <==> exists b :: b in r && k in Shown(SubjectsOf(b, fp, scores, generate), key)
  {
    if r != [] {
      hide Shown, SubjectsOf;
      var front, last := r[..|r| - 1], r[|r| - 1];
      ShownIffBatchShows(front, fp, scores, generate, key);
      assert forall b :: b in r <==> b in front || b == last;
    }
  }

  /** A batch that comes first shows whatever it would show alone. */
  lemma FirstIsShown(b: ProviderResult, rest: seq<ProviderResult>, fp: string, scores: map<string, real>,
                     generate: Fingerprinter, key: SubjectKey)
    ensures Shown(SubjectsOf(b, fp, scores, generate), key) <= SubjectsIn([b] + rest, fp, scores, generate, key)
  {
    hide ItemsOf, Batch, AddSubjects, KeySet, SubjectsIn;
    SubjectsAreShown([b] + rest, fp, scores, generate, key);
    ItemsConcat([b], rest, fp, scores, generate);
    ItemsOfOne(b, fp, scores, generate);
    SubjectsConcat(Batch(b, fp, scores, generate), ItemsOf(rest, fp, scores, generate));
    var a, c := SubjectsOf(b, fp, scores, generate), AllSubjects(ItemsOf(rest, fp, scores, generate));
    AddSubjectsConcat([], a, c, key);
    AddingExtends(AddSubjects([], a, key), c, key);
  }

  /**
    The merged work's subject keys ignore the arrival order if and only if the keys each batch would show alone
    fit the cap together.
  */
  lemma SubjectsIgnoreOrderIff(r: seq<ProviderResult>, fp: string, scores: map<string, real>,
                               generate: Fingerprinter, key: SubjectKey)
    ensures SubjectsIgnoreOrder(r, fp, scores, generate, key)
            <==> |ShownByAny(r, fp, scores, generate, key)| <= MAX_SUBJECTS
  {
    hide SubjectsIn, Shown, SubjectsOf, ShownByAny, ItemsOf;
    var all := ShownByAny(r, fp, scores, generate, key);
    ShownIffBatchShows(r, fp, scores, generate, key);
    if |all| <= MAX_SUBJECTS {
      forall r' | multiset(r') == multiset(r)
        ensures SubjectsIn(r', fp, scores, generate, key) == all
      {
        ShownInOrder(r, r', fp, scores, generate, key);
      }
    } else if SubjectsIgnoreOrder(r, fp, scores, generate, key) {
      var there := SubjectsIn(r, fp, scores, generate, key);
      SubjectsAreShown(r, fp, scores, generate, key);
      forall k | k in all
        ensures k in there
      {
        var b :| b in r && k in Shown(SubjectsOf(b, fp, scores, generate), key);
        var rest := PutFirst(r, b);
        FirstIsShown(b, rest, fp, scores, generate, key);
      }
      SmallerSet(all, there);
      assert false;
    }
  }

  lemma ShownInOrder(r: seq<ProviderResult>, r': seq<ProviderResult>, fp: string, scores: map<string, real>,
                     generate: Fingerprinter, key: SubjectKey)
    requires multiset(r') == multiset(r) && |ShownByAny(r, fp, scores, generate, key)| <= MAX_SUBJECTS
    ensures SubjectsIn(r', fp, scores, generate, key) == ShownByAny(r, fp, scores, generate, key)
  {
    hide SubjectsIn, Shown, SubjectsOf, ShownByAny, ItemsOf;
    ShownIffBatchShows(r, fp, scores, generate, key);
    ShownIffBatchShows(r', fp, scores, generate, key);
    SameMembers(r, r');
    assert ShownByAny(r', fp, scores, generate, key) == ShownByAny(r, fp, scores, generate, key);
    SubjectsAreShown(r', fp, scores, generate, key);
    AllAreShown(r', fp, scores, generate, key, ShownByAny(r, fp, scores, generate, key));
  }

  // ---- few and many subjects

  /** The keys of the usable subjects. */
  function UsableKeys(subjects: seq<string>, key: SubjectKey): set<string> {
    set s | s in subjects && Trim(s) != "" && key(Trim(s)) != "" :: key(Trim(s))
  }

  lemma {:induction false} ShownAreUsable(subjects: seq<string>, key: SubjectKey)
    ensures Shown(subjects, key) <= UsableKeys(subjects, key)
  {
    hide AddSubject, Trim;
    if subjects != [] {
      var front, last := subjects[..|subjects| - 1], subjects[|subjects| - 1];
      ShownAreUsable(front, key);
      AddedKeys(AddSubjects([], front, key), last, key);
      assert forall s :: s in subjects <==> s in front || s == last;
    }
  }

  lemma {:induction false} UsableOfBatches(r: seq<ProviderResult>, fp: string, scores: map<string, real>,
                                           generate: Fingerprinter, key: SubjectKey)
    ensures ShownByAny(r, fp, scores, generate, key)
            <= UsableKeys(AllSubjects(ItemsOf(r, fp, scores, generate)), key)
  {
    hide Shown, Batch, ItemsOf, AllSubjects, Trim;
    if r != [] {
      var front, last := r[..|r| - 1], r[|r| - 1];
      assert r == front + [last];
      ItemsConcat(front, [last], fp, scores, generate);
      ItemsOfOne(last, fp, scores, generate);
      SubjectsConcat(ItemsOf(front, fp, scores, generate), Batch(last, fp, scores, generate));
      UsableOfBatches(front, fp, scores, generate, key);
      ShownAreUsable(SubjectsOf(last, fp, scores, generate), key);
    }
  }

  /** In particular when there are no more than twenty-five different keys at all. */
  lemma FewSubjectsIgnoreOrder(r: seq<ProviderResult>, fp: string, scores: map<string, real>,
                               generate: Fingerprinter, key: SubjectKey)
    requires |UsableKeys(AllSubjects(ItemsOf(r, fp, scores, generate)), key)| <= MAX_SUBJECTS
    ensures SubjectsIgnoreOrder(r, fp, scores, generate, key)
  {
    hide UsableKeys, ShownByAny, ItemsOf, SubjectsIgnoreOrder;
    UsableOfBatches(r, fp, scores, generate, key);
    SmallerSet(ShownByAny(r, fp, scores, generate, key),
                    UsableKeys(AllSubjects(ItemsOf(r, fp, scores, generate)), key));
    SubjectsIgnoreOrderIff(r, fp, scores, generate, key);
  }

  function Letters(n: nat): seq<string>
    requires n <= 26
  {
    seq(n, i requires 0 <= i < n => [('a' as int + i) as char])
  }

  function Tagged(provider: string, subjects: seq<string>): ProviderResult {
    ProviderResult(provider, [Work("f", "T", 0, [], None, subjects, [], 0.0)])
  }

  /** Beyond that it can: of twenty-five subjects and one more, whichever comes last loses a place. */
  lemma ManySubjectsShowOrder(generate: Fingerprinter)
    ensures var r := [Tagged("p", Letters(25)), Tagged("q", ["z"])];
            !SubjectsIgnoreOrder(r, "f", map[], generate, (s: string) => s)
  {
    var key := (s: string) => s;
    var p, q := Tagged("p", Letters(25)), Tagged("q", ["z"]);
    var r := [p, q];
    TaggedSubjects(p, Letters(25), generate);
    TaggedSubjects(q, ["z"], generate);
    LettersAreShown(key);
    hide SubjectsOf, Shown, KeySet, SubjectsIgnoreOrder, Tagged;
    assert r[..1] == [p] && [p][..0] == [];
    assert ShownByAny([p], "f", map[], generate, key) == KeySet(Letters(25), key);
    assert "z" !in KeySet(Letters(25), key);
    assert |KeySet(Letters(25), key) + {"z"}| == 26;
    SubjectsIgnoreOrderIff(r, "f", map[], generate, key);
  }

  lemma TaggedSubjects(b: ProviderResult, subjects: seq<string>, generate: Fingerprinter)
    requires b.works == [Work("f", "T", 0, [], None, subjects, [], 0.0)]
    ensures SubjectsOf(b, "f", map[], generate) == subjects
  {
    var s := Scored(b, map[], generate);
    assert b.works[0].fingerprint == "f" && Identified(b.works[0], generate) == b.works[0];
    assert s == [Item(0.0, b.works[0])];
    SelectStep([], s[0], "f");
    assert [] + [s[0]] == s;
    assert s[..0] == [] && AllSubjects([]) + subjects == subjects;
  }

  lemma LettersAreShown(key: SubjectKey)
    requires forall s :: key(s) == s
    ensures Shown(Letters(25), key) == KeySet(Letters(25), key) && |KeySet(Letters(25), key)| == 25
    ensures Shown(["z"], key) == {"z"} && "z" !in KeySet(Letters(25), key)
  {
    hide AddSubjects, SubjectList;
    LettersAreSubjects(key);
    SubjectListIsFixed(Letters(25), key);
    SubjectListIsFixed(["z"], key);
    OneKeyEach(Letters(25), key);
    ZIsNoLetter(key);
  }

  lemma LettersAreSubjects(key: SubjectKey)
    requires forall s :: key(s) == s
    ensures SubjectList(Letters(25), key) && SubjectList(["z"], key) && |Letters(25)| == 25
  {
    hide Trim;
    var s := Letters(25);
    forall i | 0 <= i < 25
      ensures s[i] != "" && Trim(s[i]) == s[i] && s[i][0] as int == 'a' as int + i
    {
      LetterIsTrimmed(s[i]);
    }
    LetterIsTrimmed("z");
  }

  lemma LetterIsTrimmed(s: string)
    requires |s| == 1 && 'a' <= s[0] <= 'z'
    ensures Trim(s) == s
  {
    TrimmedIsFixed(s);
  }

  lemma ZIsNoLetter(key: SubjectKey)
    requires forall s :: key(s) == s
    ensures "z" !in KeySet(Letters(25), key) && KeySet(["z"], key) == {"z"}
  {
    assert "z" in ["z"] && key("z") in KeySet(["z"], key);
    var s := Letters(25);
    forall x | x in s
      ensures x != "z"
    {
      var i :| 0 <= i < 25 && s[i] == x;
      assert s[i][0] as int == 'a' as int + i;
    }
  }
}
