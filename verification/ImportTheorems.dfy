/**
  What the importer's exits mean for a whole history of attempts and decisions on one incoming
  directory: no content is lost but for a stand-in of its size at the path it was headed for, exactly when
  the cleared directory held no media file outside the scan.
*/
module ImportTheorems {
  import opened Wrappers
  import opened FileSystems
  import opened Text
  import opened MediaNames
  import opened Conservation
  import opened ImportEngine

  ghost predicate Emptied(f: Files, incoming: Path) {
    forall p :: p in f ==> !Under(p, incoming)
  }

  // ---- what a judgement is

  /**
    Every judgement of an exit is a comparison that took place: in files that the earlier moves led to, the lost
    content lay at the source of an allowed route and the kept one, of the same size, at its destination.
  */
  lemma JudgedAtItsPath(f0: Files, f1: Files, j: Log, incoming: Path, handled: seq<Path>, cleared: bool,
                        routes: Routes, i: nat)
    requires ImportPost(f0, f1, j, incoming, handled, cleared) && Routed(j, routes)
    requires i < |j| && Judges(j[i])
    ensures Traced(f0, j[..i], j[i].before)
    ensures (j[i].src, j[i].dst) in routes
    ensures j[i].before[j[i].src] == Lost(j[i]) && j[i].before[j[i].dst] == Kept(j[i])
    ensures Lost(j[i]) != Kept(j[i]) && |Lost(j[i])| == |Kept(j[i])|
    ensures j[i].dst in j[i].after && j[i].after[j[i].dst] == Kept(j[i])
  {
    TracedPrefix(f0, j, End(f0, j), i);
    TracedMoves(f0, j, End(f0, j));
    assert MoveDone(j[i]);
  }

  lemma {:induction false} TracedPrefix(f: Files, j: Log, f': Files, i: nat)
    requires Traced(f, j, f') && i < |j|
    ensures Traced(f, j[..i], j[i].before)
  {
    var n := |j| - 1;
    if i < n {
      TracedPrefix(f, j[..n], j[n].before, i);
      assert j[..n][..i] == j[..i];
    }
  }

  /** Whatever an exit lost has a survivor of its size at a durable path. */
  lemma SurvivorHasSize(f0: Files, f1: Files, j: Log, incoming: Path, handled: seq<Path>, cleared: bool, c: Content)
    requires ImportPost(f0, f1, j, incoming, handled, cleared) && (cleared ==> NoStrays(f0, incoming, handled))
    requires c in DurableContents(f0, incoming)
    ensures exists p :: p in f1 && p in Durable(incoming) && StandsFor(f1[p], c, j) && |f1[p]| == |c|
  {
    hide Durable, DurableContents, Traced, Settles, SameSizeOnly;
    ExitKeepsDurableContents(f0, f1, j, incoming, handled, cleared);
    TracedMoves(f0, j, End(f0, j));
    var p :| p in f1 && p in Durable(incoming) && StandsFor(f1[p], c, j);
    StandInHasSize(f1[p], c, j);
  }

  // ---- histories

  datatype Exit = Exit(handled: seq<Path>, cleared: bool, log: Log)

  /** A history of import attempts and decisions: `states[i + 1]` is an exit of the call made in `states[i]`. */
  ghost predicate ImportRun(states: seq<Files>, exits: seq<Exit>, incoming: Path) {
    && |states| == |exits| + 1
    && forall i :: 0 <= i < |exits| ==>
         ImportPost(states[i], states[i + 1], exits[i].log, incoming, exits[i].handled, exits[i].cleared)
  }

  /** No call of the history clears the incoming directory while it holds a stray media file. */
  ghost predicate NeverClearsStrays(states: seq<Files>, exits: seq<Exit>, incoming: Path)
    requires |states| == |exits| + 1
  {
    forall i :: 0 <= i < |exits| && exits[i].cleared ==> NoStrays(states[i], incoming, exits[i].handled)
  }

  /** The moves of all calls, one after the other. */
  function WholeLog(exits: seq<Exit>): Log {
    if exits == [] then [] else WholeLog(exits[..|exits| - 1]) + exits[|exits| - 1].log
  }

  /** Over any history a durable content stays durable, itself or what the moves of the history took it for. */
  lemma {:induction false} RunKeepsDurableContents(states: seq<Files>, exits: seq<Exit>, incoming: Path, c: Content)
    requires ImportRun(states, exits, incoming) && NeverClearsStrays(states, exits, incoming)
    requires c in DurableContents(states[0], incoming)
    ensures Survives(c, states[|exits|], WholeLog(exits), Durable(incoming))
    decreases |exits|
  {
    hide ImportPost, StandsFor, Durable;
    if |exits| == 0 {
      var p :| p in states[0] && p in Durable(incoming) && states[0][p] == c;
      Itself(c);
    } else {
      var n := |exits| - 1;
      assert forall i :: 0 <= i < n ==> exits[..n][i] == exits[i] && states[..n + 1][i] == states[i];
      RunKeepsDurableContents(states[..n + 1], exits[..n], incoming, c);
      var p :| p in states[n] && p in Durable(incoming) && StandsFor(states[n][p], c, WholeLog(exits[..n]));
      ExitKeepsDurableContents(states[n], states[n + 1], exits[n].log, incoming, exits[n].handled, exits[n].cleared);
      assert states[n][p] in DurableContents(states[n], incoming);
      var q :| q in states[n + 1] && q in Durable(incoming) && StandsFor(states[n + 1][q], states[n][p], exits[n].log);
      StandsOn(states[n + 1][q], states[n][p], c, WholeLog(exits[..n]), exits[n].log);
    }
  }

  lemma Itself(c: Content)
    ensures StandsFor(c, c, [])
  {
  }

  // ---- when nothing is judged, and what clearing costs

  /** No two files of one size have different contents. */
  ghost predicate SizesTellApart(f: Files) {
    forall c, d :: c in f.Values && d in f.Values && c != d ==> |c| != |d|
  }

  /** When sizes tell the contents apart, the same-size rule drops nothing. */
  lemma DistinctSizesJudgeNothing(f0: Files, f1: Files, j: Log, incoming: Path, handled: seq<Path>, cleared: bool)
    requires ImportPost(f0, f1, j, incoming, handled, cleared)
    requires SizesTellApart(f0)
    ensures JudgesNothing(j)
  {
    hide Traced, Keeps, Settles, Durable;
    assert DurableContents(f0, incoming) <= f0.Values;
    assert forall i :: 0 <= i < |j| && Judges(j[i]) ==> Lost(j[i]) != Kept(j[i]);
  }

  /** A handled path, or one outside the incoming directory, held the content. */
  ghost predicate HeldSafely(f: Files, incoming: Path, handled: seq<Path>, c: Content) {
    exists p :: p in f && (!Under(p, incoming) || p in handled) && f[p] == c
  }

  /**
    The exact condition: once the incoming directory is emptied and nothing was judged away, a media
    content survives if and only if some handled path, or some path outside, held it before.
  */
  lemma ClearingKeepsExactlyTheProtected(f0: Files, f1: Files, j: Log, incoming: Path, handled: seq<Path>, c: Content)
    requires ImportPost(f0, f1, j, incoming, handled, true) && JudgesNothing(j) && Emptied(f1, incoming)
    ensures c in f1.Values <==> HeldSafely(f0, incoming, handled, c)
  {
    hide Traced, StandsFor, SameSizeOnly, JudgesNothing;
    var kept := Protected(f0, incoming, handled);
    if c in f1.Values {
      var q :| q in f1 && f1[q] == c;
      assert q in Zone(incoming, []);
      var p :| p in kept && kept[p] == c;
      assert p in f0 && f0[p] == c;
    }
    if HeldSafely(f0, incoming, handled, c) {
      var p :| p in f0 && (!Under(p, incoming) || p in handled) && f0[p] == c;
      assert p in kept && kept[p] == c && c in kept.Values;
      assert Survives(c, f1, j, Zone(incoming, []));
      var q :| q in f1 && q in Zone(incoming, []) && StandsFor(f1[q], c, j);
      NothingStandsIn(f1[q], c, j);
    }
  }

  /**
    A retry can destroy a staged file. The first attempt staged `a.epub` and failed; the retry scans
    only the source, stages `b.epub`, and clears the directory with `a.epub` in it.
  */
  lemma RetryCanLoseStagedFile(f0: Files, f1: Files, j: Log)
    requires f0 == map[["lib", "_incoming", "7", "a.epub"] := [1], ["dl", "b.epub"] := [2, 2]]
    requires ImportPost(f0, f1, j, ["lib", "_incoming", "7"],
                        [["dl", "b.epub"], ["lib", "_incoming", "7", "b.epub"]], true)
    requires Emptied(f1, ["lib", "_incoming", "7"])
    ensures [1] in f0.Values && [1] !in f1.Values && JudgesNothing(j)
    ensures !NoStrays(f0, ["lib", "_incoming", "7"], [["dl", "b.epub"], ["lib", "_incoming", "7", "b.epub"]])
  {
    hide *;
    var incoming, a, b := ["lib", "_incoming", "7"], ["lib", "_incoming", "7", "a.epub"], ["dl", "b.epub"];
    var handled := [b, ["lib", "_incoming", "7", "b.epub"]];
    assert a in f0 && f0[a] == [1];
    assert f0 == map[a := [1], b := [2, 2]];
    assert SizesTellApart(f0) by { TwoSizes(f0, a, b); }
    DistinctSizesJudgeNothing(f0, f1, j, incoming, handled, true);
    ClearingKeepsExactlyTheProtected(f0, f1, j, incoming, handled, [1]);
    StagedAlone(a, incoming, handled);
    OnlyStrayHolds(f0, a, b, incoming, handled);
    StrayIsFound(f0, a, incoming, handled);
  }

  /** Such an attempt exists: two moves take `b.epub` to the library, and the clearing takes `a.epub`. */
  lemma RetryGoesThrough(f0: Files, f1: Files) returns (j: Log)
    requires f0 == map[["lib", "_incoming", "7", "a.epub"] := [1], ["dl", "b.epub"] := [2, 2]]
    requires f1 == map[["lib", "b.epub"] := [2, 2]]
    ensures ImportPost(f0, f1, j, ["lib", "_incoming", "7"],
                       [["dl", "b.epub"], ["lib", "_incoming", "7", "b.epub"]], true)
    ensures Emptied(f1, ["lib", "_incoming", "7"])
  {
    var incoming, a, b := ["lib", "_incoming", "7"], ["lib", "_incoming", "7", "a.epub"], ["dl", "b.epub"];
    var s, t := ["lib", "_incoming", "7", "b.epub"], ["lib", "b.epub"];
    var handled := [b, s];
    DifferentPaths(incoming, a, b, s, t);
    var g: Files, h: Files := map[a := [1], s := [2, 2]], map[a := [1], t := [2, 2]];
    j := [Step(f0, b, s, true, g), Step(g, s, t, true, h)];
    TwoMoves(f0, b, s, g, t, h, j);
    hide Traced, IsMedia;
    assert f0 == map[a := [1], b := [2, 2]];
    ClearedPost(f0, h, f1, j, incoming, handled, t);
  }

  lemma DifferentPaths(incoming: Path, a: Path, b: Path, s: Path, t: Path)
    requires incoming == ["lib", "_incoming", "7"] && a == ["lib", "_incoming", "7", "a.epub"]
    requires b == ["dl", "b.epub"] && s == ["lib", "_incoming", "7", "b.epub"] && t == ["lib", "b.epub"]
    ensures Under(a, incoming) && Under(s, incoming) && !Under(b, incoming) && !Under(t, incoming)
    ensures a != s && b != t
  {
    assert a[..3] == incoming && s[..3] == incoming;
    assert a[3][0] == 'a' && s[3][0] == 'b' && b[0][0] == 'd' && t[0][0] == 'l';
  }

  // a file moved to a free path and on to another one
  lemma TwoMoves(f: Files, a: Path, b: Path, g: Files, c: Path, h: Files, j: Log)
    requires a in f && b !in f && a != b && g == f[b := f[a]] - {a}
    requires b in g && c !in g && b != c && h == g[c := g[b]] - {b}
    requires j == [Step(f, a, b, true, g), Step(g, b, c, true, h)]
    ensures Traced(f, j, h) && End(f, j) == h && JudgesNothing(j)
  {
    assert j[..1] == [Step(f, a, b, true, g)] && j[..1][..0] == [];
    assert MoveDone(j[0]) && MoveDone(j[1]);
    assert Traced(f, [], f);
    assert Traced(f, j[..1], g);
  }

  // after moves that took no file for another, what is left outside the directory is what was protected
  lemma ClearedPost(f0: Files, h: Files, f1: Files, j: Log, incoming: Path, handled: seq<Path>, kept: Path)
    requires Traced(f0, j, h) && End(f0, j) == h && JudgesNothing(j) && ClearedUnder(h, f1, incoming)
    requires f1.Keys == {kept} && !Under(kept, incoming)
    requires Protected(f0, incoming, handled).Values == {f1[kept]}
    ensures ImportPost(f0, f1, j, incoming, handled, true) && Emptied(f1, incoming)
  {
    hide Traced, IsMedia;
    var c := f1[kept];
    assert StandsFor(c, c, j);
    assert Survives(c, f1, j, Zone(incoming, []));
  }

  lemma StagedAlone(a: Path, incoming: Path, handled: seq<Path>)
    requires incoming == ["lib", "_incoming", "7"] && a == ["lib", "_incoming", "7", "a.epub"]
    requires handled == [["dl", "b.epub"], ["lib", "_incoming", "7", "b.epub"]]
    ensures Under(a, incoming) && a !in handled && IsMedia(Base(a))
  {
    assert a[..3] == incoming;
    assert a[3] == "a.epub" && "a.epub"[0] != "b.epub"[0];
    assert Base(a) == "a.epub";
    assert IsMedia("a.epub") by { EpubIsMedia("a.epub"); }
  }

  lemma OnlyStrayHolds(f0: Files, a: Path, b: Path, incoming: Path, handled: seq<Path>)
    requires f0 == map[a := [1], b := [2, 2]] && Under(a, incoming) && a !in handled
    ensures !HeldSafely(f0, incoming, handled, [1])
  {
    hide Under;
    assert [1] != [2, 2] by { assert |[1]| != |[2, 2]|; }
  }

  lemma StrayIsFound(f0: Files, a: Path, incoming: Path, handled: seq<Path>)
    requires a in f0 && Under(a, incoming) && a !in handled && IsMedia(Base(a))
    ensures !NoStrays(f0, incoming, handled)
  {
    hide IsMedia;
  }

  lemma EpubIsMedia(name: string)
    requires name == "a.epub" || name == "b.epub"
    ensures IsMedia(name)
  {
    TrimmedIsFixed(name);
    assert ToLower(name) == name;
    hide Ext, Contains, Trim, ToLower;
    EpubExt(name[..1]);
    assert name[..1] + ".epub" == name;
    NoSample(name);
  }

  lemma EpubExt(stem: string)
    ensures Ext(stem + ".epub") == ".epub"
  {
    hide Ext;
    DotStartsExt(stem);
    assert stem + "." + ['e'] == stem + ".e" && stem + ".e" + ['p'] == stem + ".ep";
    assert stem + ".ep" + ['u'] == stem + ".epu" && stem + ".epu" + ['b'] == stem + ".epub";
    ExtGrows(stem + ".", 'e');
    ExtGrows(stem + ".e", 'p');
    ExtGrows(stem + ".ep", 'u');
    ExtGrows(stem + ".epu", 'b');
  }

  lemma DotStartsExt(front: string)
    ensures Ext(front + ".") == "."
  {
  }

  lemma ExtGrows(front: string, c: char)
    requires c != '.' && Ext(front) != ""
    ensures Ext(front + [c]) == Ext(front) + [c]
  {
    assert (front + [c])[..|front|] == front;
  }

  lemma NoSample(name: string)
    requires name == "a.epub" || name == "b.epub"
    ensures !Contains(name, "sample")
  {
    assert "sample"[0] == 's' && name[0] != 's';
    assert name[1..] == ".epub";
    assert ".epub"[1..] == "epub";
    assert "epub"[1..] == "pub";
    assert "pub"[1..] == "ub";
    assert "ub"[1..] == "b";
    assert !Contains("", "sample") && !Contains("b", "sample") && !Contains("ub", "sample");
    assert !Contains("pub", "sample") && !Contains("epub", "sample") && !Contains(".epub", "sample");
  }

  // ---- the scan limit in a review

  /** What `Decide` promises of its scan: media files of the incoming directory, all of them or as many as the limit. */
  ghost predicate ReviewScan(f0: Files, incoming: Path, scan: seq<Path>, limit: nat) {
    && Distinct(scan) && (forall p :: p in scan ==> p in Media(f0, incoming))
    && (|Media(f0, incoming)| <= limit ==> NoStrays(f0, incoming, scan))
    && (|Media(f0, incoming)| > limit ==> |scan| == limit)
  }

  /** No media file below `root` has a copy elsewhere. */
  ghost predicate SingleCopies(f: Files, root: Path) {
    forall p, q :: p in Media(f, root) && q in f && p != q ==> f[p] != f[q]
  }

  /**
    The exact condition for a decision that empties the incoming directory: if sizes tell files apart and those
    under review have no copy elsewhere, every durable content survives if and only if the media files under
    review fit the scan limit.
  */
  lemma ReviewKeepsAllIffScanFits(f0: Files, f1: Files, j: Log, incoming: Path, scan: seq<Path>, limit: nat)
    requires ImportPost(f0, f1, j, incoming, scan, true) && Emptied(f1, incoming)
    requires ReviewScan(f0, incoming, scan, limit) && SizesTellApart(f0) && SingleCopies(f0, incoming)
    ensures DurableContents(f0, incoming) <= f1.Values <==> |Media(f0, incoming)| <= limit
  {
    hide ImportPost, IsMedia, JudgesNothing, Emptied, HeldSafely, SizesTellApart, SingleCopies;
    DistinctSizesJudgeNothing(f0, f1, j, incoming, scan, true);
    forall c
      ensures c in f1.Values <==> HeldSafely(f0, incoming, scan, c)
    {
      ClearingKeepsExactlyTheProtected(f0, f1, j, incoming, scan, c);
    }
    if |Media(f0, incoming)| <= limit {
      ProtectedIsHeld(f0, incoming, scan);
    } else {
      var p := Unscanned(f0, incoming, scan);
      UnscannedIsUnsafe(f0, incoming, scan, p);
      assert f0[p] in DurableContents(f0, incoming);
    }
  }

  lemma ProtectedIsHeld(f0: Files, incoming: Path, scan: seq<Path>)
    requires NoStrays(f0, incoming, scan)
    ensures forall c :: c in DurableContents(f0, incoming) ==> HeldSafely(f0, incoming, scan, c)
  {
    hide IsMedia;
  }

  /** A scan shorter than the media it is taken from misses some file. */
  lemma Unscanned(f0: Files, incoming: Path, scan: seq<Path>) returns (p: Path)
    requires Distinct(scan) && (forall q :: q in scan ==> q in Media(f0, incoming)) && |scan| < |Media(f0, incoming)|
    ensures p in Media(f0, incoming) && p !in scan
  {
    hide IsMedia;
    MembersOfDistinct(scan);
    var scanned := set q | q in scan;
    if Media(f0, incoming) <= scanned {
      SmallerSet(Media(f0, incoming), scanned);
    }
    p :| p in Media(f0, incoming) && p !in scanned;
  }

  lemma UnscannedIsUnsafe(f0: Files, incoming: Path, scan: seq<Path>, p: Path)
    requires p in Media(f0, incoming) && p !in scan && SingleCopies(f0, incoming)
    ensures !HeldSafely(f0, incoming, scan, f0[p])
  {
    hide IsMedia;
  }

  /** A review of two books with a scan limit of one destroys one of them. */
  lemma LargeReviewLosesFile(f0: Files, f1: Files, j: Log, scan: seq<Path>)
    requires f0 == map[["lib", "_incoming", "7", "a.epub"] := [1], ["lib", "_incoming", "7", "b.epub"] := [2, 2]]
    requires ImportPost(f0, f1, j, ["lib", "_incoming", "7"], scan, true) && Emptied(f1, ["lib", "_incoming", "7"])
    requires ReviewScan(f0, ["lib", "_incoming", "7"], scan, 1)
    ensures [1] !in f1.Values || [2, 2] !in f1.Values
  {
    hide *;
    var incoming, a, b := ["lib", "_incoming", "7"], ["lib", "_incoming", "7", "a.epub"],
        ["lib", "_incoming", "7", "b.epub"];
    TwoBooks(f0, incoming, a, b);
    ReviewKeepsAllIffScanFits(f0, f1, j, incoming, scan, 1);
  }

  /** Such a decision exists: `a.epub` is moved to the library, and the clearing takes `b.epub`. */
  lemma LargeReviewGoesThrough(f0: Files, f1: Files) returns (j: Log, scan: seq<Path>)
    requires f0 == map[["lib", "_incoming", "7", "a.epub"] := [1], ["lib", "_incoming", "7", "b.epub"] := [2, 2]]
    requires f1 == map[["lib", "a.epub"] := [1]]
    ensures ImportPost(f0, f1, j, ["lib", "_incoming", "7"], scan, true) && Emptied(f1, ["lib", "_incoming", "7"])
    ensures ReviewScan(f0, ["lib", "_incoming", "7"], scan, 1)
  {
    hide *;
    var incoming, a, b := ["lib", "_incoming", "7"], ["lib", "_incoming", "7", "a.epub"],
        ["lib", "_incoming", "7", "b.epub"];
    var t := ["lib", "a.epub"];
    TwoBooks(f0, incoming, a, b);
    OutsidePath(incoming, a, b, t);
    scan := [a];
    OneScanned(f0, incoming, a, b, scan);
    var h: Files := map[b := [2, 2], t := [1]];
    j := [Step(f0, a, t, true, h)];
    OneMove(f0, a, b, t, h, j);
    LeftAfterClearing(f0, h, f1, incoming, scan, a, b, t);
    ClearedPost(f0, h, f1, j, incoming, scan, t);
  }

  lemma OutsidePath(incoming: Path, a: Path, b: Path, t: Path)
    requires incoming == ["lib", "_incoming", "7"] && a == incoming + ["a.epub"] && b == incoming + ["b.epub"]
    requires t == ["lib", "a.epub"]
    ensures !Under(t, incoming) && Under(a, incoming) && Under(b, incoming) && t != a && t != b && a != b
  {
    assert a[3][0] == 'a' && b[3][0] == 'b';
    assert a[..3] == incoming && b[..3] == incoming;
  }

  lemma OneScanned(f0: Files, incoming: Path, a: Path, b: Path, scan: seq<Path>)
    requires Media(f0, incoming) == {a, b} && |{a, b}| == 2 && scan == [a]
    ensures ReviewScan(f0, incoming, scan, 1)
  {
    hide Media, NoStrays;
  }

  lemma OneMove(f: Files, a: Path, b: Path, t: Path, h: Files, j: Log)
    requires f == map[a := [1], b := [2, 2]] && t != a && t != b && a != b && h == map[b := [2, 2], t := [1]]
    requires j == [Step(f, a, t, true, h)]
    ensures Traced(f, j, h) && End(f, j) == h && JudgesNothing(j)
  {
    assert f[t := f[a]] - {a} == h;
    assert MoveDone(j[0]) && j[..0] == [] && Traced(f, [], f);
  }

  lemma LeftAfterClearing(f0: Files, h: Files, f1: Files, incoming: Path, scan: seq<Path>, a: Path, b: Path, t: Path)
    requires f0 == map[a := [1], b := [2, 2]] && h == map[b := [2, 2], t := [1]] && f1 == map[t := [1]]
    requires a != b && t != b && Under(a, incoming) && Under(b, incoming) && !Under(t, incoming) && scan == [a]
    ensures ClearedUnder(h, f1, incoming) && f1.Keys == {t} && Protected(f0, incoming, scan).Values == {f1[t]}
  {
    hide Under;
    assert h - {b} == f1;
    assert Protected(f0, incoming, scan) == map[a := [1]];
    assert f0[a] == [1] && f1[t] == [1];
    assert Protected(f0, incoming, scan).Values == {[1]};
  }

  lemma TwoSizes(f: Files, a: Path, b: Path)
    requires f == map[a := [1], b := [2, 2]]
    ensures SizesTellApart(f)
  {
  }

  lemma TwoBooks(f0: Files, incoming: Path, a: Path, b: Path)
    requires incoming == ["lib", "_incoming", "7"] && a == incoming + ["a.epub"] && b == incoming + ["b.epub"]
    requires f0 == map[a := [1], b := [2, 2]]
    ensures Media(f0, incoming) == {a, b} && a != b && |{a, b}| == 2
    ensures SingleCopies(f0, incoming) && SizesTellApart(f0)
    ensures DurableContents(f0, incoming) <= {[1], [2, 2]} && f0.Values == {[1], [2, 2]}
  {
    hide *;
    BookPaths(incoming, a, b);
    TwoFiles(f0, incoming, a, b);
    TwoSizes(f0, a, b);
  }

  lemma BookPaths(incoming: Path, a: Path, b: Path)
    requires incoming == ["lib", "_incoming", "7"] && a == incoming + ["a.epub"] && b == incoming + ["b.epub"]
    ensures a != b && Under(a, incoming) && Under(b, incoming) && IsMedia(Base(a)) && IsMedia(Base(b))
  {
    hide IsMedia;
    assert a[3][0] == 'a' && b[3][0] == 'b';
    assert Base(a) == "a.epub" && Base(b) == "b.epub";
    assert a[..3] == incoming && b[..3] == incoming;
    EpubIsMedia("a.epub");
    EpubIsMedia("b.epub");
  }

  lemma TwoFiles(f: Files, incoming: Path, a: Path, b: Path)
    requires f == map[a := [1], b := [2, 2]] && a != b
    requires Under(a, incoming) && Under(b, incoming) && IsMedia(Base(a)) && IsMedia(Base(b))
    ensures Media(f, incoming) == {a, b} && |{a, b}| == 2 && SingleCopies(f, incoming)
    ensures DurableContents(f, incoming) <= {[1], [2, 2]} && f.Values == {[1], [2, 2]}
  {
    hide IsMedia, Under;
    assert f.Keys == {a, b};
    assert f[a] == [1] && f[b] == [2, 2];
    assert [1] != [2, 2] by { assert |[1]| != |[2, 2]|; }
  }

  // ---- where an attempt puts its files

  /**
    With distinct targets, and nothing to replace or everything, a successful attempt leaves every scanned
    content, or what was taken for it, at its planned target or beside it.
  */
  lemma AttemptPlacesEveryFile(f0: Files, f1: Files, j: Log, incoming: Path, scan: seq<Path>, stages: seq<Path>,
                               applied: seq<Path>, actions: nat -> string, target: Path -> Path)
    requires JobPlaced(f0, f1, j, incoming, scan, stages, applied, actions, target) && Distinct(Targets(stages, target))
    requires (forall i: nat :: actions(i) != "replace") || (forall i: nat :: actions(i) == "replace")
    ensures forall k :: 0 <= k < |scan| ==>
              scan[k] in f0 && IsPlace(target(stages[k]), actions(k), incoming, applied[k])
                  && Settled(f0[scan[k]], f1, j, applied[k])
  {
    hide Settled, Undisturbed;
    forall k | 0 <= k < |scan|
      ensures scan[k] in f0 && IsPlace(target(stages[k]), actions(k), incoming, applied[k])
              && Settled(f0[scan[k]], f1, j, applied[k])
    {
      assert FilePlaced(f0, f1, j, incoming, scan[k], stages, applied[k], actions, target, k);
      assert actions(k) == "replace" ==> applied[k] == target(stages[k]);
      PlansDoNotDisturb(stages, applied, actions, target, k);
    }
  }

  // ---- one move

  /** One move loses a content exactly when the same-size rule drops the only copy of a different file. */
  lemma MoveLosesExactly(f: Files, f': Files, src: Path, dst: Path, ok: bool, c: Content)
    requires MoveSpec(f, f', src, dst, ok) && c in f.Values
    ensures c !in f'.Values <==>
              && src in f && f[src] == c && src !in f'
              && dst in f && f[dst] != c && |f[dst]| == |c|
              && (forall p :: p in f && p != src ==> f[p] != c)
  {
    var p :| p in f && f[p] == c;
    if src in f && f[src] == c && src !in f' && (dst !in f || f[dst] == c) {
      assert dst in f' && f'[dst] == c;
    }
    if q :| q in f && q != src && f[q] == c {
      assert q in f' && f'[q] == c;
    }
  }
}
