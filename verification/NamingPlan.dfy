/**
  Where the renamer puts a file: the sanitized name joined to the library root, in the separator style of
  that root. Template rendering is not modelled; the rendered texts are arbitrary.
*/
module NamingPlan {
  import opened Text
  import opened Paths
  import opened Sanitize

  datatype Style = Slash | Backslash

  function StyleOf(root: string): Style {
    if '\\' in root then Backslash else Slash
  }

  function Separator(style: Style): char {
    if style.Slash? then '/' else '\\'
  }

  function TrimSlashesLeft(s: string): string {
    if s != "" && s[0] == '/' then TrimSlashesLeft(s[1..]) else s
  }

  function TrimSlashesRight(s: string): string {
    if s != "" && s[|s| - 1] == '/' then TrimSlashesRight(s[..|s| - 1]) else s
  }

  function CleanRelative(value: string, style: Style): string {
    var v := TrimSlashesRight(TrimSlashesLeft(Swap(Trim(value), '\\', '/')));
    if v == "" || PathClean(v) == "." then ""
    else if style.Backslash? then Swap(PathClean(v), '/', '\\')
    else PathClean(v)
  }

  function JoinWithStyle(base: string, rel: string, style: Style): string {
    if style.Backslash? then
      var b, r := CleanRelative(base, style), CleanRelative(rel, style);
      if b == "" then r else if r == "" then b else b + "\\" + r
    else
      PathClean(PathJoin(base, Swap(rel, '\\', '/')))
  }

  /** The relative path of an ebook or a single-file audiobook. */
  function SingleRelative(rendered: string, replaceColon: bool, maxPathLen: int): string {
    Sanitized(rendered, replaceColon, maxPathLen)
  }

  /** The relative path of an audiobook track: its own name in the rendered folder. */
  function TrackRelative(root: string, folder: string, name: string, replaceColon: bool, maxPathLen: int): string {
    var style := StyleOf(root);
    CleanRelative(JoinWithStyle(Sanitized(folder, replaceColon, maxPathLen),
                                Sanitized(name, replaceColon, maxPathLen), style), style)
  }

  function Target(root: string, rel: string): string {
    JoinWithStyle(root, rel, StyleOf(root))
  }

  // ---- joined segments

  /** Ordinary segments without backslash, with no space at either end. */
  ghost predicate Tight(segments: seq<string>) {
    && AllOrdinary(segments) && Without(segments, '/') && Without(segments, '\\')
    && forall i :: 0 <= i < |segments| ==> Trimmed(segments[i])
  }

  lemma {:induction false} JoinEnds(parts: seq<string>, sep: char)
    requires parts != [] && forall i :: 0 <= i < |parts| ==> parts[i] != ""
    ensures var j, last := Join(parts, sep), parts[|parts| - 1];
            j != "" && j[0] == parts[0][0] && j[|j| - 1] == last[|last| - 1]
  {
    if |parts| > 1 {
      JoinEnds(parts[1..], sep);
    }
  }

  // cleaning leaves tight segments alone, and only chooses the separator
  lemma CleanRelativeOfTight(segments: seq<string>, value: string, style: Style)
    requires Tight(segments) && Trim(value) == value && Swap(value, '\\', '/') == Join(segments, '/')
    ensures CleanRelative(value, style) == Join(segments, Separator(style))
  {
    CleanOfOrdinary(segments);
    if segments != [] {
      JoinEnds(segments, '/');
      var j := Join(segments, '/');
      var n := |segments| - 1;
      assert segments[0][0] in segments[0] && segments[n][|segments[n]| - 1] in segments[n];
      assert TrimSlashesRight(TrimSlashesLeft(j)) == j;
      SwapJoin(segments, '/', '\\');
      JoinIsNotDot(segments);
    }
  }

  lemma JoinIsNotDot(segments: seq<string>)
    requires AllOrdinary(segments)
    ensures Join(segments, '/') != "."
  {
    CleanOfOrdinary(segments);
    CleanOfNothing();
  }

  lemma JoinIsTrimmed(segments: seq<string>, sep: char)
    requires Tight(segments)
    ensures Trim(Join(segments, sep)) == Join(segments, sep)
  {
    if segments != [] {
      JoinEnds(segments, sep);
      assert Trimmed(segments[0]) && Trimmed(segments[|segments| - 1]);
    }
    TrimmedIsFixed(Join(segments, sep));
  }

  lemma SwapEither(segments: seq<string>, style: Style)
    requires Tight(segments)
    ensures Swap(Join(segments, Separator(style)), '\\', '/') == Join(segments, '/')
  {
    if style.Backslash? {
      SwapJoin(segments, '\\', '/');
    } else {
      SwapNothing(segments);
    }
  }

  lemma {:induction false} SwapNothing(segments: seq<string>)
    requires Without(segments, '\\')
    ensures '\\' !in Join(segments, '/')
    ensures Swap(Join(segments, '/'), '\\', '/') == Join(segments, '/')
  {
    if |segments| > 1 {
      SwapNothing(segments[1..]);
    }
    SwapAbsent(Join(segments, '/'), '\\', '/');
  }

  // ---- the relative path

  /** The segments a rendered text stands for. */
  function Names(rendered: string, replaceColon: bool): seq<string> {
    Segments(Parts(rendered), replaceColon)
  }

  lemma GoodIsTrimmed(s: string, replaceColon: bool)
    requires Good(s, replaceColon) && TightEnd(s)
    ensures Trimmed(s)
  {
    assert forall i :: 0 <= i < |s| && IsSpace(s[i]) ==> s[i] == ' ';
  }

  lemma UncutIsExact(rendered: string, replaceColon: bool, maxPathLen: int)
    requires Uncut(rendered, replaceColon, maxPathLen)
    ensures Tight(Names(rendered, replaceColon))
    ensures Sanitized(rendered, replaceColon, maxPathLen) == Join(Names(rendered, replaceColon), '\\')
  {
    hide Parts, Tidy, Good, TightEnd, Segments, Join;
    UncutIsTight(Parts(rendered), replaceColon);
    SanitizedIsGood(rendered, replaceColon, maxPathLen);
    var s := Names(rendered, replaceColon);
    AllGoodIsOrdinary(s, replaceColon);
    forall i | 0 <= i < |s|
      ensures Trimmed(s[i])
    {
      GoodIsTrimmed(s[i], replaceColon);
    }
  }

  lemma TightConcat(a: seq<string>, b: seq<string>)
    requires Tight(a) && Tight(b)
    ensures Tight(a + b)
  {
    hide Ordinary, Trimmed;
  }

  // a track's folder is one segment to the slash style until its backslashes are turned
  lemma SlashTrack(folder: seq<string>, name: seq<string>)
    requires Tight(folder) && Tight(name)
    ensures var j := JoinWithStyle(Join(folder, '\\'), Join(name, '\\'), Slash);
            CleanRelative(j, Slash) == Join(folder + name, '/')
  {
    hide Trimmed, CleanRelative, PathClean, Ordinary;
    var f, n := Join(folder, '\\'), Join(name, '/');
    SwapJoin(name, '\\', '/');
    SwapJoin(folder, '\\', '/');
    TightConcat(folder, name);
    var all := if folder == [] then name else [f] + name;
    assert Join(all, '/') == if folder == [] then n else if name == [] then f else f + "/" + n;
    if folder != [] {
      FolderIsOrdinary(folder);
    }
    CleanOfOrdinary(all);
    JoinedNonempty(folder, '\\');
    JoinedNonempty(name, '/');
    CleanIsIdempotent(Join(all, '/'));
    var j := JoinWithStyle(f, Join(name, '\\'), Slash);
    if all == [] {
      assert j == PathClean("");
      CleanOfDot();
      assert folder + name == [];
    } else {
      assert j == Join(all, '/');
      SlashTrackSwaps(folder, name, j);
      CleanRelativeOfTight(folder + name, j, Slash);
    }
  }

  lemma CleanOfDot()
    ensures CleanRelative(PathClean(""), Slash) == ""
  {
    CleanOfNothing();
    TrimmedIsFixed(".");
    SwapAbsent(".", '\\', '/');
  }

  lemma FolderIsOrdinary(folder: seq<string>)
    requires Tight(folder) && folder != []
    ensures Ordinary(Join(folder, '\\'))
  {
    var f := Join(folder, '\\');
    JoinEnds(folder, '\\');
    NoSlashJoined(folder);
    if |folder| == 1 {
      assert Ordinary(folder[0]);
    } else {
      JoinConcat(folder[..1], folder[1..], '\\');
      assert folder == folder[..1] + folder[1..];
      assert f[|folder[0]|] == '\\';
    }
  }

  lemma {:induction false} NoSlashJoined(folder: seq<string>)
    requires Without(folder, '/')
    ensures '/' !in Join(folder, '\\')
  {
    if |folder| > 1 {
      NoSlashJoined(folder[1..]);
    }
  }

  lemma JoinedNonempty(segments: seq<string>, sep: char)
    requires AllOrdinary(segments)
    ensures Join(segments, sep) == "" <==> segments == []
  {
    if segments != [] {
      JoinEnds(segments, sep);
    }
  }

  lemma SlashTrackSwaps(folder: seq<string>, name: seq<string>, j: string)
    requires Tight(folder) && Tight(name) && folder + name != []
    requires var f, n := Join(folder, '\\'), Join(name, '/');
             j == if folder == [] then n else if name == [] then f else f + "/" + n
    ensures Swap(j, '\\', '/') == Join(folder + name, '/') && Trim(j) == j
  {
    var f, n := Join(folder, '\\'), Join(name, '/');
    hide Ordinary, Swap;
    SwapJoin(folder, '\\', '/');
    SwapNothing(name);
    JoinIsTrimmed(folder, '\\');
    JoinIsTrimmed(name, '/');
    if folder == [] {
      assert folder + name == name;
    } else if name == [] {
      assert folder + name == folder;
    } else {
      SwapConcat(f + "/", n, '\\', '/');
      SwapConcat(f, "/", '\\', '/');
      SwapAbsent("/", '\\', '/');
      JoinConcat(folder, name, '/');
      JoinEndsTrimmed(folder, name);
    }
  }

  lemma JoinEndsTrimmed(folder: seq<string>, name: seq<string>)
    requires Tight(folder) && Tight(name) && folder != [] && name != []
    ensures var j := Join(folder, '\\') + "/" + Join(name, '/'); Trim(j) == j
  {
    JoinEnds(folder, '\\');
    JoinEnds(name, '/');
    assert Trimmed(folder[0]) && Trimmed(name[|name| - 1]);
    TrimmedIsFixed(Join(folder, '\\') + "/" + Join(name, '/'));
  }

  lemma BackslashTrack(folder: seq<string>, name: seq<string>)
    requires Tight(folder) && Tight(name)
    ensures var j := JoinWithStyle(Join(folder, '\\'), Join(name, '\\'), Backslash);
            CleanRelative(j, Backslash) == Join(folder + name, '\\')
  {
    hide Trimmed, CleanRelative, Ordinary;
    TightConcat(folder, name);
    CleanJoined(folder);
    CleanJoined(name);
    CleanJoined(folder + name);
    JoinedNonempty(folder, '\\');
    JoinedNonempty(name, '\\');
    if folder == [] {
      assert folder + name == name;
    } else if name == [] {
      assert folder + name == folder;
    } else {
      JoinConcat(folder, name, '\\');
    }
  }

  lemma CleanJoined(segments: seq<string>)
    requires Tight(segments)
    ensures CleanRelative(Join(segments, '\\'), Backslash) == Join(segments, '\\')
  {
    JoinIsTrimmed(segments, '\\');
    SwapJoin(segments, '\\', '/');
    CleanRelativeOfTight(segments, Join(segments, '\\'), Backslash);
  }

  // ---- locations in backslash style

  predicate IsSeparator(c: char) {
    c == '/' || c == '\\'
  }

  /** How many separators lead the path, up to two: none for a relative path or a drive, two for a share. */
  function Lead(path: string): nat {
    if path == "" || !IsSeparator(path[0]) then 0
    else if |path| > 1 && IsSeparator(path[1]) then 2
    else 1
  }

  function SegmentsOf(path: string): seq<string> {
    Split(Swap(path, '\\', '/'), '/')
  }

  /** The resolved segments of a path whose separators are of either kind. */
  function Place(path: string): seq<string> {
    Norm(Lead(path) > 0, SegmentsOf(path))
  }

  /** What the renamer makes of a root: the spaces around it and its leading separators are gone. */
  function Inner(root: string): seq<string> {
    Norm(false, SegmentsOf(Trim(root)))
  }

  // ---- the target

  /** The target lies below the root, at exactly the given segments. */
  ghost predicate At(root: string, segments: seq<string>, target: string) {
    if StyleOf(root).Slash? then
      Rooted(target) == Rooted(root) && Parse(target) == Parse(root) + segments
    else
      Lead(target) == Lead(root) && Place(target) == Place(root) + segments
  }

  /** The renamer's cleaning leaves the root where it is. */
  predicate KeepsPlace(root: string) {
    StyleOf(root).Slash? || (Lead(root) == 0 && Inner(root) == Place(root))
  }

  lemma {:induction false} LeftSlashesDoNotCount(s: string)
    ensures Norm(false, Split(TrimSlashesLeft(s), '/')) == Norm(false, Split(s, '/'))
    ensures !Rooted(TrimSlashesLeft(s))
  {
    if s != "" && s[0] == '/' {
      LeftSlashesDoNotCount(s[1..]);
      assert s == "" + ['/'] + s[1..];
      SplitConcat("", s[1..], '/');
      SplitWord("", '/');
      NormSkipsEmpty(false, Split(s[1..], '/'));
    }
  }

  lemma {:induction false} RightSlashesDoNotCount(s: string)
    ensures Norm(false, Split(TrimSlashesRight(s), '/')) == Norm(false, Split(s, '/'))
    ensures TrimSlashesRight(s) <= s
  {
    if s != "" && s[|s| - 1] == '/' {
      var front := s[..|s| - 1];
      RightSlashesDoNotCount(front);
      assert s == front + ['/'] + "";
      SplitConcat(front, "", '/');
      SplitWord("", '/');
      hide Norm;
      LastSegment(false, Split(front, '/'), "");
    }
  }

  /** Cleaning in backslash style joins the resolved segments. */
  lemma CleanRelativeIsInner(value: string)
    ensures CleanRelative(value, Backslash) == Join(Inner(value), '\\')
    ensures Resolved(false, Inner(value)) && Without(Inner(value), '/') && Without(Inner(value), '\\')
  {
    var w := Swap(Trim(value), '\\', '/');
    var u := TrimSlashesLeft(w);
    var v := TrimSlashesRight(u);
    var r := Inner(value);
    hide Trim, TrimSlashesLeft, TrimSlashesRight, Norm, Resolved;
    LeftSlashesDoNotCount(w);
    RightSlashesDoNotCount(u);
    assert !Rooted(v) && Parse(v) == r;
    SplitIsWithout(w, '/');
    NormResolves(false, Split(w, '/'));
    SplitKeepsWithout(w, '/', '\\');
    NormWithout(false, Split(w, '/'), '\\');
    NormWithout(false, Split(w, '/'), '/');
    CleanOfNothing();
    if r != [] {
      ResolvedIsNoDot(r);
      SwapJoin(r, '/', '\\');
    }
  }

  lemma ResolvedIsNoDot(segments: seq<string>)
    requires Resolved(false, segments) && segments != [] && Without(segments, '/')
    ensures Join(segments, '/') != "." && Join(segments, '/') != ""
  {
    SplitJoin(segments, '/');
    SplitWord(".", '/');
    SplitWord("", '/');
    assert Ordinary(segments[0]) || segments[0] == "..";
  }

  /** Where segments joined with backslashes lead. */
  lemma JoinedPlace(segments: seq<string>)
    requires Without(segments, '/') && Without(segments, '\\') && (segments != [] ==> segments[0] != "")
    ensures Lead(Join(segments, '\\')) == 0 && Place(Join(segments, '\\')) == Norm(false, segments)
  {
    hide Swap, Split;
    SwapJoin(segments, '\\', '/');
    if segments == [] {
      CleanOfNothing();
    } else {
      SplitJoin(segments, '/');
      JoinStartsWithFirst(segments, '\\');
      assert segments[0][0] in segments[0];
    }
  }

  /** In backslash style the target is the cleaned root with the cleaned name behind it. */
  lemma BackslashJoin(root: string, rel: string)
    ensures JoinWithStyle(root, rel, Backslash) == Join(Inner(root) + Inner(rel), '\\')
    ensures Resolved(false, Inner(root)) && Resolved(false, Inner(rel))
    ensures Without(Inner(root) + Inner(rel), '/') && Without(Inner(root) + Inner(rel), '\\')
  {
    hide CleanRelative, Inner, Resolved;
    CleanRelativeIsInner(root);
    CleanRelativeIsInner(rel);
    if Inner(root) == [] {
      assert Inner(root) + Inner(rel) == Inner(rel);
    } else {
      ResolvedJoinsToText(Inner(root));
      if Inner(rel) == [] {
        assert Inner(root) + Inner(rel) == Inner(root);
      } else {
        ResolvedJoinsToText(Inner(rel));
        JoinConcat(Inner(root), Inner(rel), '\\');
      }
    }
  }

  lemma ResolvedJoinsToText(segments: seq<string>)
    requires Resolved(false, segments) && segments != []
    ensures Join(segments, '\\') != "" && segments[0] != ""
  {
    assert Ordinary(segments[0]) || segments[0] == "..";
    JoinStartsWithFirst(segments, '\\');
  }

  lemma InnerOfTight(segments: seq<string>)
    requires Tight(segments)
    ensures Inner(Join(segments, '\\')) == segments
  {
    JoinIsTrimmed(segments, '\\');
    SwapJoin(segments, '\\', '/');
    CleanOfOrdinary(segments);
    if segments != [] {
      JoinStartsWithFirst(segments, '/');
      assert segments[0][0] in segments[0];
    }
  }

  /** A tight name stays as it is behind the cleaned root. */
  lemma BackslashTarget(root: string, segments: seq<string>)
    requires Tight(segments)
    ensures JoinWithStyle(root, Join(segments, '\\'), Backslash) == Join(Inner(root) + segments, '\\')
    ensures Lead(Join(Inner(root) + segments, '\\')) == 0
    ensures Place(Join(Inner(root) + segments, '\\')) == Inner(root) + segments
  {
    hide Inner, Resolved, Ordinary, Trimmed, Lead, Place, Norm, JoinWithStyle;
    BackslashJoin(root, Join(segments, '\\'));
    InnerOfTight(segments);
    ResolvedIsFixed(false, Inner(root));
    NormAppends(false, Inner(root), segments);
    FirstIsText(Inner(root), segments);
    JoinedPlace(Inner(root) + segments);
  }

  lemma FirstIsText(front: seq<string>, segments: seq<string>)
    requires Resolved(false, front) && Resolved(false, segments)
    ensures front + segments != [] ==> (front + segments)[0] != ""
  {
    if front != [] {
      ResolvedJoinsToText(front);
    } else if segments != [] {
      ResolvedJoinsToText(segments);
    }
  }

  /** The target lies below the root, at the given segments, if and only if cleaning leaves the root where it is. */
  lemma TargetIsAtIff(root: string, segments: seq<string>, rel: string)
    requires Tight(segments) && (rel == Join(segments, '/') || rel == Join(segments, '\\'))
    requires StyleOf(root).Backslash? ==> rel == Join(segments, '\\')
    ensures At(root, segments, Target(root, rel)) <==> KeepsPlace(root)
  {
    if StyleOf(root).Backslash? {
      hide Inner, Place, Lead, CleanRelative, Tight, Resolved, Without;
      BackslashTarget(root, segments);
      assert Inner(root) + segments == Place(root) + segments <==> Inner(root) == Place(root) by {
        assert (Inner(root) + segments)[..|Inner(root)|] == Inner(root);
        assert (Place(root) + segments)[..|Place(root)|] == Place(root);
      }
    } else {
      SlashTarget(root, segments, rel);
    }
  }

  lemma SlashTarget(root: string, segments: seq<string>, rel: string)
    requires Tight(segments) && (rel == Join(segments, '/') || rel == Join(segments, '\\')) && StyleOf(root).Slash?
    ensures At(root, segments, Target(root, rel))
  {
    hide Trimmed, CleanRelative, Ordinary, Norm;
    JoinedNonempty(segments, '/');
    JoinedNonempty(segments, '\\');
    SwapEither(segments, Slash);
    SwapEither(segments, Backslash);
    if segments == [] {
      CleanKeepsParse(root);
      CleanKeepsParse(PathClean(root));
      CleanOfNothing();
      assert Parse(root) + segments == Parse(root);
    } else {
      OrdinaryIsNotEmpty(segments[0]);
      JoinParses(root, segments);
      NormAppends(Rooted(root), Split(root, '/'), segments);
      CleanKeepsParse(PathJoin(root, Join(segments, '/')));
    }
  }

  /** For a root without spaces around it, that is: if and only if no separator leads it. */
  lemma RootKeepsPlaceIff(root: string)
    requires Trimmed(root) && StyleOf(root).Backslash?
    ensures KeepsPlace(root) <==> Lead(root) == 0
  {
    TrimmedIsFixed(root);
  }

  /** A network share is lost: the books of `\\\\nas\\lib` go to a relative directory of that name. */
  lemma ShareIsLost()
    ensures Target("\\\\nas\\lib", "A") == "nas\\lib\\A"
    ensures !At("\\\\nas\\lib", ["A"], Target("\\\\nas\\lib", "A"))
  {
    var root := "\\\\nas\\lib";
    assert Join(["A"], '\\') == "A";
    hide *;
    ShareRoot(root);
    RootKeepsPlaceIff(root);
    TargetIsAtIff(root, ["A"], "A");
    BackslashTarget(root, ["A"]);
    assert ["nas", "lib"] + ["A"] == ["nas", "lib", "A"];
    JoinThree();
    TargetIsJoin(root, "A");
  }

  lemma ShareRoot(root: string)
    requires root == "\\\\nas\\lib"
    ensures StyleOf(root).Backslash? && Lead(root) == 2 && Trimmed(root) && Inner(root) == ["nas", "lib"]
            && Tight(["A"])
  {
    assert root[0] == '\\' && root[1] == '\\';
    TrimmedIsFixed(root);
    hide Norm, Split, Swap;
    ShareSegments(root);
    assert ["A"][0] == "A" && 'A' !in "/\\";
  }

  lemma TargetIsJoin(root: string, rel: string)
    requires StyleOf(root).Backslash?
    ensures Target(root, rel) == JoinWithStyle(root, rel, Backslash)
  {
    hide JoinWithStyle;
  }

  lemma JoinThree()
    ensures Join(["nas", "lib", "A"], '\\') == "nas\\lib\\A"
  {
    assert ["nas", "lib", "A"][1..] == ["lib", "A"] && ["lib", "A"][1..] == ["A"];
    assert Join(["A"], '\\') == "A";
    assert Join(["lib", "A"], '\\') == "lib" + ['\\'] + "A";
  }

  lemma ShareSegments(root: string)
    requires root == "\\\\nas\\lib"
    ensures Norm(false, SegmentsOf(root)) == ["nas", "lib"]
  {
    var s := "" + ['/'] + ("" + ['/'] + ("nas" + ['/'] + "lib"));
    assert Swap(root, '\\', '/') == s;
    SplitWord("", '/');
    SplitWord("nas", '/');
    SplitWord("lib", '/');
    SplitConcat("nas", "lib", '/');
    SplitConcat("", "nas" + ['/'] + "lib", '/');
    SplitConcat("", "" + ['/'] + ("nas" + ['/'] + "lib"), '/');
    assert Split(s, '/') == [""] + ([""] + ["nas", "lib"]);
    NormSkipsEmpty(false, [""] + ["nas", "lib"]);
    NormSkipsEmpty(false, ["nas", "lib"]);
    ResolvedIsFixed(false, ["nas", "lib"]);
  }

  // ---- the root's text

  /** No spaces around it, backslashes only, and nothing to resolve: no empty, `.` or inner `..` segment. */
  ghost predicate CleanText(root: string) {
    Trimmed(root) && '/' !in root && Resolved(false, Split(root, '\\'))
  }

  /** The target is the root's own text with the name behind it if and only if that text is clean. */
  lemma TargetExtendsTextIff(root: string, segments: seq<string>)
    requires StyleOf(root).Backslash? && Tight(segments) && segments != []
    ensures Target(root, Join(segments, '\\')) == root + "\\" + Join(segments, '\\') <==> CleanText(root)
  {
    hide Inner, Resolved, Tight, CleanRelative, Trimmed, Ordinary;
    BackslashTarget(root, segments);
    CleanRelativeIsInner(root);
    var b, r := Join(Inner(root), '\\'), Join(segments, '\\');
    assert root != "";
    CleanTextIff(root);
    if Inner(root) == [] {
      assert Inner(root) + segments == segments;
      assert |root + "\\" + r| > |r|;
    } else {
      JoinConcat(Inner(root), segments, '\\');
      assert (b + "\\" + r)[..|b|] == b;
      assert |b + "\\" + r| == |root + "\\" + r| ==> |b| == |root|;
      assert (root + "\\" + r)[..|root|] == root;
    }
  }

  lemma CleanTextIff(root: string)
    requires '\\' in root
    ensures Join(Inner(root), '\\') == root <==> CleanText(root)
  {
    hide Norm, Trim, Ordinary;
    CleanRelativeIsInner(root);
    if CleanText(root) {
      TrimmedIsFixed(root);
      var s := Split(root, '\\');
      JoinSplit(root, '\\');
      SplitIsWithout(root, '\\');
      SplitKeepsWithout(root, '\\', '/');
      SwapJoin(s, '\\', '/');
      SplitJoin(s, '/');
      ResolvedIsFixed(false, s);
    }
    if Join(Inner(root), '\\') == root {
      SplitJoin(Inner(root), '\\');
      NoSlashJoined(Inner(root));
      InnerShortens(root);
      UntrimmedIsShortened(root);
    }
  }

  lemma InnerShortens(root: string)
    ensures |Join(Inner(root), '\\')| <= |Trim(root)|
  {
    var s := SegmentsOf(Trim(root));
    NormShortens(false, s);
    JoinSplit(Swap(Trim(root), '\\', '/'), '/');
    JoinHasExtent(s, '/');
    if Inner(root) != [] {
      JoinHasExtent(Inner(root), '\\');
    }
  }

  lemma UntrimmedIsShortened(s: string)
    ensures |Trim(s)| <= |s| && (|Trim(s)| == |s| ==> Trimmed(s))
  {
    TrimIsIdempotent(s);
    TrimLeftIsShorter(s);
    TrimRightIsShorter(TrimLeft(s));
  }

  lemma {:induction false} TrimLeftIsShorter(s: string)
    ensures |TrimLeft(s)| <= |s| && (|TrimLeft(s)| == |s| ==> TrimLeft(s) == s)
  {
    if s != "" && IsSpace(s[0]) {
      TrimLeftIsShorter(s[1..]);
    }
  }

  lemma {:induction false} TrimRightIsShorter(s: string)
    ensures |TrimRight(s)| <= |s| && (|TrimRight(s)| == |s| ==> TrimRight(s) == s)
  {
    if s != "" && IsSpace(s[|s| - 1]) {
      TrimRightIsShorter(s[..|s| - 1]);
    }
  }

  lemma OrdinaryIsNotEmpty(s: string)
    requires Ordinary(s)
    ensures s != ""
  {
  }

  /**
    Uncut, a single file lands below the library root at the segments its name stands for, if and only if
    cleaning leaves the root where it is.
  */
  lemma SinglePlanStaysUnderRootIff(root: string, rendered: string, replaceColon: bool, maxPathLen: int)
    requires Uncut(rendered, replaceColon, maxPathLen)
    ensures At(root, Names(rendered, replaceColon), Target(root, SingleRelative(rendered, replaceColon, maxPathLen)))
            <==> KeepsPlace(root)
  {
    hide At, Target, Names, Tight, Uncut, Sanitized, Join;
    UncutIsExact(rendered, replaceColon, maxPathLen);
    TargetIsAtIff(root, Names(rendered, replaceColon), SingleRelative(rendered, replaceColon, maxPathLen));
  }

  /** Uncut, a track lands below the library root, in its folder and under its own name, under the same condition. */
  lemma TrackPlanStaysUnderRootIff(root: string, folder: string, name: string, replaceColon: bool, maxPathLen: int)
    requires Uncut(folder, replaceColon, maxPathLen) && Uncut(name, replaceColon, maxPathLen)
    ensures At(root, Names(folder, replaceColon) + Names(name, replaceColon),
               Target(root, TrackRelative(root, folder, name, replaceColon, maxPathLen)))
            <==> KeepsPlace(root)
  {
    hide At, Target, Names, Tight, Uncut, Sanitized, Join, CleanRelative, JoinWithStyle;
    UncutIsExact(folder, replaceColon, maxPathLen);
    UncutIsExact(name, replaceColon, maxPathLen);
    var f, n := Names(folder, replaceColon), Names(name, replaceColon);
    SlashTrack(f, n);
    BackslashTrack(f, n);
    TightConcat(f, n);
    TargetIsAtIff(root, f + n, TrackRelative(root, folder, name, replaceColon, maxPathLen));
  }

  // ---- when the path limit cuts

  /** The name the limit has to cut. */
  function Whole(rendered: string, replaceColon: bool): string {
    Join(Names(rendered, replaceColon), '\\')
  }

  // only `..` leads out of the root; a cut after whole segments at worst gives one of them back
  lemma CutStays(root: string, segments: seq<string>, k: nat, p: string)
    requires AllOrdinary(segments) && Without(segments, '\\') && k < |segments| && p <= segments[k]
    requires k > 0 || (p != "" && p != "..")
    ensures var b := Norm(Rooted(root), Split(root, '/') + (segments[..k] + [p])); Parse(root) <= b
  {
    hide Split, Ordinary, Norm;
    var a := Split(root, '/');
    NormAppends(Rooted(root), a, segments[..k]);
    assert (a + (segments[..k] + [p]))[..|a| + k] == a + segments[..k];
    LastSegment(Rooted(root), a + segments[..k], p);
    PrefixIsOrdinary(p, segments[k]);
    if k > 0 {
      OrdinaryIsNotDotDot(segments[k - 1]);
      assert segments[..k] == segments[..k - 1] + [segments[k - 1]];
      assert Parse(root) + segments[..k] == Parse(root) + segments[..k - 1] + [segments[k - 1]];
    }
    assert a + (segments[..k] + [p]) == a + segments[..k] + [p];
  }

  lemma LastSegment(rooted: bool, front: seq<string>, p: string)
    ensures Norm(rooted, front + [p])
            == Resolve(rooted, Norm(rooted, front), p)
  {
    hide Resolve;
    assert (front + [p])[..|front|] == front;
  }

  lemma OrdinaryIsNotDotDot(s: string)
    requires Ordinary(s)
    ensures s != ".."
  {
  }

  lemma PrefixIsOrdinary(p: string, s: string)
    requires Ordinary(s) && p <= s
    ensures Ordinary(p) || p == "" || p == "." || p == ".."
  {
  }

  lemma DotDotIsCut(rendered: string, replaceColon: bool, maxPathLen: int)
    ensures Sanitized(rendered, replaceColon, maxPathLen) == ".."
            <==> maxPathLen == 2 && ".." < Whole(rendered, replaceColon)
  {
    hide Parts, Good, Segments, Join;
    SegmentsAreGood(Parts(rendered), replaceColon);
    var s := Names(rendered, replaceColon);
    AllGoodIsOrdinary(s, replaceColon);
    WholeIsNotDotDot(s);
  }

  lemma WholeIsNotDotDot(segments: seq<string>)
    requires AllOrdinary(segments) && Without(segments, '\\')
    ensures Join(segments, '\\') != ".."
  {
    SplitWord("..", '\\');
    if segments != [] {
      SplitJoin(segments, '\\');
      assert Ordinary(segments[0]);
    }
  }

  /** Where the root leads, in its own style. */
  function Home(root: string): seq<string> {
    if StyleOf(root).Slash? then Parse(root) else Place(root)
  }

  ghost predicate Below(root: string, target: string) {
    if StyleOf(root).Slash? then Rooted(target) == Rooted(root) && Parse(root) <= Parse(target)
    else Lead(target) == Lead(root) && Place(root) <= Place(target)
  }

  /** A root that names a directory and that the renamer's cleaning leaves where it is. */
  predicate OrdinaryRoot(root: string) {
    KeepsPlace(root) && Home(root) != [] && Home(root)[|Home(root)| - 1] != ".."
  }

  /** The limit cuts a name to two dots; in backslash style a blank behind them is trimmed. */
  predicate CutToDots(style: Style, whole: string, maxPathLen: int) {
    (maxPathLen == 2 && ".." < whole) || (style.Backslash? && maxPathLen == 3 && ".. " < whole)
  }

  /**
    Below an ordinary root, whatever is cut, a single file's target stays below the root unless the limit cuts
    its name to two dots.
  */
  lemma SinglePlanEscapesIff(root: string, rendered: string, replaceColon: bool, maxPathLen: int)
    requires OrdinaryRoot(root)
    ensures !Below(root, Target(root, SingleRelative(rendered, replaceColon, maxPathLen)))
            <==> CutToDots(StyleOf(root), Whole(rendered, replaceColon), maxPathLen)
  {
    hide Whole, Home, KeepsPlace, Place, Parse, Lead, Sanitized, Target;
    if StyleOf(root).Slash? {
      SlashPlanEscapesIff(root, rendered, replaceColon, maxPathLen);
    } else {
      BackslashPlanEscapesIff(root, rendered, replaceColon, maxPathLen);
    }
  }

  lemma SlashPlanEscapesIff(root: string, rendered: string, replaceColon: bool, maxPathLen: int)
    requires StyleOf(root).Slash? && OrdinaryRoot(root)
    ensures !Below(root, Target(root, SingleRelative(rendered, replaceColon, maxPathLen)))
            <==> maxPathLen == 2 && ".." < Whole(rendered, replaceColon)
  {
    var rel := Sanitized(rendered, replaceColon, maxPathLen);
    DotDotIsCut(rendered, replaceColon, maxPathLen);
    if rel == ".." {
      DotDotEscapes(root);
    } else {
      var s := Names(rendered, replaceColon);
      SegmentsAreGood(Parts(rendered), replaceColon);
      AllGoodIsOrdinary(s, replaceColon);
      hide Norm, Parts, Segments, Good, Join, Split, Ordinary;
      if rel == "" {
        CleanKeepsParse(root);
        CleanKeepsParse(PathClean(root));
        SwapAbsent("", '\\', '/');
      } else {
        var k, p := CutJoined(s, |rel|);
        assert rel == Join(s, '\\')[..|rel|];
        var q := s[..k] + [p];
        SwapCut(s, k, p);
        SwapJoin(q, '\\', '/');
        JustDots(p);
        CutStays(root, s, k, p);
        FirstIsNotEmpty(s, k, p);
        JoinParses(root, q);
        CleanKeepsParse(PathJoin(root, Join(q, '/')));
      }
    }
  }

  lemma FirstIsNotEmpty(s: seq<string>, k: nat, p: string)
    requires AllOrdinary(s) && k < |s| && (k == 0 ==> p != "")
    ensures (s[..k] + [p])[0] != ""
  {
    assert k > 0 ==> Ordinary(s[0]);
  }

  lemma JustDots(p: string)
    ensures Join([] + [p], '\\') == p
  {
  }

  lemma DotDotEscapes(root: string)
    requires StyleOf(root).Slash? && OrdinaryRoot(root)
    ensures Parse(Target(root, "..")) == Parse(root)[..|Parse(root)| - 1]
  {
    SwapAbsent("..", '\\', '/');
    assert Join([".."], '/') == "..";
    JoinParses(root, [".."]);
    var a := Split(root, '/');
    assert (a + [".."])[..|a|] == a;
    CleanKeepsParse(PathJoin(root, ".."));
  }

  // in backslash style the end of a cut name is trimmed, which is one more cut
  lemma BackslashPlanEscapesIff(root: string, rendered: string, replaceColon: bool, maxPathLen: int)
    requires StyleOf(root).Backslash? && OrdinaryRoot(root)
    ensures !Below(root, Target(root, SingleRelative(rendered, replaceColon, maxPathLen)))
            <==> CutToDots(Backslash, Whole(rendered, replaceColon), maxPathLen)
  {
    hide Whole, Inner, Place, Lead, Sanitized, CleanRelative, Norm, Resolved, Good, CutToDots, Trim, Segments, Names;
    var rel := Sanitized(rendered, replaceColon, maxPathLen);
    var s := Names(rendered, replaceColon);
    NamesAreGood(rendered, replaceColon, maxPathLen);
    DotsAreCut(rendered, replaceColon, maxPathLen);
    InnerOfCut(s, replaceColon, rel);
    BackslashJoin(root, rel);
    FirstIsText(Inner(root), Inner(rel));
    JoinedPlace(Inner(root) + Inner(rel));
    ResolvedIsFixed(false, Inner(root));
    if Trim(rel) == ".." {
      LastSegment(false, Inner(root), "..");
    } else {
      NormAppends(false, Inner(root), Inner(rel));
    }
  }

  lemma NamesAreGood(rendered: string, replaceColon: bool, maxPathLen: int)
    ensures AllGood(Names(rendered, replaceColon), replaceColon)
    ensures Sanitized(rendered, replaceColon, maxPathLen) <= Whole(rendered, replaceColon)
    ensures Whole(rendered, replaceColon) == Join(Names(rendered, replaceColon), '\\')
    ensures Sanitized(rendered, replaceColon, maxPathLen) == CutPath(Whole(rendered, replaceColon), maxPathLen)
  {
    hide Parts, Segments;
    SegmentsAreGood(Parts(rendered), replaceColon);
  }

  // where the beginning of a sanitized name leads in backslash style
  lemma InnerOfCut(s: seq<string>, replaceColon: bool, rel: string)
    requires AllGood(s, replaceColon) && rel <= Join(s, '\\')
    ensures if Trim(rel) == ".." then Inner(rel) == [".."] else AllOrdinary(Inner(rel))
  {
    hide Good, Ordinary, Split, Swap, Join, Trim, Norm;
    AllGoodIsOrdinary(s, replaceColon);
    TrimOfCut(s, replaceColon, rel);
    var t := Trim(rel);
    if t == "" {
      CleanOfNothing();
      SwapAbsent("", '\\', '/');
    } else {
      assert t == Join(s, '\\')[..|t|];
      var k, p := CutJoined(s, |t|);
      var q := s[..k] + [p];
      SwapCut(s, k, p);
      SwapJoin(q, '\\', '/');
      SplitJoin(q, '/');
      assert Inner(rel) == Norm(false, q);
      NormAppends(false, [], s[..k]);
      NormOfNothing();
      assert [] + s[..k] == s[..k];
      LastSegment(false, s[..k], p);
      JustDots(p);
      PrefixIsOrdinary(p, s[k]);
      if k > 0 {
        OrdinaryIsNotDotDot(s[k - 1]);
        BackslashInside(s[..k], p);
      }
    }
  }

  lemma NormOfNothing()
    ensures Norm(false, []) == []
  {
  }

  lemma BackslashInside(front: seq<string>, p: string)
    requires front != []
    ensures Join(front + [p], '\\') != ".."
  {
    JoinConcat(front, [p], '\\');
    var j := Join(front + [p], '\\');
    assert j[|Join(front, '\\')|] == '\\';
  }

  lemma TrimOfCut(s: seq<string>, replaceColon: bool, rel: string)
    requires AllGood(s, replaceColon) && rel <= Join(s, '\\')
    ensures Trim(rel) <= rel
  {
    if rel != "" {
      assert Good(s[0], replaceColon);
      JoinStartsWithFirst(s, '\\');
    }
    TrimRightIsPrefix(rel);
  }

  lemma {:induction false} TrimRightIsPrefix(s: string)
    ensures TrimRight(s) <= s && forall i :: |TrimRight(s)| <= i < |s| ==> IsSpace(s[i])
  {
    if s != "" && IsSpace(s[|s| - 1]) {
      TrimRightIsPrefix(s[..|s| - 1]);
    }
  }

  lemma DotsAreCut(rendered: string, replaceColon: bool, maxPathLen: int)
    ensures Trim(Sanitized(rendered, replaceColon, maxPathLen)) == ".."
            <==> CutToDots(Backslash, Whole(rendered, replaceColon), maxPathLen)
  {
    hide Whole, Sanitized, Names, Good, Trim, Join;
    NamesAreGood(rendered, replaceColon, maxPathLen);
    var whole, rel := Whole(rendered, replaceColon), Sanitized(rendered, replaceColon, maxPathLen);
    TrimmedDots();
    TrimOfCut(Names(rendered, replaceColon), replaceColon, rel);
    if Trim(rel) == ".." {
      DotsBehind(Names(rendered, replaceColon), replaceColon, rel);
    }
    if CutToDots(Backslash, whole, maxPathLen) {
      assert rel == whole[..maxPathLen];
      assert rel == ".." || rel == ".. ";
    }
  }

  lemma TrimmedDots()
    ensures Trim("..") == ".." && Trim(".. ") == ".."
  {
    TrimmedIsFixed("..");
    assert ".. "[..2] == "..";
  }

  // behind two dots at the start of a name there is at most one blank, and more
  lemma DotsBehind(s: seq<string>, replaceColon: bool, rel: string)
    requires AllGood(s, replaceColon) && rel <= Join(s, '\\') && Trim(rel) == ".."
    ensures (rel == ".." || rel == ".. ") && rel < Join(s, '\\')
  {
    var whole := Join(s, '\\');
    TrimOfCut(s, replaceColon, rel);
    TrimRightIsPrefix(rel);
    assert Good(s[0], replaceColon);
    StartsWithFirst(s);
    assert whole[0] == '.' && whole[1] == '.';
    assert |s[0]| > 2;
    assert |rel| > 2 ==> s[0][2] == rel[2] && IsSpace(s[0][2]);
  }

  lemma StartsWithFirst(s: seq<string>)
    requires s != []
    ensures s[0] <= Join(s, '\\') && (s[0] == Join(s, '\\') || Join(s, '\\')[|s[0]|] == '\\')
  {
  }
}
