/** Slash-separated paths as text: splitting, joining, and the lexical cleaning of Go's `path.Clean`. */
module Paths {

  /** `strings.Split` by one character. */
  function Split(s: string, sep: char): (r: seq<string>)
    ensures r != []
  {
    if s == "" then [""]
    else
      var rest := Split(s[1..], sep);
      if s[0] == sep then [""] + rest else [[s[0]] + rest[0]] + rest[1..]
  }

  /** `strings.Join` with one character. */
  function Join(parts: seq<string>, sep: char): string {
    if parts == [] then ""
    else if |parts| == 1 then parts[0]
    else parts[0] + [sep] + Join(parts[1..], sep)
  }

  /** `strings.ReplaceAll` of one character by another. */
  function Swap(s: string, from: char, to: char): (r: string)
    ensures |r| == |s|
  {
    seq(|s|, i requires 0 <= i < |s| => if s[i] == from then to else s[i])
  }

  lemma {:induction false} SplitWord(s: string, sep: char)
    requires sep !in s
    ensures Split(s, sep) == [s]
  {
    if s != "" {
      SplitWord(s[1..], sep);
      assert s == [s[0]] + s[1..];
    }
  }

  lemma {:induction false} SplitConcat(a: string, b: string, sep: char)
    ensures Split(a + [sep] + b, sep) == Split(a, sep) + Split(b, sep)
  {
    if a == "" {
      assert (a + [sep] + b)[1..] == b;
    } else {
      assert (a + [sep] + b)[1..] == a[1..] + [sep] + b;
      SplitConcat(a[1..], b, sep);
    }
  }

  ghost predicate Without(parts: seq<string>, sep: char) {
    forall i :: 0 <= i < |parts| ==> sep !in parts[i]
  }

  lemma {:induction false} SplitIsWithout(s: string, sep: char)
    ensures Without(Split(s, sep), sep)
  {
    if s != "" {
      SplitIsWithout(s[1..], sep);
    }
  }

  /** Splitting undoes joining. */
  lemma {:induction false} SplitJoin(parts: seq<string>, sep: char)
    requires parts != [] && Without(parts, sep)
    ensures Split(Join(parts, sep), sep) == parts
  {
    SplitWord(parts[0], sep);
    if |parts| > 1 {
      SplitJoin(parts[1..], sep);
      SplitConcat(parts[0], Join(parts[1..], sep), sep);
    }
  }

  lemma SwapConcat(a: string, b: string, from: char, to: char)
    ensures Swap(a + b, from, to) == Swap(a, from, to) + Swap(b, from, to)
  {
  }

  lemma SwapAbsent(s: string, from: char, to: char)
    requires from !in s
    ensures Swap(s, from, to) == s
  {
  }

  lemma {:induction false} SwapJoin(parts: seq<string>, from: char, to: char)
    requires Without(parts, from)
    ensures Swap(Join(parts, from), from, to) == Join(parts, to)
  {
    if parts != [] {
      SwapAbsent(parts[0], from, to);
      if |parts| > 1 {
        SwapJoin(parts[1..], from, to);
        hide Swap;
        SwapConcat(parts[0] + [from], Join(parts[1..], from), from, to);
        SwapConcat(parts[0], [from], from, to);
        SwapOne(from, to);
      }
    }
  }

  lemma SwapOne(from: char, to: char)
    ensures Swap([from], from, to) == [to]
  {
  }

  // ---- cleaning

  /** One more segment behind resolved ones. */
  function Resolve(rooted: bool, front: seq<string>, last: string): seq<string> {
    if last == "" || last == "." then front
    else if last == ".." then
      if front != [] && front[|front| - 1] != ".." then front[..|front| - 1]
      else if rooted then front
      else front + [last]
    else front + [last]
  }

  /** Resolves empty, `.` and `..` segments. */
  function Norm(rooted: bool, segments: seq<string>): seq<string> {
    if segments == [] then []
    else Resolve(rooted, Norm(rooted, segments[..|segments| - 1]), segments[|segments| - 1])
  }

  predicate Rooted(s: string) {
    s != "" && s[0] == '/'
  }

  /** The cleaned segments of a path. */
  function Parse(s: string): seq<string> {
    Norm(Rooted(s), Split(s, '/'))
  }

  /** `path.Clean` */
  function PathClean(s: string): string {
    if Rooted(s) then "/" + Join(Parse(s), '/')
    else if Parse(s) == [] then "."
    else Join(Parse(s), '/')
  }

  predicate Ordinary(segment: string) {
    segment != "" && segment != "." && segment != ".." && '/' !in segment
  }

  ghost predicate AllOrdinary(segments: seq<string>) {
    forall i :: 0 <= i < |segments| ==> Ordinary(segments[i])
  }

  /** Ordinary segments, in a relative path after leading `..` segments. */
  ghost predicate Resolved(rooted: bool, segments: seq<string>) {
    forall i :: 0 <= i < |segments| ==>
      Ordinary(segments[i]) || (!rooted && segments[i] == ".." && forall k :: 0 <= k < i ==> segments[k] == "..")
  }

  lemma {:induction false} NormResolves(rooted: bool, segments: seq<string>)
    requires Without(segments, '/')
    ensures Resolved(rooted, Norm(rooted, segments))
  {
    if segments != [] {
      NormResolves(rooted, segments[..|segments| - 1]);
    }
  }

  lemma {:induction false} ResolvedIsFixed(rooted: bool, segments: seq<string>)
    requires Resolved(rooted, segments)
    ensures Norm(rooted, segments) == segments
  {
    if segments != [] {
      var n := |segments| - 1;
      ResolvedIsFixed(rooted, segments[..n]);
      assert segments == segments[..n] + [segments[n]];
      assert segments[n] == ".." && n > 0 ==> segments[..n][n - 1] == "..";
    }
  }

  lemma {:induction false} NormWithout(rooted: bool, segments: seq<string>, c: char)
    requires Without(segments, c)
    ensures Without(Norm(rooted, segments), c)
  {
    if segments != [] {
      NormWithout(rooted, segments[..|segments| - 1], c);
    }
  }

  lemma {:induction false} SplitKeepsWithout(s: string, sep: char, c: char)
    requires c !in s
    ensures Without(Split(s, sep), c)
  {
    if s != "" {
      SplitKeepsWithout(s[1..], sep, c);
    }
  }

  /** What the segments take up, a separator behind each. */
  function Extent(segments: seq<string>): nat {
    if segments == [] then 0 else Extent(segments[..|segments| - 1]) + |segments[|segments| - 1]| + 1
  }

  /** Resolving segments never makes the path longer. */
  lemma {:induction false} NormShortens(rooted: bool, segments: seq<string>)
    ensures Extent(Norm(rooted, segments)) <= Extent(segments)
  {
    if segments != [] {
      var front := Norm(rooted, segments[..|segments| - 1]);
      NormShortens(rooted, segments[..|segments| - 1]);
      var last := segments[|segments| - 1];
      assert (front + [last])[..|front|] == front;
    }
  }

  lemma {:induction false} ExtentConcat(a: seq<string>, b: seq<string>)
    ensures Extent(a + b) == Extent(a) + Extent(b)
  {
    if b == [] {
      assert a + b == a;
    } else {
      assert (a + b)[..|a + b| - 1] == a + b[..|b| - 1];
      ExtentConcat(a, b[..|b| - 1]);
    }
  }

  lemma {:induction false} JoinHasExtent(parts: seq<string>, sep: char)
    requires parts != []
    ensures |Join(parts, sep)| + 1 == Extent(parts)
  {
    ExtentConcat([parts[0]], parts[1..]);
    assert [parts[0]] + parts[1..] == parts && [parts[0]][..0] == [];
    assert Extent([parts[0]]) == |parts[0]| + 1;
    if |parts| > 1 {
      JoinHasExtent(parts[1..], sep);
    }
  }

  /** Joining undoes splitting. */
  lemma {:induction false} JoinSplit(s: string, sep: char)
    ensures Join(Split(s, sep), sep) == s
  {
    if s != "" {
      JoinSplit(s[1..], sep);
      var rest := Split(s[1..], sep);
      if s[0] == sep {
        assert ([""] + rest)[1..] == rest;
      } else {
        assert ([[s[0]] + rest[0]] + rest[1..])[1..] == rest[1..];
      }
    }
  }

  lemma {:induction false} JoinConcat(a: seq<string>, b: seq<string>, sep: char)
    requires a != [] && b != []
    ensures Join(a + b, sep) == Join(a, sep) + [sep] + Join(b, sep)
  {
    if |a| == 1 {
      assert (a + b)[1..] == b;
    } else {
      assert (a + b)[1..] == a[1..] + b;
      JoinConcat(a[1..], b, sep);
    }
  }

  /** Ordinary segments are appended as they are. */
  lemma {:induction false} NormAppends(rooted: bool, a: seq<string>, b: seq<string>)
    requires AllOrdinary(b)
    ensures Norm(rooted, a + b) == Norm(rooted, a) + b
  {
    if b == [] {
      assert a + b == a;
    } else {
      var n := |b| - 1;
      assert (a + b)[..|a + b| - 1] == a + b[..n];
      NormAppends(rooted, a, b[..n]);
      assert b == b[..n] + [b[n]];
    }
  }

  lemma NormSkipsEmpty(rooted: bool, segments: seq<string>)
    ensures Norm(rooted, [""] + segments) == Norm(rooted, segments)
    decreases |segments|
  {
    if segments == [] {
      assert [""][..0] == [];
      assert ([""] + segments)[..|[""] + segments| - 1] == [];
    } else {
      var n := |segments| - 1;
      assert ([""] + segments)[..n + 1] == [""] + segments[..n];
      NormSkipsEmpty(rooted, segments[..n]);
    }
  }

  lemma ResolvedIsWithout(rooted: bool, segments: seq<string>)
    requires Resolved(rooted, segments)
    ensures Without(segments, '/') && forall i :: 0 <= i < |segments| ==> segments[i] != ""
  {
  }

  lemma {:induction false} JoinStartsWithFirst(parts: seq<string>, sep: char)
    requires parts != [] && parts[0] != ""
    ensures Join(parts, sep) != "" && Join(parts, sep)[0] == parts[0][0]
  {
  }

  /** Cleaning does not change where a path leads. */
  lemma CleanKeepsParse(s: string)
    ensures Parse(PathClean(s)) == Parse(s) && Rooted(PathClean(s)) == Rooted(s)
  {
    var r := Parse(s);
    SplitIsWithout(s, '/');
    NormResolves(Rooted(s), Split(s, '/'));
    ResolvedIsWithout(Rooted(s), r);
    ResolvedIsFixed(Rooted(s), r);
    hide Norm, Resolved;
    if r == [] {
      CleanOfNothing();
    } else {
      SplitJoin(r, '/');
      JoinStartsWithFirst(r, '/');
      assert r[0][0] in r[0];
      assert !Rooted(Join(r, '/'));
      if Rooted(s) {
        assert "/" + Join(r, '/') == "" + ['/'] + Join(r, '/');
        SplitConcat("", Join(r, '/'), '/');
        SplitWord("", '/');
        NormSkipsEmpty(true, r);
      }
    }
  }

  lemma CleanOfNothing()
    ensures Parse("/") == [] && Parse(".") == [] && Parse("") == []
  {
    SplitWord("", '/');
    SplitWord(".", '/');
    SplitConcat("", "", '/');
    assert "" + ['/'] + "" == "/";
    assert [""][..0] == [] && ["."][..0] == [];
    assert Norm(true, [""]) == [];
    NormSkipsEmpty(true, [""]);
  }

  lemma CleanIsIdempotent(s: string)
    ensures PathClean(PathClean(s)) == PathClean(s)
  {
    CleanKeepsParse(s);
  }

  /** Cleaning changes nothing about ordinary segments. */
  lemma CleanOfOrdinary(segments: seq<string>)
    requires AllOrdinary(segments)
    ensures Parse(Join(segments, '/')) == segments && !Rooted(Join(segments, '/'))
    ensures PathClean(Join(segments, '/')) == if segments == [] then "." else Join(segments, '/')
  {
    if segments == [] {
      CleanOfNothing();
    } else {
      JoinStartsWithFirst(segments, '/');
      assert segments[0][0] in segments[0];
      SplitJoin(segments, '/');
      NormAppends(false, [], segments);
      assert [] + segments == segments;
      assert Norm(false, []) == [];
    }
  }

  /** `filepath.Join` of two elements. */
  function PathJoin(a: string, b: string): string {
    if a == "" && b == "" then ""
    else if a == "" then PathClean(b)
    else if b == "" then PathClean(a)
    else PathClean(a + "/" + b)
  }

  /** Where a path leads when more segments are put behind it. */
  lemma JoinParses(a: string, segments: seq<string>)
    requires segments != [] && Without(segments, '/') && segments[0] != ""
    ensures var b := Join(segments, '/');
            Parse(PathJoin(a, b)) == Norm(Rooted(a), Split(a, '/') + segments) && Rooted(PathJoin(a, b)) == Rooted(a)
  {
    var b := Join(segments, '/');
    JoinStartsWithFirst(segments, '/');
    SplitJoin(segments, '/');
    if a == "" {
      assert segments[0][0] in segments[0];
      SplitWord("", '/');
      NormSkipsEmpty(false, segments);
      CleanKeepsParse(b);
    } else {
      assert a + "/" + b == a + ['/'] + b;
      SplitConcat(a, b, '/');
      CleanKeepsParse(a + "/" + b);
    }
  }

  // ---- cutting joined segments

  // a nonempty prefix of joined segments is some of them and a prefix of the next
  lemma {:induction false} CutJoined(segments: seq<string>, n: nat) returns (k: nat, p: string)
    requires AllOrdinary(segments) && Without(segments, '\\') && 0 < n <= |Join(segments, '\\')|
    ensures k < |segments| && p <= segments[k]
    ensures Join(segments, '\\')[..n] == Join(segments[..k] + [p], '\\')
    ensures k == 0 ==> p != ""
  {
    var s, j := segments[0], Join(segments, '\\');
    if n <= |s| {
      k, p := 0, s[..n];
      assert j[..n] == s[..n];
      assert segments[..0] + [p] == [p];
    } else if n == |s| + 1 {
      k, p := 1, "";
      assert j[..n] == s + ['\\'];
      assert segments[..1] + [p] == [s, ""];
      JoinConcat([s], [""], '\\');
      assert [s] + [""] == [s, ""];
    } else {
      k, p := CutJoined(segments[1..], n - |s| - 1);
      assert j[..n] == s + ['\\'] + Join(segments[1..], '\\')[..n - |s| - 1];
      JoinConcat([s], segments[1..][..k] + [p], '\\');
      k := k + 1;
      assert segments[..k] + [p] == [s] + (segments[1..][..k - 1] + [p]);
    }
  }

  lemma SwapCut(segments: seq<string>, k: nat, p: string)
    requires Without(segments, '\\') && k < |segments| && p <= segments[k]
    ensures Without(segments[..k] + [p], '\\')
    ensures Without(segments, '/') ==> Without(segments[..k] + [p], '/')
  {
    assert forall c :: c in p ==> c in segments[k];
  }
}
