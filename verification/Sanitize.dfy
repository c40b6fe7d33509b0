/** Turning a rendered name into a relative path that every supported file system accepts. */
module Sanitize {
  import opened Text
  import opened Paths

  const INVALID: string := "<>\"|?*"
  const MAX_SEGMENT: nat := 120

  // ---- the steps for one segment

  /** `strings.ReplaceAll(s, c, "")` */
  function Remove(s: string, c: char): string {
    if s == "" then "" else (if s[0] == c then "" else [s[0]]) + Remove(s[1..], c)
  }

  function RemoveAll(s: string, chars: string): string {
    if chars == "" then s else Remove(RemoveAll(s, chars[..|chars| - 1]), chars[|chars| - 1])
  }

  /** `strings.ReplaceAll(s, ":", " -")` */
  function Colons(s: string): string {
    if s == "" then "" else (if s[0] == ':' then " -" else [s[0]]) + Colons(s[1..])
  }

  /** `strings.TrimRight(s, ". ")` */
  function TrimDots(s: string): string {
    if s != "" && (s[|s| - 1] == '.' || s[|s| - 1] == ' ') then TrimDots(s[..|s| - 1]) else s
  }

  function Tidy(part: string, replaceColon: bool): string {
    var t := Trim(part);
    var c := if replaceColon then Colons(t) else t;
    TrimDots(Join(Fields(RemoveAll(c, INVALID + "/\\")), ' '))
  }

  function Cut(s: string, n: nat): (r: string)
    ensures r == s || (|r| == n && r < s)
    ensures |r| <= n && r <= s
  {
    if |s| > n then s[..n] else s
  }

  /** The segments that are left of the parts of a name. */
  function Segments(parts: seq<string>, replaceColon: bool): seq<string> {
    if parts == [] then []
    else
      var t := Tidy(parts[|parts| - 1], replaceColon);
      Segments(parts[..|parts| - 1], replaceColon) + if t == "" then [] else [Cut(t, MAX_SEGMENT)]
  }

  function Parts(rel: string): seq<string> {
    Split(Swap(rel, '\\', '/'), '/')
  }

  function CutPath(s: string, maxPathLen: int): (r: string)
    ensures maxPathLen > 0 ==> |r| <= maxPathLen
    ensures r <= s
  {
    if maxPathLen > 0 then Cut(s, maxPathLen) else s
  }

  /** The cleaning of the joined path does not occur here: it never changes anything. */
  function Sanitized(rel: string, replaceColon: bool, maxPathLen: int): string {
    CutPath(Join(Segments(Parts(rel), replaceColon), '\\'), maxPathLen)
  }

  // ---- what a tidied segment looks like

  /** No space in front, no two spaces in a row, none but blanks. */
  predicate Spaced(s: string) {
    && (s != "" ==> !IsSpace(s[0]))
    && (forall i :: 0 <= i < |s| && IsSpace(s[i]) ==> s[i] == ' ')
    && (forall i, k :: 0 <= i < |s| - 1 && k == i + 1 && IsSpace(s[i]) ==> !IsSpace(s[k]))
  }

  predicate NoneOf(s: string, chars: string) {
    forall i :: 0 <= i < |chars| ==> chars[i] !in s
  }

  predicate Neat(s: string, replaceColon: bool) {
    s != "" && Spaced(s) && NoneOf(s, INVALID + "/\\") && (replaceColon ==> ':' !in s)
  }

  predicate TightEnd(s: string) {
    s != "" && s[|s| - 1] != '.' && s[|s| - 1] != ' '
  }

  ghost predicate Subset(s: string, t: string) {
    forall c :: c in s ==> c in t
  }

  lemma {:induction false} RemoveFacts(s: string, c: char)
    ensures c !in Remove(s, c) && Subset(Remove(s, c), s)
    ensures c !in s ==> Remove(s, c) == s
  {
    if s != "" {
      RemoveFacts(s[1..], c);
      assert s == [s[0]] + s[1..];
    }
  }

  lemma {:induction false} RemoveAllFacts(s: string, chars: string)
    ensures NoneOf(RemoveAll(s, chars), chars) && Subset(RemoveAll(s, chars), s)
    ensures NoneOf(s, chars) ==> RemoveAll(s, chars) == s
  {
    if chars != "" {
      var n := |chars| - 1;
      RemoveAllFacts(s, chars[..n]);
      RemoveFacts(RemoveAll(s, chars[..n]), chars[n]);
      assert forall i :: 0 <= i < n ==> chars[i] == chars[..n][i];
    }
  }

  lemma {:induction false} ColonsFacts(s: string)
    ensures ':' !in Colons(s) && (':' !in s ==> Colons(s) == s)
  {
    if s != "" {
      ColonsFacts(s[1..]);
      assert s == [s[0]] + s[1..];
    }
  }

  predicate IsWord(s: string) {
    s != "" && forall i :: 0 <= i < |s| ==> !IsSpace(s[i])
  }

  lemma {:induction false} WordFacts(s: string)
    ensures forall i :: 0 <= i < |Word(s)| ==> !IsSpace(Word(s)[i])
    ensures Word(s) <= s && (|Word(s)| < |s| ==> IsSpace(s[|Word(s)|]))
  {
    if s != "" && !IsSpace(s[0]) {
      WordFacts(s[1..]);
      assert s == [s[0]] + s[1..];
    }
  }

  lemma {:induction false} TrimLeftIsSuffix(s: string)
    ensures Subset(TrimLeft(s), s)
  {
    if s != "" && IsSpace(s[0]) {
      TrimLeftIsSuffix(s[1..]);
    }
  }

  lemma {:induction false} FieldsFacts(s: string)
    ensures forall i :: 0 <= i < |Fields(s)| ==> IsWord(Fields(s)[i]) && Subset(Fields(s)[i], s)
    decreases |s|
  {
    TrimLeftShortens(s);
    TrimLeftIsSuffix(s);
    var t := TrimLeft(s);
    if t != "" {
      WordFacts(t);
      FieldsFacts(t[|Word(t)|..]);
    }
  }

  lemma {:induction false} JoinedWordsAreSpaced(words: seq<string>)
    requires forall i :: 0 <= i < |words| ==> IsWord(words[i])
    ensures Spaced(Join(words, ' ')) && (words != [] ==> Join(words, ' ') != "")
  {
    if |words| > 1 {
      JoinedWordsAreSpaced(words[1..]);
      SpacedConcat(words[0], Join(words[1..], ' '));
    }
  }

  lemma SpacedConcat(word: string, rest: string)
    requires IsWord(word) && Spaced(rest) && rest != ""
    ensures Spaced(word + [' '] + rest)
  {
    var s, n := word + [' '] + rest, |word|;
    forall i | 0 <= i < |s|
      ensures s[i] == if i < n then word[i] else if i == n then ' ' else rest[i - n - 1]
    {
    }
  }

  lemma {:induction false} JoinedCharacters(words: seq<string>, sep: char, t: string)
    requires forall i :: 0 <= i < |words| ==> Subset(words[i], t)
    ensures forall c :: c in Join(words, sep) ==> c == sep || c in t
  {
    if |words| > 1 {
      JoinedCharacters(words[1..], sep, t);
    }
  }

  lemma {:induction false} TrimDotsFacts(s: string)
    ensures TrimDots(s) <= s && (TrimDots(s) == "" || TightEnd(TrimDots(s)))
    ensures TightEnd(s) ==> TrimDots(s) == s
    ensures s != "" && !TightEnd(s) ==> |TrimDots(s)| < |s|
  {
    if s != "" && !TightEnd(s) {
      TrimDotsFacts(s[..|s| - 1]);
    }
  }

  lemma PrefixIsNeat(p: string, s: string, replaceColon: bool)
    requires Neat(s, replaceColon) && p <= s && p != ""
    ensures Neat(p, replaceColon)
  {
    assert forall i :: 0 <= i < |p| ==> p[i] == s[i];
    assert Subset(p, s);
  }

  /** A tidied part is empty, or neat and without a dot or blank at its end. */
  lemma TidyIsNeat(part: string, replaceColon: bool)
    ensures var t := Tidy(part, replaceColon); t == "" || (Neat(t, replaceColon) && TightEnd(t))
  {
    hide Fields, RemoveAll, Colons, TrimDots, Join, Trim, Spaced, IsSpace;
    var c := if replaceColon then Colons(Trim(part)) else Trim(part);
    ColonsFacts(Trim(part));
    RemoveAllFacts(c, INVALID + "/\\");
    var d := RemoveAll(c, INVALID + "/\\");
    FieldsFacts(d);
    JoinedWordsAreSpaced(Fields(d));
    JoinedCharacters(Fields(d), ' ', d);
    var j := Join(Fields(d), ' ');
    assert NoneOf(j, INVALID + "/\\");
    TrimDotsFacts(j);
    if TrimDots(j) != "" {
      PrefixIsNeat(TrimDots(j), j, replaceColon);
    }
  }

  // ---- tidying what is neat already

  lemma {:induction false} FieldsOfSpaced(s: string)
    requires Spaced(s) && Trimmed(s)
    ensures Join(Fields(s), ' ') == s
    decreases |s|
  {
    hide Fields, Word, IsSpace;
    NoFields();
    if s != "" {
      var n := |Word(s)|;
      FirstField(s);
      if n < |s| {
        var rest := s[n + 1..];
        SpacedTail(s, n + 1);
        FieldsOfSpaced(rest);
        assert s == Word(s) + [' '] + rest;
      }
    }
  }

  lemma NoFields()
    ensures Fields("") == []
  {
  }

  // the first word of spaced text, and what follows the blank behind it
  lemma FirstField(s: string)
    requires Spaced(s) && Trimmed(s) && s != ""
    ensures var n := |Word(s)|;
            && 0 < n && Word(s) == s[..n]
            && (n < |s| ==>
                  n + 1 < |s| && s[n] == ' ' && IsSpace(s[n])
                  && Fields(s) == [Word(s)] + Fields(s[n + 1..]) && Fields(s[n + 1..]) != [])
            && (n == |s| ==> Fields(s) == [s])
  {
    var n := |Word(s)|;
    WordFacts(s);
    assert TrimLeft(s) == s;
    if n < |s| {
      SpacedTail(s, n + 1);
      assert s[n..][1..] == s[n + 1..];
      SameFields(s[n..], s[n + 1..]);
    } else {
      assert s[n..] == "" && s[..n] == s;
    }
  }

  lemma SpacedTail(s: string, n: nat)
    requires Spaced(s) && Trimmed(s) && 0 < n < |s| && IsSpace(s[n - 1])
    ensures Spaced(s[n..]) && Trimmed(s[n..])
  {
  }

  lemma SameFields(s: string, t: string)
    requires TrimLeft(s) == TrimLeft(t)
    ensures Fields(s) == Fields(t)
  {
  }

  lemma {:induction false} TrimDotsSkipsSpace(s: string)
    requires Spaced(s)
    ensures TrimDots(TrimRight(s)) == TrimDots(s) && Spaced(TrimRight(s)) && TrimRight(s) <= s
    ensures TrimRight(s) == "" || !IsSpace(TrimRight(s)[|TrimRight(s)| - 1])
  {
    if s != "" && IsSpace(s[|s| - 1]) {
      TrimDotsSkipsSpace(s[..|s| - 1]);
    }
  }

  /** Tidying neat text only takes dots and blanks off its end. */
  lemma TidyOfNeat(s: string, replaceColon: bool)
    requires Neat(s, replaceColon)
    ensures Tidy(s, replaceColon) == TrimDots(s)
  {
    var t := Trim(s);
    assert t == TrimRight(s);
    TrimDotsSkipsSpace(s);
    assert Trimmed(t) && Subset(t, s);
    hide Trim, TrimRight, TrimLeft, TrimDots, Fields, RemoveAll, Join, Colons, Spaced, IsSpace, Trimmed;
    ColonsFacts(t);
    RemoveAllFacts(t, INVALID + "/\\");
    assert NoneOf(t, INVALID + "/\\");
    FieldsOfSpaced(t);
  }

  // ---- the whole name

  /** What every segment of a sanitized name is: short, neat, and neither `.` nor `..`. */
  predicate Good(s: string, replaceColon: bool) {
    Neat(s, replaceColon) && |s| <= MAX_SEGMENT && s != "." && s != ".." && (|s| < MAX_SEGMENT ==> TightEnd(s))
  }

  ghost predicate AllGood(segments: seq<string>, replaceColon: bool) {
    forall i :: 0 <= i < |segments| ==> Good(segments[i], replaceColon)
  }

  lemma {:induction false} SegmentsAreGood(parts: seq<string>, replaceColon: bool)
    ensures AllGood(Segments(parts, replaceColon), replaceColon)
  {
    if parts != [] {
      SegmentsAreGood(parts[..|parts| - 1], replaceColon);
      hide Tidy, Neat, Good;
      var t := Tidy(parts[|parts| - 1], replaceColon);
      TidyIsNeat(parts[|parts| - 1], replaceColon);
      if t != "" {
        CutIsGood(t, replaceColon);
      }
    }
  }

  lemma CutIsGood(t: string, replaceColon: bool)
    requires Neat(t, replaceColon) && TightEnd(t)
    ensures Good(Cut(t, MAX_SEGMENT), replaceColon)
  {
    hide Neat;
    PrefixIsNeat(Cut(t, MAX_SEGMENT), t, replaceColon);
  }

  lemma GoodIsOrdinary(s: string, replaceColon: bool)
    requires Good(s, replaceColon)
    ensures Ordinary(s) && '\\' !in s
  {
    var chars := INVALID + "/\\";
    assert chars[6] == '/' && chars[7] == '\\';
  }

  lemma AllGoodIsOrdinary(segments: seq<string>, replaceColon: bool)
    requires AllGood(segments, replaceColon)
    ensures AllOrdinary(segments) && Without(segments, '/') && Without(segments, '\\')
  {
    hide Good, Ordinary;
    forall i | 0 <= i < |segments|
      ensures Ordinary(segments[i]) && '/' !in segments[i] && '\\' !in segments[i]
    {
      GoodIsOrdinary(segments[i], replaceColon);
      OrdinaryHasNoSlash(segments[i]);
    }
  }

  lemma OrdinaryHasNoSlash(s: string)
    requires Ordinary(s)
    ensures '/' !in s
  {
  }

  method SanitizeRelativePath(rel: string, replaceColon: bool, maxPathLen: int) returns (clean: string)
    ensures clean == Sanitized(rel, replaceColon, maxPathLen)
  {
    hide Tidy, Trim, Colons, Remove, Fields, TrimDots, Split, Swap, Join;
    var parts := Split(Swap(rel, '\\', '/'), '/');
    var outParts := [];
    for i := 0 to |parts|
      invariant outParts == Segments(parts[..i], replaceColon)
    {
      assert parts[..i + 1][..i] == parts[..i];
      var p := Trim(parts[i]);
      if p == "" {
        TidyOfBlank(parts[i], replaceColon);
        continue;
      }
      if replaceColon {
        p := Colons(p);
      }
      ghost var c := p;
      for k := 0 to |INVALID|
        invariant p == RemoveAll(c, INVALID[..k])
      {
        assert INVALID[..k + 1][..k] == INVALID[..k];
        p := Remove(p, INVALID[k]);
      }
      assert INVALID[..|INVALID|] == INVALID;
      p := Remove(p, '/');
      p := Remove(p, '\\');
      RemoveSlashes(c);
      p := Join(Fields(p), ' ');
      p := TrimDots(p);
      TidySteps(parts[i], replaceColon);
      if p == "" {
        continue;
      }
      if |p| > 120 {
        p := p[..120];
      }
      outParts := outParts + [p];
    }
    assert parts[..|parts|] == parts;
    SegmentsAreGood(parts, replaceColon);
    AllGoodIsOrdinary(outParts, replaceColon);
    CleanOfOrdinary(outParts);
    clean := PathClean(Join(outParts, '/'));
    if clean == "." {
      clean := "";
    }
    JoinIsNoDot(outParts, replaceColon);
    assert clean == Join(outParts, '/');
    clean := Swap(clean, '/', '\\');
    SwapJoin(outParts, '/', '\\');
    if maxPathLen > 0 && |clean| > maxPathLen {
      clean := clean[..maxPathLen];
    }
  }

  lemma TidySteps(part: string, replaceColon: bool)
    ensures Tidy(part, replaceColon)
            == TrimDots(Join(Fields(RemoveAll(if replaceColon then Colons(Trim(part)) else Trim(part),
                                              INVALID + "/\\")), ' '))
  {
  }

  lemma RemoveSlashes(c: string)
    ensures RemoveAll(c, INVALID + "/\\") == Remove(Remove(RemoveAll(c, INVALID), '/'), '\\')
  {
    var chars := INVALID + "/\\";
    assert chars[..7] == INVALID + "/" && (INVALID + "/")[..6] == INVALID;
  }

  lemma TidyOfBlank(part: string, replaceColon: bool)
    requires Trim(part) == ""
    ensures Tidy(part, replaceColon) == ""
  {
    assert Colons("") == "";
    RemoveAllFacts("", INVALID + "/\\");
    assert RemoveAll("", INVALID + "/\\") == "";
    assert Fields("") == [];
  }

  // joined segments are empty or name something
  lemma JoinIsNoDot(segments: seq<string>, replaceColon: bool)
    requires AllGood(segments, replaceColon)
    ensures Join(segments, '/') != "." && (segments == [] <==> Join(segments, '/') == "")
  {
    if segments != [] {
      assert Good(segments[0], replaceColon);
      JoinStartsWithFirst(segments, '/');
      var j := Join(segments, '/');
      assert |segments| > 1 ==> |j| > |segments[0]|;
    }
  }

  /**
    The result is cut from the joined good segments, and not cut at all unless the limit is positive and
    exceeded.
  */
  lemma SanitizedIsGood(rel: string, replaceColon: bool, maxPathLen: int)
    ensures AllGood(Segments(Parts(rel), replaceColon), replaceColon)
    ensures maxPathLen > 0 ==> |Sanitized(rel, replaceColon, maxPathLen)| <= maxPathLen
    ensures var whole := Join(Segments(Parts(rel), replaceColon), '\\');
            maxPathLen <= 0 || |whole| <= maxPathLen ==> Sanitized(rel, replaceColon, maxPathLen) == whole
  {
    SegmentsAreGood(Parts(rel), replaceColon);
  }

  // ---- sanitizing twice

  predicate AllTight(parts: seq<string>) {
    forall i :: 0 <= i < |parts| ==> TightEnd(parts[i])
  }

  lemma {:induction false} TightSegmentsStay(segments: seq<string>, n: nat, replaceColon: bool)
    requires AllGood(segments, replaceColon) && AllTight(segments)
    requires n <= |segments|
    ensures Segments(segments[..n], replaceColon) == segments[..n]
  {
    hide *;
    if n > 0 {
      SegmentsStep(segments, n, replaceColon);
      TightSegmentsStay(segments, n - 1, replaceColon);
      GoodAt(segments, n - 1, replaceColon);
      TightStays(segments[n - 1], replaceColon);
    } else {
      NoSegments(segments[..0], replaceColon);
    }
  }

  lemma GoodAt(segments: seq<string>, i: nat, replaceColon: bool)
    requires AllGood(segments, replaceColon) && AllTight(segments) && i < |segments|
    ensures Good(segments[i], replaceColon) && TightEnd(segments[i])
  {
  }

  lemma NoSegments(parts: seq<string>, replaceColon: bool)
    ensures parts == [] ==> Segments(parts, replaceColon) == []
  {
  }

  lemma SegmentsStep(parts: seq<string>, n: nat, replaceColon: bool)
    requires 0 < n <= |parts|
    ensures parts[..n] == parts[..n - 1] + [parts[n - 1]]
    ensures Tidy(parts[n - 1], replaceColon) != "" ==>
              Segments(parts[..n], replaceColon)
              == Segments(parts[..n - 1], replaceColon) + [Cut(Tidy(parts[n - 1], replaceColon), MAX_SEGMENT)]
  {
    hide Tidy;
    assert parts[..n][..n - 1] == parts[..n - 1];
  }

  lemma TightStays(s: string, replaceColon: bool)
    requires Good(s, replaceColon) && TightEnd(s)
    ensures Tidy(s, replaceColon) == s && s != "" && Cut(s, MAX_SEGMENT) == s
  {
    hide Tidy, TrimDots;
    TidyOfNeat(s, replaceColon);
    TrimDotsFacts(s);
  }

  // what is left of a good segment when its end is cut off
  predicate CutShort(p: string, replaceColon: bool) {
    p == "" || Neat(p, replaceColon)
  }

  ghost predicate AllCutShort(parts: seq<string>, replaceColon: bool) {
    forall i :: 0 <= i < |parts| ==> CutShort(parts[i], replaceColon) && |parts[i]| <= MAX_SEGMENT
  }

  // the parts of a cut name: whole segments and what is left of the next
  lemma PartsOfCut(segments: seq<string>, replaceColon: bool, n: nat) returns (parts: seq<string>)
    requires AllGood(segments, replaceColon) && 0 < n <= |Join(segments, '\\')|
    ensures parts == Parts(Join(segments, '\\')[..n]) && parts != [] && AllCutShort(parts, replaceColon)
    ensures Join(parts, '\\') == Join(segments, '\\')[..n]
  {
    AllGoodIsOrdinary(segments, replaceColon);
    hide Good, Neat, Join, Split, Swap, Ordinary, CutShort;
    var k, p := CutJoined(segments, n);
    parts := segments[..k] + [p];
    SwapCut(segments, k, p);
    SwapJoin(parts, '\\', '/');
    SplitJoin(parts, '/');
    forall i | 0 <= i < |parts|
      ensures CutShort(parts[i], replaceColon) && |parts[i]| <= MAX_SEGMENT
    {
      assert parts[i] <= segments[i];
      GoodCutShort(segments[i], parts[i], replaceColon);
    }
  }

  lemma GoodCutShort(s: string, p: string, replaceColon: bool)
    requires Good(s, replaceColon) && p <= s
    ensures CutShort(p, replaceColon) && |p| <= MAX_SEGMENT
  {
    hide Neat;
    if p != "" {
      PrefixIsNeat(p, s, replaceColon);
    }
  }

  lemma TightIsGood(parts: seq<string>, replaceColon: bool)
    requires AllCutShort(parts, replaceColon) && AllTight(parts)
    ensures AllGood(parts, replaceColon)
  {
    hide Neat;
    forall i | 0 <= i < |parts|
      ensures Good(parts[i], replaceColon)
    {
      assert TightEnd(parts[i]) && CutShort(parts[i], replaceColon);
    }
  }

  // sanitizing again never makes a name longer, and shorter unless it is tight
  lemma {:induction false} SegmentsShrink(parts: seq<string>, replaceColon: bool)
    requires AllCutShort(parts, replaceColon)
    ensures Extent(Segments(parts, replaceColon)) <= Extent(parts)
    ensures Extent(Segments(parts, replaceColon)) == Extent(parts) ==> AllTight(parts)
  {
    hide Tidy, CutShort, TightEnd, Extent;
    if parts != [] {
      var front, last := parts[..|parts| - 1], parts[|parts| - 1];
      assert parts == front + [last] && CutShort(last, replaceColon);
      SegmentsShrink(front, replaceColon);
      TidyShrinks(last, replaceColon);
      ExtentStep(front, last);
      var t := Tidy(last, replaceColon);
      ExtentStep(Segments(front, replaceColon), Cut(t, MAX_SEGMENT));
      assert Segments(parts, replaceColon)
          == if t == "" then Segments(front, replaceColon) else Segments(front, replaceColon) + [Cut(t, MAX_SEGMENT)];
      assert Extent(Segments(parts, replaceColon)) == Extent(parts) ==> TightEnd(last);
    }
  }

  lemma ExtentStep(front: seq<string>, last: string)
    ensures Extent(front + [last]) == Extent(front) + |last| + 1
  {
    assert (front + [last])[..|front|] == front;
  }

  lemma TidyShrinks(p: string, replaceColon: bool)
    requires CutShort(p, replaceColon)
    ensures var t := Tidy(p, replaceColon); |t| <= |p| && (t != "" && |t| == |p| ==> TightEnd(p))
  {
    hide Tidy, Neat, TrimDots;
    if p == "" {
      TidyOfBlank(p, replaceColon);
    } else {
      TidyOfNeat(p, replaceColon);
      TrimDotsFacts(p);
    }
  }

  /**
    Whatever the limit, sanitizing a sanitized name changes nothing exactly when the name is empty or no part of
    it ends in a dot or blank, or is empty behind a separator the limit has left.
  */
  lemma SanitizeIsIdempotentIff(rel: string, replaceColon: bool, maxPathLen: int)
    ensures var once := Sanitized(rel, replaceColon, maxPathLen);
            Sanitized(once, replaceColon, maxPathLen) == once <==> once == "" || AllTight(Parts(once))
  {
    hide Parts, Good, Tidy, Segments, Split, Swap, Join, TightEnd, Extent, CutShort, AllTight;
    var once := Sanitized(rel, replaceColon, maxPathLen);
    var s := Segments(Parts(rel), replaceColon);
    SegmentsAreGood(Parts(rel), replaceColon);
    assert once == Join(s, '\\')[..|once|];
    if once == "" {
      PartsOfNothing();
      NothingStaysNothing(replaceColon);
    } else {
      var q := PartsOfCut(s, replaceColon, |once|);
      var again := Segments(q, replaceColon);
      if AllTight(q) {
        TightIsGood(q, replaceColon);
        TightSegmentsStay(q, |q|, replaceColon);
        assert q[..|q|] == q;
      }
      SegmentsShrink(q, replaceColon);
      JoinHasExtent(q, '\\');
      if again == [] {
        NothingStaysNothing(replaceColon);
      } else {
        JoinHasExtent(again, '\\');
      }
    }
  }

  lemma PartsOfNothing()
    ensures Parts("") == [""]
  {
    SplitWord("", '/');
  }

  lemma NothingStaysNothing(replaceColon: bool)
    ensures Segments([""], replaceColon) == [] && Join([], '\\') == ""
  {
    TidyOfBlank("", replaceColon);
    assert [""][..0] == [];
  }

  // the parts of an uncut name are its segments
  lemma PartsOfJoined(segments: seq<string>, replaceColon: bool)
    requires AllGood(segments, replaceColon)
    ensures Parts(Join(segments, '\\')) == if segments == [] then [""] else segments
  {
    AllGoodIsOrdinary(segments, replaceColon);
    SwapJoin(segments, '\\', '/');
    if segments == [] {
      SplitWord("", '/');
    } else {
      SplitJoin(segments, '/');
    }
  }

  /** Neither limit cuts: every part fits, and so does the joined name. */
  ghost predicate Uncut(rel: string, replaceColon: bool, maxPathLen: int) {
    && (forall i :: 0 <= i < |Parts(rel)| ==> |Tidy(Parts(rel)[i], replaceColon)| <= MAX_SEGMENT)
    && (maxPathLen > 0 ==> |Join(Segments(Parts(rel), replaceColon), '\\')| <= maxPathLen)
  }

  /** In particular when neither a segment nor the path has to be cut. */
  lemma SanitizeIsIdempotent(rel: string, replaceColon: bool, maxPathLen: int)
    requires Uncut(rel, replaceColon, maxPathLen)
    ensures var once := Sanitized(rel, replaceColon, maxPathLen);
            Sanitized(once, replaceColon, maxPathLen) == once
  {
    hide Parts, Tidy, TightEnd, Segments, Good, Join;
    var s := Segments(Parts(rel), replaceColon);
    UncutIsTight(Parts(rel), replaceColon);
    SegmentsAreGood(Parts(rel), replaceColon);
    PartsOfJoined(s, replaceColon);
    SanitizeIsIdempotentIff(rel, replaceColon, maxPathLen);
    if s == [] {
      NothingStaysNothing(replaceColon);
    }
  }

  lemma {:induction false} UncutIsTight(parts: seq<string>, replaceColon: bool)
    requires forall i :: 0 <= i < |parts| ==> |Tidy(parts[i], replaceColon)| <= MAX_SEGMENT
    ensures AllTight(Segments(parts, replaceColon))
  {
    if parts != [] {
      hide Tidy, TightEnd, Neat;
      UncutIsTight(parts[..|parts| - 1], replaceColon);
      TidyIsNeat(parts[|parts| - 1], replaceColon);
    }
  }

  // ---- a name the path limit leaves unstable

  /**
    A path limit that cuts right behind a separator leaves the separator, and the next pass takes it off: this
    happens to every name whose first segments are one character shorter than the limit.
  */
  lemma PathCutIsUnstable(front: seq<string>, next: string, replaceColon: bool)
    requires front != [] && AllGood(front + [next], replaceColon) && AllTight(front + [next])
    ensures var rel, limit := Join(front + [next], '\\'), |Join(front, '\\')| + 1;
            && Sanitized(rel, replaceColon, limit) == Join(front, '\\') + "\\"
            && Sanitized(Join(front, '\\') + "\\", replaceColon, limit) == Join(front, '\\')
  {
    hide *;
    var all := front + [next];
    TightJoin(all, replaceColon);
    assert all[..|front|] == front;
    TightSegmentsStay(all, |front|, replaceColon);
    JoinConcat(front, [next], '\\');
    JoinConcat(front, [""], '\\');
    JustOne(next);
    JustOne("");
    PartsWithSeparator(front, next, replaceColon);
    TrailingIsSkipped(front, replaceColon);
    CutBehind(Join(front, '\\'), next);
    SanitizedSteps(Join(all, '\\'), replaceColon, |Join(front, '\\')| + 1);
    SanitizedSteps(Join(front + [""], '\\'), replaceColon, |Join(front, '\\')| + 1);
  }

  lemma SanitizedSteps(rel: string, replaceColon: bool, maxPathLen: int)
    ensures Sanitized(rel, replaceColon, maxPathLen)
            == CutPath(Join(Segments(Parts(rel), replaceColon), '\\'), maxPathLen)
  {
  }

  lemma CutBehind(s: string, next: string)
    requires next != ""
    ensures CutPath(s + ['\\'] + next, |s| + 1) == s + "\\" && CutPath(s, |s| + 1) == s
    ensures s + ['\\'] + "" == s + "\\"
  {
    assert (s + ['\\'] + next)[..|s| + 1] == s + "\\";
  }

  lemma JustOne(s: string)
    ensures Join([s], '\\') == s
  {
  }

  lemma TightJoin(all: seq<string>, replaceColon: bool)
    requires all != [] && AllGood(all, replaceColon) && AllTight(all)
    ensures Segments(Parts(Join(all, '\\')), replaceColon) == all && all[|all| - 1] != ""
  {
    hide Segments, Parts, Join, Good;
    PartsOfJoined(all, replaceColon);
    TightSegmentsStay(all, |all|, replaceColon);
    assert all[..|all|] == all && TightEnd(all[|all| - 1]);
  }

  lemma PartsWithSeparator(front: seq<string>, next: string, replaceColon: bool)
    requires AllGood(front + [next], replaceColon)
    ensures Parts(Join(front + [""], '\\')) == front + [""]
  {
    hide Good, Join, Split, Swap;
    AllGoodIsOrdinary(front + [next], replaceColon);
    assert (front + [next])[..|front|] == front;
    SwapCut(front + [next], |front|, "");
    SwapJoin(front + [""], '\\', '/');
    SplitJoin(front + [""], '/');
  }

  lemma TrailingIsSkipped(front: seq<string>, replaceColon: bool)
    ensures Segments(front + [""], replaceColon) == Segments(front, replaceColon)
  {
    TidyOfBlank("", replaceColon);
    hide Tidy;
    assert (front + [""])[..|front|] == front;
  }

  /** At the engine's default limit of 240, a name of 120, 118 and one more character is not stable. */
  lemma DefaultLimitIsUnstable(replaceColon: bool)
    ensures var front := [Repeated('A', 120), Repeated('B', 118)];
            var once := Sanitized(Join(front + ["C"], '\\'), replaceColon, 240);
            once == Join(front, '\\') + "\\" && Sanitized(once, replaceColon, 240) == Join(front, '\\')
  {
    var a, b := Repeated('A', 120), Repeated('B', 118);
    RepeatedIsGood('A', 120, replaceColon);
    RepeatedIsGood('B', 118, replaceColon);
    RepeatedIsGood('C', 1, replaceColon);
    assert Repeated('C', 1) == "C" && [a, b][1..] == [b];
    hide Good, TightEnd, Sanitized;
    JustOne(b);
    assert |Join([a, b], '\\')| == 239;
    PathCutIsUnstable([a, b], "C", replaceColon);
  }

  function Repeated(c: char, n: nat): string {
    seq(n, i => c)
  }

  lemma RepeatedIsGood(c: char, n: nat, replaceColon: bool)
    requires 0 < n <= MAX_SEGMENT && c in "ABC"
    ensures Good(Repeated(c, n), replaceColon) && TightEnd(Repeated(c, n))
  {
    var s := Repeated(c, n);
    assert forall x :: x in s ==> x == c;
    assert s[0] == c;
  }

  /** A colon between two tidy texts becomes a dash between them. */
  lemma ColonBecomesDash(a: string, b: string)
    requires Neat(a, true) && Trimmed(a) && Neat(b, true) && TightEnd(b)
    ensures Tidy(a + ": " + b, true) == a + " - " + b
  {
    var s, u := a + ": " + b, a + " - " + b;
    ColonsAround(a, b);
    DashedIsNeat(a, b);
    TrimmedIsFixed(s);
    TidyOfNeat(u, true);
    TrimDotsFacts(u);
    ColonsFacts(u);
    TrimmedIsFixed(u);
    TidySteps(u, true);
    TidySteps(s, true);
  }

  lemma ColonsAround(a: string, b: string)
    requires Neat(a, true) && Neat(b, true)
    ensures Colons(a + ": " + b) == a + " - " + b
  {
    hide Colons, Spaced, NoneOf;
    ColonsConcat(a + ":", " " + b);
    ColonsConcat(a, ":");
    ColonsConcat(" ", b);
    ColonsFacts(a);
    ColonsFacts(b);
    ColonsOfOne();
    assert a + ": " + b == (a + ":") + (" " + b);
    assert a + " -" + (" " + b) == a + " - " + b;
  }

  lemma ColonsOfOne()
    ensures Colons(":") == " -" && Colons(" ") == " "
  {
    assert ":"[1..] == "" && " "[1..] == "";
    assert Colons("") == "";
  }

  lemma {:induction false} ColonsConcat(a: string, b: string)
    ensures Colons(a + b) == Colons(a) + Colons(b)
  {
    if a == "" {
      assert a + b == b;
    } else {
      assert (a + b)[1..] == a[1..] + b;
      ColonsConcat(a[1..], b);
    }
  }

  lemma DashedIsNeat(a: string, b: string)
    requires Neat(a, true) && Trimmed(a) && Neat(b, true) && TightEnd(b)
    ensures var u := a + " - " + b;
            Neat(u, true) && TightEnd(u) && Trimmed(u) && Trimmed(a + ": " + b)
  {
    var u, n := a + " - " + b, |a|;
    forall i | 0 <= i < |u|
      ensures u[i] == if i < n then a[i] else if i < n + 3 then " - "[i - n] else b[i - n - 3]
    {
    }
    assert forall c :: c in u ==> c in a || c in b || c == ' ' || c == '-';
    var chars := INVALID + "/\\";
    assert forall i :: 0 <= i < |chars| ==> chars[i] != ' ' && chars[i] != '-';
  }

  // ---- what sanitizing never loses

  /** Letters, digits and whatever else is neither a space nor one of the characters the sanitizer looks for. */
  predicate Solid(c: char) {
    !IsSpace(c) && c !in "<>\"|?*/\\:-."
  }

  function Solids(s: string): string {
    if s == "" then "" else (if Solid(s[0]) then [s[0]] else "") + Solids(s[1..])
  }

  lemma {:induction false} SolidsConcat(a: string, b: string)
    ensures Solids(a + b) == Solids(a) + Solids(b)
  {
    if a == "" {
      assert a + b == b;
    } else {
      assert (a + b)[1..] == a[1..] + b;
      SolidsConcat(a[1..], b);
    }
  }

  lemma SolidsOfOne(c: char)
    ensures Solids([c]) == if Solid(c) then [c] else ""
  {
    assert [c][1..] == "";
  }

  lemma {:induction false} SolidsOfTrimLeft(s: string)
    ensures Solids(TrimLeft(s)) == Solids(s)
  {
    if s != "" && IsSpace(s[0]) {
      SolidsOfTrimLeft(s[1..]);
    }
  }

  // dropping a last character that is not solid loses nothing
  lemma SolidsOfFront(s: string)
    requires s != "" && !Solid(s[|s| - 1])
    ensures Solids(s[..|s| - 1]) == Solids(s)
  {
    var n := |s| - 1;
    SolidsConcat(s[..n], [s[n]]);
    SolidsOfOne(s[n]);
    assert s == s[..n] + [s[n]];
  }

  lemma {:induction false} SolidsOfTrimRight(s: string)
    ensures Solids(TrimRight(s)) == Solids(s)
  {
    if s != "" && IsSpace(s[|s| - 1]) {
      SolidsOfFront(s);
      SolidsOfTrimRight(s[..|s| - 1]);
    }
  }

  lemma {:induction false} SolidsOfTrimDots(s: string)
    ensures Solids(TrimDots(s)) == Solids(s)
  {
    if s != "" && (s[|s| - 1] == '.' || s[|s| - 1] == ' ') {
      SolidsOfFront(s);
      SolidsOfTrimDots(s[..|s| - 1]);
    }
  }

  lemma {:induction false} SolidsOfColons(s: string)
    ensures Solids(Colons(s)) == Solids(s)
  {
    if s != "" {
      SolidsOfColons(s[1..]);
      var head := if s[0] == ':' then " -" else [s[0]];
      SolidsConcat(head, Colons(s[1..]));
      SolidsOfOne(s[0]);
      SolidsOfOne(' ');
      SolidsOfOne('-');
      SolidsConcat(" ", "-");
      assert " -" == " " + "-";
    }
  }

  lemma {:induction false} SolidsOfRemove(s: string, c: char)
    requires !Solid(c)
    ensures Solids(Remove(s, c)) == Solids(s)
  {
    if s != "" {
      SolidsOfRemove(s[1..], c);
      SolidsConcat(if s[0] == c then "" else [s[0]], Remove(s[1..], c));
      SolidsOfOne(s[0]);
    }
  }

  lemma {:induction false} SolidsOfRemoveAll(s: string, chars: string)
    requires forall i :: 0 <= i < |chars| ==> !Solid(chars[i])
    ensures Solids(RemoveAll(s, chars)) == Solids(s)
  {
    if chars != "" {
      var n := |chars| - 1;
      SolidsOfRemoveAll(s, chars[..n]);
      SolidsOfRemove(RemoveAll(s, chars[..n]), chars[n]);
    }
  }

  lemma {:induction false} SolidsOfFields(s: string)
    ensures Solids(Join(Fields(s), ' ')) == Solids(s)
    decreases |s|
  {
    hide Solid, Word, TrimLeft;
    SolidsOfTrimLeft(s);
    TrimLeftShortens(s);
    var t := TrimLeft(s);
    if t != "" {
      WordFacts(t);
      var w, rest := Word(t), t[|Word(t)|..];
      SolidsOfFields(rest);
      SolidsConcat(w, rest);
      assert w + rest == t;
      SolidsConcat(w + [' '], Join(Fields(rest), ' '));
      SolidsConcat(w, [' ']);
      BlankIsNotSolid();
    }
  }

  lemma BlankIsNotSolid()
    ensures Solids([' ']) == "" && Solids("") == ""
  {
    SolidsOfOne(' ');
  }

  /** Tidying loses nothing solid: not a letter, not a digit, wherever colons, forbidden characters or dots were. */
  lemma TidyKeepsSolids(part: string, replaceColon: bool)
    ensures Solids(Tidy(part, replaceColon)) == Solids(part)
  {
    hide Fields, RemoveAll, Colons, TrimDots, Join, TrimLeft, TrimRight, Solids;
    var t := Trim(part);
    SolidsOfTrimLeft(part);
    SolidsOfTrimRight(TrimLeft(part));
    SolidsOfColons(t);
    var c := if replaceColon then Colons(t) else t;
    SolidsOfRemoveAll(c, INVALID + "/\\");
    var d := RemoveAll(c, INVALID + "/\\");
    SolidsOfFields(d);
    SolidsOfTrimDots(Join(Fields(d), ' '));
  }

  function PartSolids(parts: seq<string>): string {
    if parts == [] then "" else PartSolids(parts[..|parts| - 1]) + Solids(parts[|parts| - 1])
  }

  lemma {:induction false} SolidsOfJoin(parts: seq<string>, sep: char)
    requires !Solid(sep)
    ensures Solids(Join(parts, sep)) == PartSolids(parts)
  {
    hide Solids, Solid;
    if parts == [] {
      BlankIsNotSolid();
    } else {
      var front, last := parts[..|parts| - 1], parts[|parts| - 1];
      SolidsOfJoin(front, sep);
      assert parts == front + [last];
      if front == [] {
        JustOne(last);
      } else {
        JoinConcat(front, [last], sep);
        JoinOne(last, sep);
        SolidsConcat(Join(front, sep) + [sep], last);
        SolidsConcat(Join(front, sep), [sep]);
        SolidsOfOne(sep);
      }
    }
  }

  lemma JoinOne(s: string, sep: char)
    ensures Join([s], sep) == s
  {
  }

  lemma {:induction false} SegmentsKeepSolids(parts: seq<string>, replaceColon: bool)
    requires forall i :: 0 <= i < |parts| ==> |Tidy(parts[i], replaceColon)| <= MAX_SEGMENT
    ensures PartSolids(Segments(parts, replaceColon)) == PartSolids(parts)
  {
    hide Tidy, Solids, PartSolids;
    if parts != [] {
      var front, last := parts[..|parts| - 1], parts[|parts| - 1];
      SegmentsKeepSolids(front, replaceColon);
      TidyKeepsSolids(last, replaceColon);
      BlankIsNotSolid();
      assert parts == front + [last];
      PartSolidsSnoc(front, last);
      var t := Tidy(last, replaceColon);
      PartSolidsSnoc(Segments(front, replaceColon), t);
      assert Cut(t, MAX_SEGMENT) == t;
      assert Segments(parts, replaceColon)
          == if t == "" then Segments(front, replaceColon) else Segments(front, replaceColon) + [t];
    }
  }

  lemma PartSolidsSnoc(front: seq<string>, last: string)
    ensures PartSolids(front + [last]) == PartSolids(front) + Solids(last)
  {
    assert (front + [last])[..|front|] == front;
  }

  /** An uncut name keeps all its solid characters in their order, in whatever folders they are. */
  lemma SanitizeKeepsSolids(rel: string, replaceColon: bool, maxPathLen: int)
    requires Uncut(rel, replaceColon, maxPathLen)
    ensures Solids(Sanitized(rel, replaceColon, maxPathLen)) == Solids(rel)
  {
    hide Tidy, Segments, Solids, Swap, Split, Join;
    var parts := Parts(rel);
    SegmentsKeepSolids(parts, replaceColon);
    SolidsOfJoin(Segments(parts, replaceColon), '\\');
    SolidsOfJoin(parts, '/');
    JoinSplit(Swap(rel, '\\', '/'), '/');
    SolidsOfSwap(rel);
  }

  lemma {:induction false} SolidsOfSwap(s: string)
    ensures Solids(Swap(s, '\\', '/')) == Solids(s)
  {
    if s != "" {
      SolidsOfSwap(s[1..]);
      assert Swap(s, '\\', '/')[1..] == Swap(s[1..], '\\', '/');
    }
  }
}
