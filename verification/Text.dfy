/** ASCII text helpers: the parts of Go's `strings` the services rely on. */
module Text {
  predicate IsSpace(c: char) {
    c == ' ' || c == '\t' || c == '\n' || c == '\r'
  }

  function TrimLeft(s: string): string {
    if s != "" && IsSpace(s[0]) then TrimLeft(s[1..]) else s
  }

  function TrimRight(s: string): string {
    if s != "" && IsSpace(s[|s| - 1]) then TrimRight(s[..|s| - 1]) else s
  }

  /** `strings.TrimSpace` */
  function Trim(s: string): string {
    TrimRight(TrimLeft(s))
  }

  predicate Blank(s: string) {
    Trim(s) == ""
  }

  function LowerChar(c: char): char {
    if 'A' <= c <= 'Z' then (c as int + 32) as char else c
  }

  function UpperChar(c: char): char {
    if 'a' <= c <= 'z' then (c as int - 32) as char else c
  }

  function ToLower(s: string): (r: string)
    ensures |r| == |s|
  {
    seq(|s|, i requires 0 <= i < |s| => LowerChar(s[i]))
  }

  function ToUpper(s: string): (r: string)
    ensures |r| == |s|
  {
    seq(|s|, i requires 0 <= i < |s| => UpperChar(s[i]))
  }

  /** No space at either end. */
  predicate Trimmed(s: string) {
    s == "" || (!IsSpace(s[0]) && !IsSpace(s[|s| - 1]))
  }

  lemma {:induction false} TrimRightKeepsHead(s: string)
    ensures TrimRight(s) == "" || (TrimRight(s)[0] == s[0] && !IsSpace(TrimRight(s)[|TrimRight(s)| - 1]))
  {
    if s != "" && IsSpace(s[|s| - 1]) {
      TrimRightKeepsHead(s[..|s| - 1]);
    }
  }

  lemma {:induction false} TrimLeftTrims(s: string)
    ensures TrimLeft(s) == "" || !IsSpace(TrimLeft(s)[0])
  {
    if s != "" && IsSpace(s[0]) {
      TrimLeftTrims(s[1..]);
    }
  }

  /** Trimming yields trimmed text and changes nothing more. */
  lemma TrimIsIdempotent(s: string)
    ensures Trimmed(Trim(s)) && Trim(Trim(s)) == Trim(s)
  {
    TrimLeftTrims(s);
    TrimRightKeepsHead(TrimLeft(s));
  }

  lemma TrimmedIsFixed(s: string)
    requires Trimmed(s)
    ensures Trim(s) == s
  {
  }

  /** Trimming takes spaces off both ends and nothing else. */
  lemma TrimMeans(s: string) returns (i: nat, j: nat)
    ensures i <= j <= |s| && Trim(s) == s[i..j] && Trimmed(Trim(s))
    ensures forall k :: 0 <= k < |s| && !(i <= k < j) ==> s[k] in " \t\n\r"
  {
    TrimIsIdempotent(s);
    i := TrimLeftMeans(s);
    var t := TrimLeft(s);
    var n := TrimRightMeans(t);
    j := i + n;
    assert forall k :: j <= k < |s| ==> s[k] == t[k - i];
  }

  lemma {:induction false} TrimLeftMeans(s: string) returns (i: nat)
    ensures i <= |s| && TrimLeft(s) == s[i..] && forall k :: 0 <= k < i ==> s[k] in " \t\n\r"
  {
    i := 0;
    if s != "" && IsSpace(s[0]) {
      var n := TrimLeftMeans(s[1..]);
      i := n + 1;
    }
  }

  lemma {:induction false} TrimRightMeans(s: string) returns (j: nat)
    ensures j <= |s| && TrimRight(s) == s[..j] && forall k :: j <= k < |s| ==> s[k] in " \t\n\r"
  {
    j := |s|;
    if s != "" && IsSpace(s[|s| - 1]) {
      j := TrimRightMeans(s[..|s| - 1]);
    }
  }

  /** Case is that of the twenty-six letters; everything else has none. */
  lemma CaseMeans(c: char)
    ensures var lower, upper := "abcdefghijklmnopqrstuvwxyz", "ABCDEFGHIJKLMNOPQRSTUVWXYZ";
            && (forall i :: 0 <= i < 26 ==> LowerChar(upper[i]) == lower[i] && UpperChar(lower[i]) == upper[i])
            && (c !in upper ==> LowerChar(c) == c) && (c !in lower ==> UpperChar(c) == c)
  {
    var lower, upper := "abcdefghijklmnopqrstuvwxyz", "ABCDEFGHIJKLMNOPQRSTUVWXYZ";
    assert forall i :: 0 <= i < 26 ==> lower[i] == ('a' as int + i) as char && upper[i] == ('A' as int + i) as char;
    if 'A' <= c <= 'Z' {
      assert upper[c as int - 'A' as int] == c;
    }
    if 'a' <= c <= 'z' {
      assert lower[c as int - 'a' as int] == c;
    }
  }

  lemma ToUpperIsIdempotent(s: string)
    ensures ToUpper(ToUpper(s)) == ToUpper(s)
  {
  }

  lemma UpperOfTrimmed(s: string)
    requires Trimmed(s)
    ensures Trimmed(ToUpper(s))
  {
  }

  lemma LowerOfTrimmed(s: string)
    requires Trimmed(s)
    ensures Trimmed(ToLower(s))
  {
  }

  /** The first word of text that does not start with a space. */
  function Word(s: string): (r: string)
    ensures |r| <= |s| && (s != "" && !IsSpace(s[0]) ==> r != "")
  {
    if s == "" || IsSpace(s[0]) then "" else [s[0]] + Word(s[1..])
  }

  lemma {:induction false} TrimLeftShortens(s: string)
    ensures |TrimLeft(s)| <= |s| && (TrimLeft(s) != "" ==> !IsSpace(TrimLeft(s)[0]))
  {
    if s != "" && IsSpace(s[0]) {
      TrimLeftShortens(s[1..]);
    }
  }

  /** `strings.Fields` */
  function Fields(s: string): seq<string>
    decreases |s|
  {
    TrimLeftShortens(s);
    var t := TrimLeft(s);
    if t == "" then [] else [Word(t)] + Fields(t[|Word(t)|..])
  }
}
