/** Identifier checks: the checksum loops of ISBN-10 and ISBN-13 (Annex C of ISO 2108:2005) against weighted sums. */
module Isbn {
  import opened Text

  // ---- cleaning

  /** Without hyphens and spaces. */
  function Strip(s: string): string {
    if s == "" then "" else (if s[0] == '-' || s[0] == ' ' then "" else [s[0]]) + Strip(s[1..])
  }

  function Clean(value: string): string {
    ToUpper(Strip(Trim(value)))
  }

  lemma {:induction false} StripConcat(a: string, b: string)
    ensures Strip(a + b) == Strip(a) + Strip(b)
  {
    if a == "" {
      assert a + b == b;
    } else {
      assert (a + b)[1..] == a[1..] + b;
      StripConcat(a[1..], b);
    }
  }

  lemma {:induction false} TrimLeftStops(a: string, x: char, b: string)
    requires !IsSpace(x)
    ensures TrimLeft(a + [x] + b) == TrimLeft(a) + [x] + b
  {
    if a != "" && IsSpace(a[0]) {
      assert (a + [x] + b)[1..] == a[1..] + [x] + b;
      TrimLeftStops(a[1..], x, b);
    }
  }

  lemma {:induction false} TrimRightStops(a: string, x: char, b: string)
    requires !IsSpace(x)
    ensures TrimRight(a + [x] + b) == a + [x] + TrimRight(b)
  {
    if b != "" && IsSpace(b[|b| - 1]) {
      var s := a + [x] + b;
      assert s[..|s| - 1] == a + [x] + b[..|b| - 1];
      TrimRightStops(a, x, b[..|b| - 1]);
    }
  }

  lemma UpperConcat(a: string, b: string)
    ensures ToUpper(a + b) == ToUpper(a) + ToUpper(b)
  {
  }

  /** A character that is kept splits the cleaned text as it splits the text. */
  lemma CleanAround(a: string, x: char, b: string)
    requires !IsSpace(x) && x != '-'
    ensures Clean(a + [x] + b) == ToUpper(Strip(TrimLeft(a))) + [UpperChar(x)] + ToUpper(Strip(TrimRight(b)))
  {
    hide Strip, TrimLeft, TrimRight, ToUpper;
    TrimLeftStops(a, x, b);
    TrimRightStops(TrimLeft(a), x, b);
    assert Trim(a + [x] + b) == TrimLeft(a) + [x] + TrimRight(b);
    StripConcat(TrimLeft(a) + [x], TrimRight(b));
    StripConcat(TrimLeft(a), [x]);
    StripOne(x);
    assert Strip(Trim(a + [x] + b)) == Strip(TrimLeft(a)) + [x] + Strip(TrimRight(b));
    UpperConcat(Strip(TrimLeft(a)) + [x], Strip(TrimRight(b)));
    UpperConcat(Strip(TrimLeft(a)), [x]);
    UpperOne(x);
  }

  lemma StripOne(x: char)
    ensures Strip([x]) == if x == '-' || x == ' ' then "" else [x]
  {
    assert [x][1..] == "";
  }

  lemma UpperOne(x: char)
    ensures ToUpper([x]) == [UpperChar(x)]
  {
  }

  /** Changing a kept character of the text into another kept one changes that one place of the cleaned text. */
  lemma CleanChange(value: string, j: nat, c: char) returns (i: nat)
    requires j < |value| && !IsSpace(value[j]) && value[j] != '-' && !IsSpace(c) && c != '-'
    ensures i < |Clean(value)| && Clean(value)[i] == UpperChar(value[j])
    ensures Clean(value[j := c]) == Clean(value)[i := UpperChar(c)]
  {
    hide *;
    var a, b := value[..j], value[j + 1..];
    assert value == a + [value[j]] + b && value[j := c] == a + [c] + b;
    CleanAround(a, value[j], b);
    CleanAround(a, c, b);
    i := |ToUpper(Strip(TrimLeft(a)))|;
  }

  /** Separators between the groups of an identifier do not matter. */
  lemma SeparatorsDoNotMatter(a: string, separator: char, b: string)
    requires separator == '-' || separator == ' '
    requires a != "" && b != "" && Trimmed(a) && Trimmed(b)
    ensures Clean(a + [separator] + b) == Clean(a + b)
  {
    hide Strip, Trim;
    TrimmedConcat(a, b);
    TrimmedConcat(a, [separator] + b);
    assert a + ([separator] + b) == a + [separator] + b;
    StripConcat(a, b);
    StripConcat(a + [separator], b);
    StripConcat(a, [separator]);
    StripOne(separator);
    assert Strip(a + b) == Strip(a + [separator] + b);
  }

  lemma TrimmedConcat(a: string, b: string)
    requires a != "" && b != "" && Trimmed(a) && !IsSpace(b[|b| - 1])
    ensures Trim(a + b) == a + b
  {
    TrimmedIsFixed(a + b);
  }

  // ---- weighted sums

  predicate IsDigit(c: char) {
    '0' <= c <= '9'
  }

  function Digit(c: char): int {
    c as int - '0' as int
  }

  function Weight13(i: nat): int {
    if i % 2 == 0 then 1 else 3
  }

  function Sum13(s: string): int {
    if s == "" then 0 else Sum13(s[..|s| - 1]) + Weight13(|s| - 1) * Digit(s[|s| - 1])
  }

  predicate AllDigits(s: string) {
    forall i :: 0 <= i < |s| ==> IsDigit(s[i])
  }

  /** Thirteen digits whose 1-3 weighted sum is a multiple of ten. */
  predicate Valid13(s: string) {
    |s| == 13 && AllDigits(s) && Sum13(s) % 10 == 0
  }

  /** What a character stands for at a position of an ISBN-10: only the last may be an X. */
  predicate Fits10(i: nat, c: char) {
    IsDigit(c) || (i == 9 && c == 'X')
  }

  function Value10(c: char): int {
    if c == 'X' then 10 else Digit(c)
  }

  /** What a character contributes at a position: its value, weighted from ten down to one. */
  function Term10(c: char, i: nat): int {
    Value10(c) * (10 - i)
  }

  function Sum10(s: string): int {
    if s == "" then 0 else Sum10(s[..|s| - 1]) + Term10(s[|s| - 1], |s| - 1)
  }

  /** Ten fitting characters whose sum weighted from ten down to one is a multiple of eleven. */
  predicate Valid10(s: string) {
    |s| == 10 && (forall i :: 0 <= i < 10 ==> Fits10(i, s[i])) && Sum10(s) % 11 == 0
  }

  // ---- the program

  method IsValidISBN10(value: string) returns (ok: bool)
    ensures ok <==> Valid10(Clean(value))
  {
    hide Clean;
    var clean := Clean(value);
    if |clean| != 10 {
      return false;
    }
    var sum := 0;
    for i := 0 to 10
      invariant forall k :: 0 <= k < i ==> Fits10(k, clean[k])
      invariant sum == Sum10(clean[..i])
    {
      var ch := clean[i];
      var digit;
      if i == 9 && ch == 'X' {
        digit := 10;
      } else if '0' <= ch <= '9' {
        digit := ch as int - '0' as int;
      } else {
        return false;
      }
      sum := sum + digit * (10 - i);
      assert clean[..i + 1][..i] == clean[..i];
    }
    assert clean[..10] == clean;
    return sum % 11 == 0;
  }

  method IsValidISBN13(value: string) returns (ok: bool)
    ensures ok <==> Valid13(Clean(value))
  {
    hide Clean;
    var clean := Clean(value);
    if |clean| != 13 {
      return false;
    }
    var sum := 0;
    for i := 0 to 13
      invariant i <= 12
      invariant forall k :: 0 <= k < i ==> IsDigit(clean[k])
      invariant sum == Sum13(clean[..i])
    {
      var ch := clean[i];
      if ch < '0' || ch > '9' {
        return false;
      }
      var digit := ch as int - '0' as int;
      assert clean[..i + 1][..i] == clean[..i];
      if i == 12 {
        var check := (10 - sum % 10) % 10;
        assert clean[..13] == clean;
        assert Sum13(clean) == sum + digit;
        return digit == check;
      }
      sum := sum + if i % 2 == 0 then digit else digit * 3;
    }
    ok := true;
  }

  datatype Kind = Isbn10 | Isbn13 | Other

  function KindOf(idType: string): Kind {
    var t := ToUpper(Trim(idType));
    if t == "ISBN_10" || t == "ISBN10" then Isbn10
    else if t == "ISBN_13" || t == "ISBN13" then Isbn13
    else Other
  }

  method VerifyIdentifier(idType: string, value: string) returns (ok: bool, reason: string)
    ensures ok <==> !Blank(value)
                    && (KindOf(idType) == Isbn10 ==> Valid10(Clean(value)))
                    && (KindOf(idType) == Isbn13 ==> Valid13(Clean(value)))
    ensures ok <==> reason == ""
    ensures Blank(value) ==> reason == "empty identifier value"
    ensures !Blank(value) && !ok ==>
              reason == if KindOf(idType) == Isbn10 then "invalid ISBN-10 checksum or format"
                        else "invalid ISBN-13 checksum or format"
  {
    hide Valid10, Valid13, Trim, Strip, ToUpper;
    var t := ToUpper(Trim(idType));
    var v := Trim(value);
    if v == "" {
      return false, "empty identifier value";
    }
    TrimIsIdempotent(value);
    if t == "ISBN_10" || t == "ISBN10" {
      ok := IsValidISBN10(v);
      return ok, if ok then "" else "invalid ISBN-10 checksum or format";
    } else if t == "ISBN_13" || t == "ISBN13" {
      ok := IsValidISBN13(v);
      return ok, if ok then "" else "invalid ISBN-13 checksum or format";
    }
    return true, "";
  }

  // ---- which errors are caught

  lemma {:induction false} Sum13Update(s: string, i: nat, c: char)
    requires i < |s|
    ensures Sum13(s[i := c]) == Sum13(s) + Weight13(i) * (Digit(c) - Digit(s[i]))
  {
    var n := |s| - 1;
    if i == n {
      assert s[i := c][..n] == s[..n];
    } else {
      assert s[i := c][..n] == s[..n][i := c];
      Sum13Update(s[..n], i, c);
    }
  }

  /** Every change of a single digit of a valid ISBN-13 is rejected. */
  lemma SingleChange13(s: string, i: nat, c: char)
    requires Valid13(s) && i < 13 && c != s[i]
    ensures !Valid13(s[i := c])
  {
    hide Sum13;
    Sum13Update(s, i, c);
    assert s[i := c][i] == c;
    if IsDigit(c) {
      var d := Digit(c) - Digit(s[i]);
      assert -9 <= d <= 9 && d != 0;
    }
  }

  /** Mistyping one digit of an accepted ISBN-13 is always noticed, however it is punctuated. */
  lemma MistypedDigit13(value: string, j: nat, c: char)
    requires Valid13(Clean(value)) && j < |value| && IsDigit(value[j]) && IsDigit(c) && c != value[j]
    ensures !Valid13(Clean(value[j := c]))
  {
    hide Clean, Valid13;
    var i := CleanChange(value, j, c);
    Length13(Clean(value));
    SingleChange13(Clean(value), i, c);
  }

  lemma Length13(s: string)
    requires Valid13(s)
    ensures |s| == 13
  {
  }

  function Swapped(s: string, i: nat, k: nat): string
    requires i < |s| && k < |s|
  {
    s[i := s[k]][k := s[i]]
  }

  /** Swapping two different neighbouring digits goes unnoticed exactly when they differ by five. */
  lemma AdjacentSwap13(s: string, i: nat)
    requires Valid13(s) && i < 12 && s[i] != s[i + 1]
    ensures Valid13(Swapped(s, i, i + 1)) <==> s[i] as int - s[i + 1] as int == 5 || s[i + 1] as int - s[i] as int == 5
  {
    hide Sum13;
    var t := s[i := s[i + 1]];
    Sum13Update(s, i, s[i + 1]);
    Sum13Update(t, i + 1, s[i]);
    assert t[i + 1] == s[i + 1];
    assert AllDigits(Swapped(s, i, i + 1));
    var d := Digit(s[i]) - Digit(s[i + 1]);
    assert -9 <= d <= 9 && d != 0;
    assert Sum13(Swapped(s, i, i + 1)) == Sum13(s) + (Weight13(i + 1) - Weight13(i)) * d;
    assert (2 * d) % 10 == 0 <==> d == 5 || d == -5;
  }

  /** Twelve digits have exactly one check digit. */
  lemma CheckDigit13IsUnique(s: string)
    requires |s| == 12 && AllDigits(s)
    ensures exists c :: Valid13(s + [c]) && forall e :: Valid13(s + [e]) ==> e == c
  {
    hide Sum13;
    var check := (10 - Sum13(s) % 10) % 10;
    var c := ('0' as int + check) as char;
    AppendDigit13(s, c);
    assert Valid13(s + [c]) by {
      assert (Sum13(s) + check) % 10 == 0;
    }
    forall e | Valid13(s + [e])
      ensures e == c
    {
      AppendDigit13(s, e);
      assert (s + [e])[12] == e;
      assert IsDigit(e);
    }
  }

  lemma AppendDigit13(s: string, c: char)
    requires |s| == 12
    ensures Sum13(s + [c]) == Sum13(s) + Digit(c)
  {
    assert (s + [c])[..12] == s;
  }

  lemma {:induction false} Sum10Update(s: string, i: nat, c: char)
    requires i < |s|
    ensures Sum10(s[i := c]) == Sum10(s) - Term10(s[i], i) + Term10(c, i)
  {
    hide Term10;
    var n := |s| - 1;
    if i == n {
      assert s[i := c][..n] == s[..n];
    } else {
      assert s[i := c][..n] == s[..n][i := c];
      Sum10Update(s[..n], i, c);
    }
  }

  // eleven is prime
  lemma NoMultipleOfEleven(d: int, w: int)
    requires -10 <= d <= 10 && d != 0 && 1 <= w <= 10
    ensures (d * w) % 11 != 0
  {
    if w == 1 {} else if w == 2 {} else if w == 3 {} else if w == 4 {} else if w == 5 {}
    else if w == 6 {} else if w == 7 {} else if w == 8 {} else if w == 9 {} else {}
  }

  lemma DifferentValues(i: nat, k: nat, c: char, e: char)
    requires Fits10(i, c) && Fits10(k, e) && c != e
    ensures -10 <= Value10(c) - Value10(e) <= 10 && Value10(c) != Value10(e)
  {
  }

  /** Every change of a single character of a valid ISBN-10 is rejected. */
  lemma SingleChange10(s: string, i: nat, c: char)
    requires Valid10(s) && i < 10 && c != s[i]
    ensures !Valid10(s[i := c])
  {
    hide Sum10, Term10, Value10;
    Sum10Update(s, i, c);
    assert s[i := c][i] == c;
    if Fits10(i, c) {
      DifferentValues(i, i, c, s[i]);
      NoMultipleOfEleven(Value10(c) - Value10(s[i]), 10 - i);
      ChangeTerm(s[i], c, i);
      Shifted(Sum10(s), Term10(c, i) - Term10(s[i], i));
    }
  }

  /** Swapping any two different characters of a valid ISBN-10, however far apart, is rejected. */
  lemma AnySwap10(s: string, i: nat, k: nat)
    requires Valid10(s) && i < k < 10 && s[i] != s[k]
    ensures !Valid10(Swapped(s, i, k))
  {
    hide Sum10, Term10, Value10;
    var t := s[i := s[k]];
    Sum10Update(s, i, s[k]);
    Sum10Update(t, k, s[i]);
    DifferentValues(i, k, s[i], s[k]);
    NoMultipleOfEleven(Value10(s[k]) - Value10(s[i]), k - i);
    SwapTerms(s[i], s[k], i, k);
    Shifted(Sum10(s), Term10(s[k], i) - Term10(s[i], i) + Term10(s[i], k) - Term10(s[k], k));
  }

  lemma Shifted(sum: int, d: int)
    requires sum % 11 == 0 && d % 11 != 0
    ensures (sum + d) % 11 != 0
  {
  }

  lemma ChangeTerm(c: char, e: char, i: nat)
    ensures Term10(e, i) - Term10(c, i) == (Value10(e) - Value10(c)) * (10 - i)
  {
    hide Value10;
  }

  lemma SwapTerms(c: char, e: char, i: nat, k: nat)
    ensures Term10(e, i) - Term10(c, i) + Term10(c, k) - Term10(e, k) == (Value10(e) - Value10(c)) * (k - i)
  {
    hide Value10;
    ChangeTerm(c, e, i);
    ChangeTerm(c, e, k);
    SplitProduct(Value10(e) - Value10(c), 10 - i, 10 - k);
  }

  lemma SplitProduct(d: int, x: int, y: int)
    ensures d * x - d * y == d * (x - y)
  {
  }

  /** Mistyping one character of an accepted ISBN-10 is always noticed, however it is punctuated. */
  lemma MistypedCharacter10(value: string, j: nat, c: char)
    requires Valid10(Clean(value)) && j < |value| && !IsSpace(value[j]) && value[j] != '-'
    requires !IsSpace(c) && c != '-' && UpperChar(c) != UpperChar(value[j])
    ensures !Valid10(Clean(value[j := c]))
  {
    hide Clean, Valid10;
    var i := CleanChange(value, j, c);
    Length10(Clean(value));
    SingleChange10(Clean(value), i, UpperChar(c));
  }

  lemma Length10(s: string)
    requires Valid10(s)
    ensures |s| == 10
  {
  }
}
