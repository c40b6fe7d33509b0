/** Release fingerprints: the text by which candidates of different backends count as one release. */
module Fingerprints {
  import opened Wrappers
  import opened Text
  import opened Sorting
  import Paths
  import MediaNames

  datatype Candidate = Candidate(
    candidateID: string, title: string, protocol: string, identifiers: map<string, string>,
    sizeBytes: Option<int>, seeders: Option<int>, source: string, score: real)

  function Normal(v: string): string {
    ToLower(Trim(v))
  }

  function NonBlank(values: seq<string>): seq<string> {
    if values == [] then []
    else (if Normal(values[0]) == "" then [] else [Normal(values[0])]) + NonBlank(values[1..])
  }

  /** The values of a map in some order. */
  ghost function Listing(ids: map<string, string>): seq<string>
    decreases |ids|
  {
    if ids == map[] then []
    else
      var k :| k in ids;
      assert |ids - {k}| < |ids| by { Smaller(ids, k); }
      [ids[k]] + Listing(ids - {k})
  }

  lemma Smaller(ids: map<string, string>, k: string)
    requires k in ids
    ensures |ids - {k}| < |ids|
  {
    assert (ids - {k}).Keys == ids.Keys - {k};
    assert |ids - {k}| == |(ids - {k}).Keys| && |ids| == |ids.Keys|;
  }

  ghost function Values(ids: map<string, string>): multiset<string> {
    multiset(NonBlank(Listing(ids)))
  }

  function One(v: string): multiset<string> {
    if Normal(v) == "" then multiset{} else multiset{Normal(v)}
  }

  lemma FirstValue(ids: map<string, string>) returns (first: string)
    requires ids != map[]
    ensures first in ids && Values(ids) == One(ids[first]) + Values(ids - {first})
  {
    hide Normal;
    first :| first in ids && Listing(ids) == [ids[first]] + Listing(ids - {first});
  }

  /** Whichever entry is taken first, the values are the same. */
  lemma {:induction false} ValuesWithout(ids: map<string, string>, k: string)
    requires k in ids
    ensures Values(ids) == One(ids[k]) + Values(ids - {k})
    decreases |ids|
  {
    hide Values, One;
    var first := FirstValue(ids);
    if first != k {
      Smaller(ids, first);
      Smaller(ids, k);
      ValuesWithout(ids - {first}, k);
      ValuesWithout(ids - {k}, first);
      assert ids - {first} - {k} == ids - {k} - {first};
    }
  }

  /** The sorted values, whose order in the map does not matter. */
  ghost function IdentifierPart(ids: map<string, string>): string {
    Paths.Join(Sort(NonBlank(Listing(ids)), StringLess), ';')
  }

  lemma StringLessIsWeak()
    ensures WeakOrder(StringLess) && forall a, b :: a == b || StringLess(a, b) || StringLess(b, a)
  {
    hide StringLess;
    StringLessIsStrict();
    forall x, y, z | StringLess(x, z)
      ensures StringLess(x, y) || StringLess(y, z)
    {
      assert x == y || StringLess(x, y) || StringLess(y, x);
    }
  }

  lemma SortedAlike(a: seq<string>, b: seq<string>)
    requires multiset(a) == multiset(b)
    ensures Sort(a, StringLess) == Sort(b, StringLess)
  {
    hide StringLess;
    StringLessIsWeak();
    SortNeverDescends(a, StringLess);
    SortNeverDescends(b, StringLess);
    SortPermutes(a, StringLess);
    SortPermutes(b, StringLess);
    NeverDescendingIsUnique(Sort(a, StringLess), Sort(b, StringLess), StringLess);
  }

  /** The identifier part depends on the normalised values alone, not on their names or order. */
  lemma SameValuesSamePart(a: map<string, string>, b: map<string, string>)
    requires Values(a) == Values(b)
    ensures IdentifierPart(a) == IdentifierPart(b)
  {
    SortedAlike(NonBlank(Listing(a)), NonBlank(Listing(b)));
  }

  function Megabytes(bytes: int): int {
    if bytes >= 0 then bytes / 1048576 else -(-bytes / 1048576)
  }

  function Itoa64(v: int): string {
    if v < 0 then "-" + MediaNames.Itoa(-v) else MediaNames.Itoa(v)
  }

  function SizePart(c: Candidate): string {
    if c.sizeBytes.None? then "" else Itoa64(Megabytes(c.sizeBytes.value))
  }

  function TitlePart(c: Candidate): string {
    ToLower(Paths.Join(Fields(Trim(c.title)), ' '))
  }

  ghost function Fingerprint(c: Candidate): string {
    (if IdentifierPart(c.identifiers) != "" then IdentifierPart(c.identifiers) else TitlePart(c))
    + "|" + Normal(c.protocol) + "|" + SizePart(c)
  }

  /** Two sizes share their part if and only if they lie in the same megabyte, of 2^20 bytes from zero up. */
  lemma SizeBucketIff(a: Candidate, b: Candidate)
    requires a.sizeBytes.Some? && b.sizeBytes.Some? && a.sizeBytes.value >= 0 && b.sizeBytes.value >= 0
    ensures SizePart(a) == SizePart(b)
            <==> exists m: nat ::
                   m * 1048576 <= a.sizeBytes.value < (m + 1) * 1048576
                   && m * 1048576 <= b.sizeBytes.value < (m + 1) * 1048576
  {
    var x, y := a.sizeBytes.value, b.sizeBytes.value;
    var m, n := x / 1048576, y / 1048576;
    assert m * 1048576 <= x < (m + 1) * 1048576 && n * 1048576 <= y < (n + 1) * 1048576;
    hide MediaNames.Itoa;
    if m != n {
      MediaNames.ItoaDiffers(m, n);
    }
  }

  /** Without identifiers the words of the title count, however they are spaced and in whatever case. */
  lemma TitleSpellingDoesNotMatter(a: Candidate, b: Candidate)
    requires a.identifiers == map[] && b.identifiers == map[]
    requires |Fields(Trim(a.title))| == |Fields(Trim(b.title))|
    requires forall i :: 0 <= i < |Fields(Trim(a.title))| ==>
               ToLower(Fields(Trim(a.title))[i]) == ToLower(Fields(Trim(b.title))[i])
    requires ToLower(Trim(a.protocol)) == ToLower(Trim(b.protocol)) && SizePart(a) == SizePart(b)
    ensures Fingerprint(a) == Fingerprint(b)
  {
    hide Trim, Fields, SizePart;
    LowerJoin(Fields(Trim(a.title)), Fields(Trim(b.title)));
    assert IdentifierPart(map[]) == "" by { assert NonBlank(Listing(map[])) == []; }
  }

  lemma {:induction false} LowerJoin(a: seq<string>, b: seq<string>)
    requires |a| == |b| && forall i :: 0 <= i < |a| ==> ToLower(a[i]) == ToLower(b[i])
    ensures ToLower(Paths.Join(a, ' ')) == ToLower(Paths.Join(b, ' '))
  {
    if |a| > 1 {
      LowerJoin(a[1..], b[1..]);
      LowerConcat(a[0] + [' '], Paths.Join(a[1..], ' '));
      LowerConcat(b[0] + [' '], Paths.Join(b[1..], ' '));
      LowerConcat(a[0], [' ']);
      LowerConcat(b[0], [' ']);
    }
  }

  lemma LowerConcat(a: string, b: string)
    ensures ToLower(a + b) == ToLower(a) + ToLower(b)
  {
  }

  /** A shared identifier set outweighs different titles. */
  lemma IdentifiersOutweighTitles(a: Candidate, b: Candidate)
    requires Values(a.identifiers) == Values(b.identifiers) && IdentifierPart(a.identifiers) != ""
    requires Normal(a.protocol) == Normal(b.protocol) && SizePart(a) == SizePart(b)
    ensures Fingerprint(a) == Fingerprint(b)
  {
    hide IdentifierPart, Normal;
    SameValuesSamePart(a.identifiers, b.identifiers);
  }

  method SortedIdentifiers(ids: map<string, string>) returns (r: string)
    ensures r == IdentifierPart(ids)
  {
    var rest, vals := ids, [];
    while rest != map[]
      invariant multiset(vals) + Values(rest) == Values(ids)
      decreases |rest|
    {
      hide Normal, Values;
      KeysToo(rest);
      var k := Pick(rest.Keys);
      Smaller(rest, k);
      ValuesWithout(rest, k);
      var s := Normal(rest[k]);
      if s != "" {
        vals := vals + [s];
      }
      rest := rest - {k};
    }
    SortedAlike(vals, NonBlank(Listing(ids)));
    r := Paths.Join(Sort(vals, StringLess), ';');
  }

  lemma KeysToo(ids: map<string, string>)
    requires ids != map[]
    ensures ids.Keys != {}
  {
    assert exists k :: k in ids;
  }

  method ReleaseFingerprint(c: Candidate) returns (r: string)
    ensures r == Fingerprint(c)
  {
    var title := ToLower(Paths.Join(Fields(Trim(c.title)), ' '));
    var protocol := ToLower(Trim(c.protocol));
    var sizePart := "";
    if c.sizeBytes.Some? {
      sizePart := Itoa64(Megabytes(c.sizeBytes.value));
    }
    var idPart := SortedIdentifiers(c.identifiers);
    if idPart != "" {
      return idPart + "|" + protocol + "|" + sizePart;
    }
    return title + "|" + protocol + "|" + sizePart;
  }
}
