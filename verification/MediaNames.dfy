/** File-name helpers of the importer: extensions, media filter, keep-both and trash names. */
module MediaNames {
  import opened FileSystems
  import opened Text

  function Itoa(n: nat): string {
    if n < 10 then [Digit(n)] else Itoa(n / 10) + [Digit(n % 10)]
  }

  function Digit(d: nat): char
    requires d < 10
  {
    "0123456789"[d]
  }

  /** `filepath.Ext`: the suffix from the last dot, or nothing. */
  function Ext(name: string): (ext: string)
    ensures |ext| <= |name|
  {
    if name == "" then ""
    else if name[|name| - 1] == '.' then "."
    else
      var e := Ext(name[..|name| - 1]);
      if e == "" then "" else e + [name[|name| - 1]]
  }

  function Stem(name: string): string {
    name[..|name| - |Ext(name)|]
  }

  predicate Contains(s: string, sub: string) {
    sub <= s || (s != "" && Contains(s[1..], sub))
  }

  const SUPPORTED := {".epub", ".mobi", ".azw3", ".pdf", ".m4b", ".mp3", ".m4a", ".flac"}

  predicate IsMedia(name: string) {
    var lower := ToLower(Trim(name));
    !Contains(lower, "sample") && Ext(lower) in SUPPORTED
  }

  /** What the decimal digits say. */
  function ReadBack(s: string): int {
    if s == "" then 0 else 10 * ReadBack(s[..|s| - 1]) + (s[|s| - 1] as int - '0' as int)
  }

  /** A written number reads back as itself, so different numbers are written differently. */
  lemma {:induction false} ItoaReadsBack(n: nat)
    ensures Itoa(n) != "" && ReadBack(Itoa(n)) == n
    ensures forall i :: 0 <= i < |Itoa(n)| ==> '0' <= Itoa(n)[i] <= '9'
  {
    DigitReads(n % 10);
    if n < 10 {
      assert Itoa(n)[..0] == "" && ReadBack("") == 0;
    } else {
      ItoaReadsBack(n / 10);
      assert Itoa(n)[..|Itoa(n)| - 1] == Itoa(n / 10);
    }
  }

  lemma DigitReads(d: nat)
    requires d < 10
    ensures Digit(d) as int - '0' as int == d && '0' <= Digit(d) <= '9'
  {
  }

  lemma {:induction false} ContainsIff(s: string, sub: string)
    ensures Contains(s, sub) <==> exists i, k :: 0 <= i <= k <= |s| && s[i..k] == sub
  {
    if s != "" {
      ContainsIff(s[1..], sub);
      if exists i, k :: 0 <= i <= k <= |s[1..]| && s[1..][i..k] == sub {
        var i, k :| 0 <= i <= k <= |s[1..]| && s[1..][i..k] == sub;
        assert s[i + 1..k + 1] == sub;
      }
      if exists i, k :: 0 <= i <= k <= |s| && s[i..k] == sub {
        var i, k :| 0 <= i <= k <= |s| && s[i..k] == sub;
        if i > 0 {
          assert s[1..][i - 1..k - 1] == sub;
        }
      }
      if sub <= s {
        assert s[0..|sub|] == sub;
      }
    } else if sub == "" {
      assert s[0..0] == sub;
    }
  }

  lemma {:induction false} NoDotNoExt(name: string)
    requires '.' !in name
    ensures Ext(name) == ""
  {
    if name != "" {
      NoDotNoExt(name[..|name| - 1]);
    }
  }

  /** The extension is the last dot and what follows it. */
  lemma {:induction false} ExtOfTail(stem: string, tail: string)
    requires '.' !in tail
    ensures Ext(stem + "." + tail) == "." + tail
  {
    var name := stem + "." + tail;
    if tail == "" {
      assert name[|name| - 1] == '.';
    } else {
      var front, c := tail[..|tail| - 1], tail[|tail| - 1];
      ExtOfTail(stem, front);
      assert c in tail && name[..|name| - 1] == stem + "." + front && name[|name| - 1] == c;
      assert "." + tail == "." + front + [c];
    }
  }

  /** A media file is one of these eight kinds by the end of its name, and no sample. */
  lemma IsMediaIff(name: string)
    ensures var n, kinds := ToLower(Trim(name)), ["epub", "mobi", "azw3", "pdf", "m4b", "mp3", "m4a", "flac"];
            IsMedia(name)
            <==> (exists k, stem :: 0 <= k < |kinds| && n == stem + "." + kinds[k])
                 && !exists i, k :: 0 <= i <= k <= |n| && n[i..k] == "sample"
  {
    var n, kinds := ToLower(Trim(name)), ["epub", "mobi", "azw3", "pdf", "m4b", "mp3", "m4a", "flac"];
    ContainsIff(n, "sample");
    hide Contains, Trim, ToLower;
    forall k | 0 <= k < |kinds|
      ensures Ext(n) == "." + kinds[k] <==> exists stem :: n == stem + "." + kinds[k]
    {
      EndsIn(n, kinds[k]);
    }
    hide Ext;
    SupportedKinds(Ext(n));
  }

  lemma SupportedKinds(ext: string)
    ensures var kinds := ["epub", "mobi", "azw3", "pdf", "m4b", "mp3", "m4a", "flac"];
            ext in SUPPORTED <==> exists k :: 0 <= k < |kinds| && ext == "." + kinds[k]
  {
    var kinds := ["epub", "mobi", "azw3", "pdf", "m4b", "mp3", "m4a", "flac"];
    assert "." + kinds[0] == ".epub" && "." + kinds[1] == ".mobi" && "." + kinds[2] == ".azw3"
           && "." + kinds[3] == ".pdf" && "." + kinds[4] == ".m4b" && "." + kinds[5] == ".mp3"
           && "." + kinds[6] == ".m4a" && "." + kinds[7] == ".flac";
  }

  lemma EndsIn(n: string, kind: string)
    requires kind in ["epub", "mobi", "azw3", "pdf", "m4b", "mp3", "m4a", "flac"]
    ensures Ext(n) == "." + kind <==> exists stem :: n == stem + "." + kind
  {
    assert '.' !in kind;
    ExtIsEnd(n);
    hide Ext;
    if Ext(n) == "." + kind {
      assert n == n[..|n| - |Ext(n)|] + "." + kind;
    }
    forall stem | n == stem + "." + kind
      ensures Ext(n) == "." + kind
    {
      ExtOfTail(stem, kind);
    }
  }

  lemma {:induction false} ExtIsEnd(name: string)
    ensures Ext(name) == name[|name| - |Ext(name)|..]
  {
    if name != "" && name[|name| - 1] != '.' {
      ExtIsEnd(name[..|name| - 1]);
    }
  }

  /** `name (copy).ext`, `name (copy 2).ext`, ... */
  function CopyPath(original: Path, i: nat): Path
    requires original != []
  {
    var name := Base(original);
    Dir(original) + [Stem(name) + (if i <= 1 then " (copy)" else " (copy " + Itoa(i) + ")") + Ext(name)]
  }

  /** `name (copy-stamp).ext`, when all numbered names are taken. */
  function StampedCopy(original: Path, unix: nat): Path
    requires original != []
  {
    Dir(original) + [Stem(Base(original)) + " (copy-" + Itoa(unix) + ")" + Ext(Base(original))]
  }

  ghost predicate IsCopyName(original: Path, p: Path)
    requires original != []
  {
    (exists i: nat :: p == CopyPath(original, i)) || (exists unix: nat :: p == StampedCopy(original, unix))
  }

  ghost predicate IsTrashName(trashDir: Path, base: string, p: Path) {
    exists stamp: string, i: nat :: p == TrashPath(trashDir, base, stamp, i)
  }

  /** `name.stamp`, `name.stamp.1`, ... in the trash directory. */
  function TrashPath(trashDir: Path, base: string, stamp: string, i: nat): Path {
    trashDir + [base + "." + stamp + if i == 0 then "" else "." + Itoa(i)]
  }

  lemma ItoaDiffers(i: nat, k: nat)
    requires i != k
    ensures Itoa(i) != Itoa(k)
  {
    ItoaReadsBack(i);
    ItoaReadsBack(k);
  }

  // a text with a number in the middle tells the number
  lemma BetweenDiffers(a: string, x: string, y: string, b: string)
    ensures a + x + b == a + y + b ==> x == y
  {
    var s, t := a + x + b, a + y + b;
    assert s[|a|..|a| + |x|] == x && t[|a|..|a| + |y|] == y;
    assert |s| == |a| + |x| + |b| && |t| == |a| + |y| + |b|;
  }

  lemma CopyNameIs(original: Path, i: nat)
    requires original != []
    ensures CopyPath(original, i) != []
    ensures var stem, ext := Stem(Base(original)), Ext(Base(original));
            Base(CopyPath(original, i)) == if i <= 1 then stem + " (copy)" + ext
                                           else stem + " (copy " + Itoa(i) + (")" + ext)
  {
    hide Itoa, Ext, Stem;
  }

  /** No two copy names of a file are the same, nor is one its own name. */
  lemma CopiesDiffer(original: Path, i: nat, k: nat)
    requires original != [] && 1 <= i < k
    ensures CopyPath(original, i) != CopyPath(original, k) && CopyPath(original, i) != original
  {
    var stem, ext := Stem(Base(original)), Ext(Base(original));
    ExtIsEnd(Base(original));
    assert Base(original) == stem + ext;
    ItoaDiffers(i, k);
    ItoaReadsBack(k);
    ItoaReadsBack(i);
    hide *;
    CopyNameIs(original, i);
    CopyNameIs(original, k);
    var x, y := Base(CopyPath(original, i)), Base(CopyPath(original, k));
    assert |x| > |stem + ext| && (i == 1 ==> |x| < |y|);
    BetweenDiffers(stem + " (copy ", Itoa(i), Itoa(k), ")" + ext);
  }

  /** A copy has the extension of its original, so it is media of the same kind. */
  lemma CopyKeepsExt(original: Path, i: nat)
    requires original != []
    ensures Ext(Base(CopyPath(original, i))) == Ext(Base(original))
  {
    var name := Base(original);
    var mark := if i <= 1 then " (copy)" else " (copy " + Itoa(i) + ")";
    ExtParts(name);
    MarkHasNoDot(i);
    hide Itoa, Ext, Stem;
    ExtBehind(Stem(name) + mark, Ext(name));
    DotsOf(Stem(name), mark);
    assert Base(CopyPath(original, i)) == Stem(name) + mark + Ext(name);
  }

  lemma MarkHasNoDot(i: nat)
    ensures '.' !in if i <= 1 then " (copy)" else " (copy " + Itoa(i) + ")"
  {
    ItoaReadsBack(i);
    hide Itoa;
    assert forall c :: c in Itoa(i) ==> c != '.';
  }

  lemma DotsOf(a: string, b: string)
    ensures '.' !in a && '.' !in b ==> '.' !in a + b
  {
  }

  lemma ExtBehind(front: string, ext: string)
    requires if ext == "" then '.' !in front else ext[0] == '.' && '.' !in ext[1..]
    ensures Ext(front + ext) == ext
  {
    hide Ext;
    if ext == "" {
      assert front + ext == front;
      NoDotNoExt(front);
    } else {
      ExtOfTail(front, ext[1..]);
      assert ext == "." + ext[1..];
      assert front + ext == front + "." + ext[1..];
    }
  }

  lemma ExtParts(name: string)
    ensures name == Stem(name) + Ext(name)
    ensures Ext(name) == "" ==> '.' !in Stem(name)
    ensures if Ext(name) == "" then '.' !in name else Ext(name)[0] == '.' && '.' !in Ext(name)[1..]
  {
    ExtIsEnd(name);
    ExtShape(name);
    hide Ext;
    assert name == name[..|name| - |Ext(name)|] + name[|name| - |Ext(name)|..];
  }

  lemma {:induction false} ExtShape(name: string)
    ensures if Ext(name) == "" then '.' !in name else Ext(name)[0] == '.' && '.' !in Ext(name)[1..]
  {
    if name != "" {
      var n := |name| - 1;
      ExtShape(name[..n]);
      assert name == name[..n] + [name[n]];
      var e := Ext(name[..n]);
      assert e != "" ==> (e + [name[n]])[1..] == e[1..] + [name[n]];
    }
  }

  /** No two trash names of one moment are the same. */
  lemma TrashNamesDiffer(trashDir: Path, base: string, stamp: string, i: nat, k: nat)
    requires i < k
    ensures TrashPath(trashDir, base, stamp, i) != TrashPath(trashDir, base, stamp, k)
  {
    ItoaDiffers(i, k);
    ItoaReadsBack(k);
    hide Itoa;
    var x, y := Base(TrashPath(trashDir, base, stamp, i)), Base(TrashPath(trashDir, base, stamp, k));
    assert y == base + "." + stamp + "." + Itoa(k) + "";
    if i == 0 {
      assert x == base + "." + stamp;
      assert |x| != |y|;
    } else {
      assert x == base + "." + stamp + "." + Itoa(i) + "";
      BetweenDiffers(base + "." + stamp + ".", Itoa(i), Itoa(k), "");
    }
  }

  lemma NamesTrash(trashDir: Path, base: string, stamp: string, i: nat)
    ensures IsTrashName(trashDir, base, TrashPath(trashDir, base, stamp, i))
  {
    var p := TrashPath(trashDir, base, stamp, i);
    hide TrashPath;
    assert p == TrashPath(trashDir, base, stamp, i);
  }

  lemma NamesCopy(original: Path, i: nat)
    requires original != []
    ensures IsCopyName(original, CopyPath(original, i)) && IsCopyName(original, StampedCopy(original, i))
  {
    var p, q := CopyPath(original, i), StampedCopy(original, i);
    hide CopyPath, StampedCopy;
    assert p == CopyPath(original, i) && q == StampedCopy(original, i);
  }

  /** The name used when all numbered ones are taken. */
  ghost predicate IsStampedCopy(original: Path, p: Path)
    requires original != []
  {
    exists unix: nat :: p == StampedCopy(original, unix)
  }

  lemma StampsCopy(original: Path, unix: nat)
    requires original != []
    ensures IsStampedCopy(original, StampedCopy(original, unix))
  {
    var p := StampedCopy(original, unix);
    hide StampedCopy;
    assert p == StampedCopy(original, unix);
  }

  /** A numbered trash name of this stamp, or the name used when all of those are taken. */
  ghost predicate IsTriedTrash(trashDir: Path, base: string, stamp: string, p: Path) {
    || (exists i: nat :: i <= 1000 && p == TrashPath(trashDir, base, stamp, i))
    || (exists nanos: nat :: p == TrashPath(trashDir, base, Itoa(nanos), 0))
  }

  lemma TriesTrash(trashDir: Path, base: string, stamp: string, i: nat, nanos: nat)
    ensures i <= 1000 ==> IsTriedTrash(trashDir, base, stamp, TrashPath(trashDir, base, stamp, i))
    ensures IsTriedTrash(trashDir, base, stamp, TrashPath(trashDir, base, Itoa(nanos), 0))
  {
    var p, q := TrashPath(trashDir, base, stamp, i), TrashPath(trashDir, base, Itoa(nanos), 0);
    hide TrashPath, Itoa;
    assert p == TrashPath(trashDir, base, stamp, i) && q == TrashPath(trashDir, base, Itoa(nanos), 0);
  }

  lemma CopyIsBeside(original: Path, p: Path)
    requires original != [] && IsCopyName(original, p)
    ensures p != [] && Dir(p) == Dir(original)
  {
    hide Stem, Ext, Itoa;
  }

  /** `i` is the first index from `lo` on whose keep-both path is free. */
  ghost predicate FirstFreeCopy(f: Files, original: Path, i: nat)
    requires original != []
  {
    CopyPath(original, i) !in f && forall k: nat :: 1 <= k < i ==> CopyPath(original, k) in f
  }

  ghost predicate TrashNamesTaken(f: Files, trashDir: Path, base: string, stamp: string, n: nat) {
    forall i: nat :: i < n ==> TrashPath(trashDir, base, stamp, i) in f
  }
}
