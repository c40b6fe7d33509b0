/**
  What it means for an import to lose no content, and what one move does to it.

  The importer's only licence to drop a content is its own rule "a file of the same size at the
  target is the same file". A log records every move with the files before and after it, so each use of
  that rule on two different contents is visible with its paths, and conservation is stated exactly: a
  content survives, or was taken for one that stands in for it at the very path it was headed for.
*/
module Conservation {
  import opened FileSystems
  import opened MediaNames

  /** One move: the files before it, the two paths, whether it reported success, and the files after it. */
  datatype Step = Step(before: Files, src: Path, dst: Path, ok: bool, after: Files)

  type Log = seq<Step>

  /** The move took the file at its destination for its source although their contents differ. */
  predicate Judges(s: Step) {
    s.ok && s.src != s.dst && s.src in s.before && s.dst in s.before && s.before[s.src] != s.before[s.dst]
  }

  function Lost(s: Step): Content
    requires Judges(s)
  {
    s.before[s.src]
  }

  function Kept(s: Step): Content
    requires Judges(s)
  {
    s.before[s.dst]
  }

  /** `d` is `c`, or what later moves of the log took `c` for, one after the other. */
  ghost predicate StandsFor(d: Content, c: Content, j: Log)
    decreases |j|
  {
    d == c || exists i :: 0 <= i < |j| && Judges(j[i]) && Lost(j[i]) == c && StandsFor(d, Kept(j[i]), j[i + 1..])
  }

  lemma {:induction false} StandsLater(d: Content, c: Content, j: Log, k: Log)
    requires StandsFor(d, c, k)
    ensures StandsFor(d, c, j + k)
  {
    if d != c {
      var i :| 0 <= i < |k| && Judges(k[i]) && Lost(k[i]) == c && StandsFor(d, Kept(k[i]), k[i + 1..]);
      assert (j + k)[|j| + i] == k[i] && (j + k)[|j| + i + 1..] == k[i + 1..];
    }
  }

  /** Standing in carries over: what stands for `d` after stands for what `d` stood for before. */
  lemma {:induction false} StandsOn(e: Content, d: Content, c: Content, j: Log, k: Log)
    requires StandsFor(d, c, j) && StandsFor(e, d, k)
    ensures StandsFor(e, c, j + k)
    decreases |j|
  {
    if d == c {
      StandsLater(e, c, j, k);
    } else {
      var i :| 0 <= i < |j| && Judges(j[i]) && Lost(j[i]) == c && StandsFor(d, Kept(j[i]), j[i + 1..]);
      StandsOn(e, d, Kept(j[i]), j[i + 1..], k);
      assert (j + k)[i] == j[i] && (j + k)[i + 1..] == j[i + 1..] + k;
    }
  }

  /** A stand-in has the size of what it stands for. */
  lemma {:induction false} StandInHasSize(d: Content, c: Content, j: Log)
    requires StandsFor(d, c, j) && forall i :: 0 <= i < |j| ==> MoveDone(j[i])
    ensures |d| == |c|
    decreases |j|
  {
    if d != c {
      var i :| 0 <= i < |j| && Judges(j[i]) && Lost(j[i]) == c && StandsFor(d, Kept(j[i]), j[i + 1..]);
      StandInHasSize(d, Kept(j[i]), j[i + 1..]);
      assert MoveDone(j[i]);
    }
  }

  ghost predicate JudgesNothing(j: Log) {
    forall i :: 0 <= i < |j| ==> !Judges(j[i])
  }

  lemma NothingStandsIn(d: Content, c: Content, j: Log)
    requires JudgesNothing(j) && StandsFor(d, c, j)
    ensures d == c
  {
  }

  /** Some file of `zone` holds `c` or a stand-in for it. */
  ghost predicate Survives(c: Content, f: Files, j: Log, zone: iset<Path>) {
    exists p :: p in f && p in zone && StandsFor(f[p], c, j)
  }

  /** Every content of `vals` survives in `zone`. */
  ghost predicate Keeps(vals: set<Content>, f: Files, j: Log, zone: iset<Path>) {
    forall c :: c in vals ==> Survives(c, f, j, zone)
  }

  /** Every file of `zone` holds a content of `vals`. */
  ghost predicate Stems(vals: set<Content>, f: Files, zone: iset<Path>) {
    forall p :: p in f && p in zone ==> f[p] in vals
  }

  /** Each judgement confused two different contents of `vals` that have the same size. */
  ghost predicate SameSizeOnly(vals: set<Content>, j: Log) {
    forall i :: 0 <= i < |j| && Judges(j[i]) ==>
        Lost(j[i]) in vals && Kept(j[i]) in vals && |Lost(j[i])| == |Kept(j[i])|
  }

  /** Files outside `dir`, other than the `touched` ones, are untouched. */
  ghost predicate SameOutside(f: Files, f': Files, dir: Path, touched: seq<Path>) {
    forall p :: p in f && !Under(p, dir) && p !in touched ==> p in f' && f'[p] == f[p]
  }

  /** The paths an import answers for: everything outside the incoming directory `dir`, and its media files. */
  ghost function Durable(dir: Path): iset<Path> {
    iset p: Path | Under(p, dir) ==> IsMedia(Base(p))
  }

  ghost function DurableContents(f: Files, dir: Path): set<Content> {
    set p | p in f && p in Durable(dir) :: f[p]
  }

  /** The paths that outlive the final removal of `dir`, and those of `pending`. */
  ghost function Zone(dir: Path, pending: seq<Path>): iset<Path> {
    iset p: Path | !Under(p, dir) || p in pending
  }

  /** The effect of one `moveOrCopy`. */
  ghost predicate MoveSpec(f: Files, f': Files, src: Path, dst: Path, ok: bool) {
    if src == dst then
      ok && f' == f
    else if dst in f then
      if src in f && |f[src]| == |f[dst]| then ok && (f' == f || f' == f - {src})
      else !ok && f' == f
    else if ok then src in f && (f' == f[dst := f[src]] || f' == f[dst := f[src]] - {src})
    else f' == f || PartialCopy(f, f', src, dst)
  }

  ghost predicate MoveDone(s: Step) {
    MoveSpec(s.before, s.after, s.src, s.dst, s.ok)
  }

  /** One move, logged. */
  ghost predicate MoveStep(f: Files, f': Files, j: Log, j': Log, src: Path, dst: Path, ok: bool) {
    MoveSpec(f, f', src, dst, ok) && j' == j + [Step(f, src, dst, ok, f')]
  }

  // ---- what the log says

  /** The log's moves, done one after the other, lead from `f` to `f'`. */
  ghost predicate Traced(f: Files, j: Log, f': Files) {
    if j == [] then f' == f
    else var last := j[|j| - 1]; Traced(f, j[..|j| - 1], last.before) && MoveDone(last) && f' == last.after
  }

  type Routes = iset<(Path, Path)>

  /** From `f` with log `j` to `f'` with log `j'` by moves along the given routes only. */
  ghost predicate Extends(f: Files, j: Log, f': Files, j': Log, routes: Routes) {
    j <= j' && Traced(f, j'[|j|..], f') && forall i :: |j| <= i < |j'| ==> (j'[i].src, j'[i].dst) in routes
  }

  lemma ExtendsNot(f: Files, j: Log, routes: Routes)
    ensures Extends(f, j, f, j, routes)
  {
  }

  lemma ExtendsByMove(f: Files, f': Files, j: Log, j': Log, src: Path, dst: Path, ok: bool, routes: Routes)
    requires MoveStep(f, f', j, j', src, dst, ok) && (src, dst) in routes
    ensures Extends(f, j, f', j', routes)
  {
    var x := Step(f, src, dst, ok, f');
    assert j'[|j|..] == [x] && [x][..0] == [];
    assert Traced(f, [], f);
  }

  lemma {:induction false} TracedConcat(f: Files, a: Log, g: Files, b: Log, h: Files)
    requires Traced(f, a, g) && Traced(g, b, h)
    ensures Traced(f, a + b, h)
  {
    if b == [] {
      assert a + b == a;
    } else {
      var n := |b| - 1;
      TracedConcat(f, a, g, b[..n], b[n].before);
      assert (a + b)[..|a + b| - 1] == a + b[..n];
    }
  }

  lemma ExtendsOn(f: Files, a: Log, g: Files, b: Log, h: Files, c: Log, some: Routes, more: Routes, routes: Routes)
    requires Extends(f, a, g, b, some) && Extends(g, b, h, c, more) && some <= routes && more <= routes
    ensures Extends(f, a, h, c, routes)
  {
    TracedConcat(f, b[|a|..], g, c[|b|..], h);
    assert c[..|b|] == b && c[|a|..] == b[|a|..] + c[|b|..];
    forall i | |a| <= i < |c|
      ensures (c[i].src, c[i].dst) in routes
    {
      assert i < |b| ==> c[i] == b[i];
    }
  }

  lemma {:induction false} TracedMoves(f: Files, j: Log, f': Files)
    requires Traced(f, j, f')
    ensures forall i :: 0 <= i < |j| ==> MoveDone(j[i])
  {
    if j != [] {
      var n := |j| - 1;
      TracedMoves(f, j[..n], j[n].before);
      assert forall i :: 0 <= i < n ==> j[..n][i] == j[i];
    }
  }

  // ---- what one move does

  lemma SurvivesMove(c: Content, f: Files, f': Files, j: Log, j': Log,
                     src: Path, dst: Path, ok: bool, zone: iset<Path>, zone': iset<Path>)
    requires MoveStep(f, f', j, j', src, dst, ok)
    requires Survives(c, f, j, zone)
    requires dst in zone' && (ok || src in zone')
    requires forall p :: p in zone && p != src ==> p in zone'
    ensures Survives(c, f', j', zone')
  {
    var p :| p in f && p in zone && StandsFor(f[p], c, j);
    var x := Step(f, src, dst, ok, f');
    StandsOn(f[p], f[p], c, j, [x]);
    if p == src && src != dst && ok {
      if dst in f && f[dst] != f[src] {
        assert [x][0] == x && [x][1..] == [] && StandsFor(f[dst], f[dst], []);
        assert StandsFor(f[dst], f[src], [x]);
        StandsOn(f[dst], f[src], c, j, [x]);
      }
      assert dst in f' && StandsFor(f'[dst], c, j');
    } else {
      assert p in f' && f'[p] == f[p] && p in zone';
    }
  }

  /** A move keeps every content: what was at `src` is now at `dst`, or what is there stands for it. */
  lemma MoveKeeps(vals: set<Content>, f: Files, f': Files, j: Log, j': Log,
                  src: Path, dst: Path, ok: bool, zone: iset<Path>, zone': iset<Path>)
    requires MoveStep(f, f', j, j', src, dst, ok)
    requires Keeps(vals, f, j, zone)
    requires dst in zone' && (ok || src in zone')
    requires forall p :: p in zone && p != src ==> p in zone'
    ensures Keeps(vals, f', j', zone')
  {
    hide MoveStep, Survives;
    forall c | c in vals
      ensures Survives(c, f', j', zone')
    {
      SurvivesMove(c, f, f', j, j', src, dst, ok, zone, zone');
    }
  }

  /** A successful move inside the zone brings no new content into it. */
  lemma MoveStems(vals: set<Content>, f: Files, f': Files, j: Log, j': Log,
                  src: Path, dst: Path, zone: iset<Path>, zone': iset<Path>)
    requires MoveStep(f, f', j, j', src, dst, true)
    requires Stems(vals, f, zone)
    requires src in zone && dst in zone && zone' <= zone
    ensures Stems(vals, f', zone')
  {
  }

  lemma MoveJudgesHonestly(vals: set<Content>, f: Files, f': Files, j: Log, j': Log,
                           src: Path, dst: Path, ok: bool)
    requires MoveStep(f, f', j, j', src, dst, ok)
    requires Stems(vals, f, iset{src, dst})
    requires SameSizeOnly(vals, j)
    ensures SameSizeOnly(vals, j')
  {
  }

  /**
    What an import maintains: all durable contents are at durable paths, the protected ones are in
    the zone, nothing is invented, and only same-size files were confused.
  */
  ghost predicate Conserving(dir: Path, all: set<Content>, kept: set<Content>, f: Files, j: Log, zone: iset<Path>) {
    && Keeps(all, f, j, Durable(dir))
    && Stems(all, f, Durable(dir))
    && SameSizeOnly(all, j)
    && Keeps(kept, f, j, zone)
    && Stems(kept, f, zone)
  }

  /** What every exit leaves, including those right after a failed operation. */
  ghost predicate NothingLost(dir: Path, all: set<Content>, f: Files, j: Log) {
    Keeps(all, f, j, Durable(dir)) && SameSizeOnly(all, j)
  }

  lemma ConservingLosesNothing(dir: Path, all: set<Content>, kept: set<Content>, f: Files, j: Log, zone: iset<Path>)
    requires Conserving(dir, all, kept, f, j, zone)
    ensures NothingLost(dir, all, f, j)
  {
  }

  lemma StemsAt(vals: set<Content>, f: Files, a: Path, b: Path, zone: iset<Path>)
    requires Stems(vals, f, zone) && a in zone && b in zone
    ensures Stems(vals, f, iset{a, b})
  {
  }

  lemma MoveConserves(dir: Path, all: set<Content>, kept: set<Content>, f: Files, f': Files, j: Log, j': Log,
                      src: Path, dst: Path, ok: bool, zone: iset<Path>, zone': iset<Path>)
    requires MoveStep(f, f', j, j', src, dst, ok)
    requires Conserving(dir, all, kept, f, j, zone)
    requires src in Durable(dir) && dst in Durable(dir)
    requires src in zone && dst in zone' && zone' <= zone
    requires forall p :: p in zone && p != src ==> p in zone'
    ensures NothingLost(dir, all, f', j')
    ensures ok ==> Conserving(dir, all, kept, f', j', zone')
  {
    hide MoveStep, Keeps, Stems, SameSizeOnly, Durable;
    StemsAt(all, f, src, dst, Durable(dir));
    MoveKeeps(all, f, f', j, j', src, dst, ok, Durable(dir), Durable(dir));
    MoveJudgesHonestly(all, f, f', j, j', src, dst, ok);
    if ok {
      MoveKeeps(kept, f, f', j, j', src, dst, ok, zone, zone');
      MoveStems(all, f, f', j, j', src, dst, Durable(dir), Durable(dir));
      MoveStems(kept, f, f', j, j', src, dst, zone, zone');
    }
  }

  /** `f'` extends `f` apart from the files `a` and `b`. */
  ghost predicate SameBut(f: Files, f': Files, a: Path, b: Path) {
    forall p :: p in f && p != a && p != b ==> p in f' && f'[p] == f[p]
  }

  /** A move touches no existing file but its source. */
  lemma MoveFrames(f0: Files, f: Files, f': Files, j: Log, j': Log, src: Path, dst: Path, ok: bool,
                   dir: Path, touched: seq<Path>)
    requires SameOutside(f0, f, dir, touched)
    requires MoveStep(f, f', j, j', src, dst, ok)
    requires Under(src, dir) || src in touched
    ensures SameOutside(f0, f', dir, touched)
    ensures forall p :: p in f && p != src ==> p in f' && f'[p] == f[p]
    ensures ok && src in f ==> dst in f'
  {
  }

  lemma MoveSettles(f: Files, f': Files, j: Log, j': Log, src: Path, dst: Path)
    requires MoveStep(f, f', j, j', src, dst, true)
    requires src in f
    ensures Settled(f[src], f', j', dst)
    ensures j <= j' && SameBut(f, f', src, src)
  {
    SurvivesMove(f[src], f, f', j, j', src, dst, true, iset{src}, iset{dst});
  }

  /** The file at `p` holds content `c` or a stand-in for it. */
  ghost predicate Settled(c: Content, f: Files, j: Log, p: Path) {
    p in f && StandsFor(f[p], c, j)
  }

  /** Handling `rest[i]` takes at most that path out of the zone. */
  lemma ZoneDrops(dir: Path, done: seq<Path>, rest: seq<Path>, i: nat)
    requires i < |rest|
    ensures Zone(dir, done + rest[i + 1..]) <= Zone(dir, done + rest[i..])
    ensures forall p :: p in Zone(dir, done + rest[i..]) && p != rest[i] ==> p in Zone(dir, done + rest[i + 1..])
    ensures rest[i] in Zone(dir, done + rest[i..])
    ensures forall p :: p in done || !Under(p, dir) ==> p in Zone(dir, done + rest[i + 1..])
  {
    assert rest[i..] == [rest[i]] + rest[i + 1..];
    forall p
      ensures p in rest[i..] <==> p == rest[i] || p in rest[i + 1..]
    {
    }
  }
}
