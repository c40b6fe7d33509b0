/**
  The import pipeline: staging, collision handling, trash, review decisions and clean-up.
  Naming, the identity match, the download job's upgrade action and the clock are inputs.
*/
module ImportEngine {
  import opened Wrappers
  import opened FileSystems
  import opened Conservation
  import opened MediaNames

  datatype Config = Config(allowCrossDeviceMove: bool, maxScanFiles: int, keepIncoming: bool, trashDir: Path)

  datatype Job = Job(downloadJobID: nat, sourcePath: Path, targetRoot: Path)

  datatype Outcome =
    | Imported(finalTarget: Path)
    | NeedsReview
    | Skipped
    | Failed

  datatype PlanResult = Applied | AskReview | PlanFailed

  datatype DecisionAction = KeepBoth | ReplaceExisting | Skip | Unknown

  function IncomingDir(job: Job): (dir: Path)
    ensures dir != []
  {
    job.targetRoot + ["_incoming", Itoa(job.downloadJobID)]
  }

  /** The incoming directories of two downloads share nothing, and neither lies in the other. */
  lemma IncomingIsApart(a: Job, b: Job, p: Path)
    requires a.targetRoot == b.targetRoot && a.downloadJobID != b.downloadJobID
    ensures IncomingDir(a)[..|IncomingDir(a)| - 1] == a.targetRoot + ["_incoming"]
    ensures ReadBack(Base(IncomingDir(a))) == a.downloadJobID
    ensures IncomingDir(a) <= p ==> !(IncomingDir(b) <= p)
  {
    ItoaReadsBack(a.downloadJobID);
    ItoaDiffers(a.downloadJobID, b.downloadJobID);
    hide Itoa;
    var n := |a.targetRoot|;
    assert |IncomingDir(a)| == |IncomingDir(b)| == n + 2 && IncomingDir(a)[n + 1] != IncomingDir(b)[n + 1];
  }

  /** Where a scanned file is staged: its path relative to the source, below the incoming directory. */
  function StagePath(source: Path, incoming: Path, file: Path): (target: Path)
    ensures incoming <= target
    ensures Under(file, source) ==> Under(target, incoming) && Base(target) == Base(file)
  {
    if source <= file then incoming + file[|source|..]
    else if file == [] then incoming
    else incoming + [Base(file)]
  }

  function StagePaths(source: Path, incoming: Path, files: seq<Path>): (stages: seq<Path>)
    ensures |stages| == |files|
    ensures forall k :: 0 <= k < |files| ==> stages[k] == StagePath(source, incoming, files[k])
  {
    seq(|files|, k requires 0 <= k < |files| => StagePath(source, incoming, files[k]))
  }

  ghost function Targets(staged: seq<Path>, target: Path -> Path): (t: seq<Path>)
    ensures |t| == |staged|
    ensures forall k :: 0 <= k < |staged| ==> t[k] == target(staged[k])
  {
    seq(|staged|, k requires 0 <= k < |staged| => target(staged[k]))
  }

  /** The initial files that an import promises to carry past the removal of `incoming`. */
  ghost function Protected(f: Files, incoming: Path, handled: seq<Path>): Files {
    map p | p in f && (!Under(p, incoming) || p in handled) :: f[p]
  }

  ghost predicate Distinct(s: seq<Path>) {
    forall i, k :: 0 <= i < k < |s| ==> s[i] != s[k]
  }

  function ScanLimit(cfg: Config): nat {
    if cfg.maxScanFiles <= 0 then 5000 else cfg.maxScanFiles
  }

  ghost function Media(f: Files, root: Path): set<Path> {
    set p | p in f && Under(p, root) && IsMedia(Base(p))
  }

  /** Every media file below `root` is among the given paths; a caller can list both. */
  ghost predicate NoStrays(f: Files, root: Path, handled: seq<Path>) {
    forall p :: p in f && Under(p, root) && IsMedia(Base(p)) ==> p in handled
  }

  /** What a log gained over an earlier one. */
  function Since(j0: Log, j: Log): Log {
    if j0 <= j then j[|j0|..] else []
  }

  // ---- where files are allowed to go

  /** A staged file goes to its target or a copy name of it, and what is at the target to the trash. */
  ghost predicate PlanRoute(src: Path, dst: Path, trashDir: Path, a: Path, b: Path)
    requires dst != []
  {
    (a == src && (b == dst || IsCopyName(dst, b))) || (a == dst && IsTrashName(trashDir, Base(dst), b))
  }

  ghost function RoutesOf(src: Path, dst: Path, trashDir: Path): Routes
    requires dst != []
  {
    iset r: (Path, Path) | PlanRoute(src, dst, trashDir, r.0, r.1)
  }

  ghost function PlanRoutes(staged: seq<Path>, target: Path -> Path, trashDir: Path): Routes {
    iset r: (Path, Path) | OnPlanRoute(staged, target, trashDir, r)
  }

  ghost predicate OnPlanRoute(staged: seq<Path>, target: Path -> Path, trashDir: Path, r: (Path, Path)) {
    exists k :: 0 <= k < |staged| && target(staged[k]) != []
        && PlanRoute(staged[k], target(staged[k]), trashDir, r.0, r.1)
  }

  /** A scanned file goes to its staging path. */
  ghost function StageRoutes(scan: seq<Path>, stages: seq<Path>): Routes {
    iset r: (Path, Path) | OnStageRoute(scan, stages, r)
  }

  ghost predicate OnStageRoute(scan: seq<Path>, stages: seq<Path>, r: (Path, Path)) {
    exists k :: 0 <= k < |scan| && k < |stages| && scan[k] == r.0 && stages[k] == r.1
  }

  ghost predicate Routed(j: Log, routes: Routes) {
    forall i :: 0 <= i < |j| ==> (j[i].src, j[i].dst) in routes
  }

  // ---- what an operation can do when nothing fails

  /** No failure in the file system is needed to refuse the move; `near` says that it can cross over. */
  predicate CanMove(f: Files, src: Path, dst: Path, near: bool) {
    src == dst || (src in f && if dst in f then |f[src]| == |f[dst]| else near)
  }

  function Moved(f: Files, src: Path, dst: Path): Files {
    if src == dst || src !in f then f else if dst in f then f - {src} else f[dst := f[src]] - {src}
  }

  /** The plan meets a file of another size, and the upgrade action does not say what to do about it. */
  predicate Collides(f: Files, src: Path, dst: Path, action: string) {
    src in f && dst in f && |f[src]| != |f[dst]| && action != "replace" && action != "keep_both"
  }

  ghost predicate TrashIsFull(f: Files, trashDir: Path, base: string) {
    exists stamp :: TrashNamesTaken(f, trashDir, base, stamp, 1001)
  }

  ghost predicate CopiesAreFull(f: Files, original: Path)
    requires original != []
  {
    forall i: nat :: 1 <= i <= 1000 ==> CopyPath(original, i) in f
  }

  /** No name is left for what is at the target, or for a copy beside it. */
  ghost predicate NamesRunOut(f: Files, dst: Path, action: string, trashDir: Path)
    requires dst != []
  {
    (action == "replace" && TrashIsFull(f, trashDir, Base(dst))) || (action == "keep_both" && CopiesAreFull(f, dst))
  }

  /** A file of another size lies where a scanned file is to be staged. */
  ghost predicate Leftover(f: Files, scan: seq<Path>, stages: seq<Path>) {
    exists i :: 0 <= i < |scan| && i < |stages| && LeftAt(f, scan[i], stages[i])
  }

  predicate LeftAt(f: Files, file: Path, stage: Path) {
    file in f && stage in f && stage != file && |f[stage]| != |f[file]|
  }

  /** The upgrade action that treats an occupied target as the decision does. */
  function Policy(action: DecisionAction): string {
    if action == KeepBoth then "keep_both" else "replace"
  }

  ghost predicate OutOfNames(f: Files, scan: seq<Path>, target: Path -> Path, action: DecisionAction, trashDir: Path,
                             k: nat) {
    k < |scan| && target(scan[k]) != [] && NamesRunOut(f, target(scan[k]), Policy(action), trashDir)
  }

  /** A skip is a skip; a decision to import is carried out exactly when it was for every file of the scan. */
  ghost predicate DecisionOutcome(outcome: Outcome, underReview: bool, action: DecisionAction, scan: seq<Path>,
                                  applied: seq<(Path, Path)>, marked: bool) {
    && (outcome.Skipped? <==> underReview && action == Skip && marked)
    && (outcome.Imported? <==>
          underReview && (action == KeepBoth || action == ReplaceExisting) && scan != [] && |applied| == |scan|
          && marked)
    && (outcome.Imported? ==> applied[0].1 != [] && outcome.finalTarget == Dir(applied[0].1))
    && !outcome.NeedsReview? && |applied| <= |scan|
  }

  /** Where a plan began: the files and the log just before it. */
  datatype Stop = Stop(at: Files, log: Log)

  /** The moves of the plans before `k` lead to `stop`, and those of plan `k` from there on. */
  ghost predicate StoppedAt(f0: Files, j0: Log, stop: Stop, f1: Files, j: Log, staged: seq<Path>,
                            target: Path -> Path, trashDir: Path, k: nat) {
    && k < |staged| && target(staged[k]) != []
    && Extends(f0, j0, stop.at, stop.log, PlanRoutes(staged, target, trashDir))
    && Extends(stop.at, stop.log, f1, j, RoutesOf(staged[k], target(staged[k]), trashDir))
  }

  /** The same within a whole attempt, which stages the files first. */
  ghost predicate StoppedInJob(f0: Files, stop: Stop, f1: Files, j: Log, job: Job, scan: seq<Path>,
                               target: Path -> Path, trashDir: Path, k: nat) {
    var stages := StagePaths(job.sourcePath, IncomingDir(job), scan);
    && k < |stages| && target(stages[k]) != []
    && Extends(f0, [], stop.at, stop.log, JobRoutes(job, scan, target, trashDir))
    && Extends(stop.at, stop.log, f1, j, RoutesOf(stages[k], target(stages[k]), trashDir))
  }

  /**
    When no operation fails and moves can cross devices, a confident attempt on found files only ends early because
    a file of another size lies at a staging path, a plan collides, or a plan finds no file or no free name.
  */
  ghost predicate FailureExplained(f0: Files, job: Job, scan: seq<Path>, confident: bool, begun: bool,
                                   applied: seq<Path>, stop: Stop, actions: nat -> string, target: Path -> Path,
                                   trashDir: Path) {
    var stages := StagePaths(job.sourcePath, IncomingDir(job), scan);
    && (scan != [] && confident && !begun ==> Leftover(f0, scan, stages))
    && (begun && |applied| < |scan| ==>
          || Asks(stop.at, stages, target, actions, |applied|)
          || Stuck(stop.at, stages, target, actions, trashDir, |applied|))
  }

  /** Plan `k` asks for a review. */
  predicate Asks(f: Files, staged: seq<Path>, target: Path -> Path, actions: nat -> string, k: nat) {
    k < |staged| && Collides(f, staged[k], target(staged[k]), actions(k))
  }

  /** Plan `k` has lost its file or finds no free name. */
  ghost predicate Stuck(f: Files, staged: seq<Path>, target: Path -> Path, actions: nat -> string, trashDir: Path,
                        k: nat) {
    k < |staged| && target(staged[k]) != []
    && (staged[k] !in f || NamesRunOut(f, target(staged[k]), actions(k), trashDir))
  }

  /**
    How an attempt ends. It asks for review exactly when files were found and either the match is not confident
    or the first plan not carried out collides; it is imported exactly when all plans were carried out and the
    stores take the mark; otherwise it fails.
  */
  ghost predicate JobOutcome(outcome: Outcome, found: bool, confident: bool, stages: seq<Path>, begun: bool,
                             applied: seq<Path>, stop: Stop, actions: nat -> string, target: Path -> Path,
                             marked: bool) {
    && (begun ==> found && confident && stages != [] && |applied| <= |stages|)
    && (outcome.NeedsReview? <==>
          found && (!confident || (begun && |applied| < |stages| && Asks(stop.at, stages, target, actions, |applied|))))
    && (outcome.Imported? <==> begun && |applied| == |stages| && marked)
    && (outcome.Imported? ==> target(stages[0]) != [] && outcome.finalTarget == Dir(target(stages[0])))
    && !outcome.Skipped?
  }

  class Engine {
    const cfg: Config
    const fs: FileSystem

    constructor (cfg: Config, fs: FileSystem)
      ensures this.cfg == cfg && this.fs == fs
    {
      this.cfg, this.fs := cfg, fs;
    }

    /** No operation has failed, and moves between devices are allowed or not needed. */
    ghost predicate Smooth()
      reads fs
    {
      !fs.faulty && (cfg.allowCrossDeviceMove || forall a, b :: fs.device(a) == fs.device(b))
    }

    lemma FailureIsNotSmooth()
      ensures fs.faulty ==> !Smooth()
    {
    }

    /** Up to `maxScanFiles` media files below `root`, in no particular order. */
    method ScanMediaFiles(root: Path) returns (ok: bool, found: seq<Path>)
      modifies fs`faulty
      ensures old(fs.faulty) ==> fs.faulty
      ensures !ok ==> fs.faulty && found == []
      ensures ok ==> (found == [] <==> Media(fs.files, root) == {})
      ensures Distinct(found)
      ensures forall p :: p in found ==> p in fs.files && Under(p, root) && IsMedia(Base(p))
      ensures |found| <= ScanLimit(cfg)
      ensures ok && |Media(fs.files, root)| <= ScanLimit(cfg) ==> NoStrays(fs.files, root, found)
      ensures ok && |Media(fs.files, root)| > ScanLimit(cfg) ==> |found| == ScanLimit(cfg)
    {
      var max := if cfg.maxScanFiles <= 0 then 5000 else cfg.maxScanFiles;
      found := [];
      ok := fs.Walk(root);
      if !ok {
        return;
      }
      var rest := fs.files.Keys;
      while rest != {}
        invariant rest <= fs.files.Keys
        invariant Distinct(found) && |found| <= max
        invariant forall p :: p in found ==> p in fs.files && p !in rest && Under(p, root) && IsMedia(Base(p))
        invariant |found| < max ==>
                    forall p :: p in fs.files && p !in rest && Under(p, root) && IsMedia(Base(p)) ==> p in found
      {
        if |found| >= max {
          break;
        }
        var p :| p in rest;
        rest := rest - {p};
        if Under(p, root) && IsMedia(Base(p)) {
          found := found + [p];
        }
      }
      FullScan(fs.files, root, found, max, rest == {});
      assert found != [] ==> found[0] in Media(fs.files, root);
    }

    /** A move together with its entry in the log. */
    method LoggedMove(src: Path, dst: Path, ghost j: Log) returns (ok: bool, ghost j': Log)
      modifies fs
      ensures old(fs.faulty) ==> fs.faulty
      ensures Smooth() ==> (ok <==> CanMove(old(fs.files), src, dst, true))
      ensures Smooth() ==> fs.files == if ok then Moved(old(fs.files), src, dst) else old(fs.files)
      ensures MoveStep(old(fs.files), fs.files, j, j', src, dst, ok)
    {
      ghost var before := fs.files;
      ok := MoveOrCopy(src, dst);
      j' := j + [Step(before, src, dst, ok, fs.files)];
    }

    method MoveOrCopy(src: Path, dst: Path) returns (ok: bool)
      modifies fs
      ensures old(fs.faulty) ==> fs.faulty
      ensures !fs.faulty ==>
                var near := cfg.allowCrossDeviceMove || fs.device(src) == fs.device(dst);
                && (ok <==> CanMove(old(fs.files), src, dst, near))
                && fs.files == if ok then Moved(old(fs.files), src, dst) else old(fs.files)
      ensures MoveSpec(old(fs.files), fs.files, src, dst, ok)
    {
      if src == dst {
        return true;
      }
      if dst in fs.files {
        if src in fs.files && |fs.files[src]| == |fs.files[dst]| {
          var _ := fs.Remove(src);
          return true;
        }
        return false;
      }
      var r := fs.Rename(src, dst);
      if r == Renamed {
        return true;
      }
      if r != CrossDevice || !cfg.allowCrossDeviceMove {
        return false;
      }
      var copied := fs.Copy(src, dst);
      if !copied {
        return false;
      }
      if src !in fs.files || dst !in fs.files || |fs.files[src]| != |fs.files[dst]| {
        return false;
      }
      var _ := fs.Remove(src);
      ok := true;
    }

    /** The first free name of the keep-both series, or the stamped one when all thousand are taken. */
    method NextKeepBothPath(original: Path) returns (candidate: Path)
      requires original != []
      ensures candidate != [] && Dir(candidate) == Dir(original) && IsCopyName(original, candidate)
      ensures (exists i: nat ::
                 1 <= i <= 1000 && FirstFreeCopy(fs.files, original, i) && candidate == CopyPath(original, i))
           || ((forall i: nat :: 1 <= i <= 1000 ==> CopyPath(original, i) in fs.files)
               && IsStampedCopy(original, candidate))
    {
      hide CopyPath, StampedCopy, IsCopyName;
      candidate := CopyPath(original, 1);
      NamesCopy(original, 1);
      CopyIsBeside(original, candidate);
      if candidate !in fs.files {
        assert FirstFreeCopy(fs.files, original, 1);
        return;
      }
      for i := 2 to 1001
        invariant forall k: nat :: 1 <= k < i ==> CopyPath(original, k) in fs.files
      {
        candidate := CopyPath(original, i);
        NamesCopy(original, i);
        CopyIsBeside(original, candidate);
          if candidate !in fs.files {
          assert FirstFreeCopy(fs.files, original, i);
          return;
        }
      }
      var unix: nat := *;
      candidate := StampedCopy(original, unix);
      NamesCopy(original, unix);
      CopyIsBeside(original, candidate);
      StampsCopy(original, unix);
    }

    method UniqueTrashPath(base: string) returns (candidate: Path, ghost stamp: string)
      ensures candidate != [] && Dir(candidate) == cfg.trashDir && IsTrashName(cfg.trashDir, base, candidate)
      ensures candidate !in fs.files || TrashNamesTaken(fs.files, cfg.trashDir, base, stamp, 1001)
      ensures IsTriedTrash(cfg.trashDir, base, stamp, candidate)
    {
      var now: string := *;
      stamp := now;
      candidate := TrashPath(cfg.trashDir, base, now, 0);
      NamesTrash(cfg.trashDir, base, now, 0);
      TriesTrash(cfg.trashDir, base, now, 0, 0);
      if candidate !in fs.files {
        return;
      }
      for i := 1 to 1001
        invariant TrashNamesTaken(fs.files, cfg.trashDir, base, now, i)
      {
        candidate := TrashPath(cfg.trashDir, base, now, i);
        NamesTrash(cfg.trashDir, base, now, i);
        TriesTrash(cfg.trashDir, base, now, i, 0);
        if candidate !in fs.files {
          return;
        }
      }
      var nanos: nat := *;
      candidate := TrashPath(cfg.trashDir, base, Itoa(nanos), 0);
      NamesTrash(cfg.trashDir, base, Itoa(nanos), 0);
      TriesTrash(cfg.trashDir, base, now, 0, nanos);
    }

    method MoveExistingToTrash(target: Path, ghost j: Log)
      returns (ok: bool, ghost j': Log, ghost trash: Path)
      requires target != []
      modifies fs
      ensures old(fs.faulty) ==> fs.faulty
      ensures Smooth() && !ok ==> TrashIsFull(old(fs.files), cfg.trashDir, Base(target))
      ensures Smooth() && ok ==> target !in fs.files
      ensures trash != [] && Dir(trash) == cfg.trashDir && IsTrashName(cfg.trashDir, Base(target), trash)
      ensures (fs.files == old(fs.files) && j' == j && (ok <==> target !in fs.files))
           || (target in old(fs.files) && MoveStep(old(fs.files), fs.files, j, j', target, trash, ok))
    {
      j', trash := j, TrashPath(cfg.trashDir, Base(target), "", 0);
      NamesTrash(cfg.trashDir, Base(target), "", 0);
      if target !in fs.files {
        return true, j, trash;
      }
      var made := fs.MkdirAll(cfg.trashDir);
      if !made {
        return false, j, trash;
      }
      var trashPath;
      ghost var stamp;
      trashPath, stamp := UniqueTrashPath(Base(target));
      trash := trashPath;
      TrashIsElsewhere(target, cfg.trashDir, trash);
      ok, j' := LoggedMove(target, trashPath, j);
    }

    /** Moves every scanned file below the incoming directory. */
    method StageFiles(job: Job, scan: seq<Path>) returns (ok: bool, staged: seq<Path>, ghost j: Log)
      requires Distinct(scan)
      requires forall p :: p in scan ==> p in fs.files && Under(p, job.sourcePath) && IsMedia(Base(p))
      modifies fs
      ensures old(fs.faulty) ==> fs.faulty
      ensures Smooth() && !ok ==>
                Leftover(old(fs.files), scan, StagePaths(job.sourcePath, IncomingDir(job), scan))
      ensures NothingLost(IncomingDir(job), DurableContents(old(fs.files), IncomingDir(job)), fs.files, j)
      ensures SameOutside(old(fs.files), fs.files, IncomingDir(job), scan)
      ensures Extends(old(fs.files), [], fs.files, j,
                      StageRoutes(scan, StagePaths(job.sourcePath, IncomingDir(job), scan)))
      ensures ok && NoClash(scan, StagePaths(job.sourcePath, IncomingDir(job), scan)) ==>
                AllStaged(old(fs.files), fs.files, j, scan, staged, |scan|)
      ensures ok ==> staged == StagePaths(job.sourcePath, IncomingDir(job), scan)
      ensures ok ==> Conserving(IncomingDir(job), DurableContents(old(fs.files), IncomingDir(job)),
                                Protected(old(fs.files), IncomingDir(job), scan + staged).Values,
                                fs.files, j, Zone(IncomingDir(job), staged))
    {
      hide *;
      var incoming := IncomingDir(job);
      ghost var stages := StagePaths(job.sourcePath, incoming, scan);
      ghost var all := DurableContents(fs.files, incoming);
      ghost var kept := Protected(fs.files, incoming, scan + stages).Values;
      staged, j := [], [];
      HandledIsDurable(job.sourcePath, incoming, scan);
      StagesAreInside(job.sourcePath, incoming, scan);
      StartConserving(fs.files, incoming, scan, stages);
      SameOutsideRefl(fs.files, incoming, scan);
      PresentInit(fs.files, scan);
      PendingInit(fs.files, scan);
      NothingStaged(fs.files, fs.files, j, scan, stages);
      NothingGrown(fs.files, stages);
      StagesDistinct(job.sourcePath, incoming, scan);
      ghost var routes := StageRoutes(scan, stages);
      ExtendsNot(fs.files, j, routes);
      for i := 0 to |scan|
        invariant Extends(old(fs.files), [], fs.files, j, routes)
        invariant old(fs.faulty) ==> fs.faulty
        invariant Grown(old(fs.files), fs.files, stages, i)
        invariant Pending(old(fs.files), fs.files, scan, i)
        invariant NoClash(scan, stages) ==> AllStaged(old(fs.files), fs.files, j, scan, stages, i)
        invariant staged == stages[..i]
        invariant Present(fs.files, scan, i)
        invariant Conserving(incoming, all, kept, fs.files, j, Zone(incoming, stages + scan[i..]))
        invariant SameOutside(old(fs.files), fs.files, incoming, scan)
      {
        var target := StagePath(job.sourcePath, incoming, scan[i]);
        ConservingLosesNothing(incoming, all, kept, fs.files, j, Zone(incoming, stages + scan[i..]));
        var made := fs.MkdirAll(Dir(target));
        if !made {
          FailureIsNotSmooth();
          return false, staged, j;
        }
        ghost var before, j0 := fs.files, j;
        assert target == stages[i] && target in stages && scan[i] in scan;
        var moved;
        moved, j := LoggedMove(scan[i], target, j);
        ZoneDrops(incoming, stages, scan, i);
        MoveFrames(old(fs.files), before, fs.files, j0, j, scan[i], target, moved, incoming, scan);
        MoveConserves(incoming, all, kept, before, fs.files, j0, j, scan[i], target, moved,
                      Zone(incoming, stages + scan[i..]), Zone(incoming, stages + scan[i + 1..]));
        PresentStays(before, fs.files, scan, i);
        IsStageRoute(scan, stages, i);
        ExtendsByMove(before, fs.files, j0, j, scan[i], target, moved, routes);
        ExtendsOn(old(fs.files), [], before, j0, fs.files, j, routes, routes, routes);
        if !moved {
          if Smooth() {
            RefusedByLeftover(old(fs.files), before, scan, stages, i);
          }
          return false, staged, j;
        }
        GrowsByMove(old(fs.files), before, fs.files, j0, j, scan[i], stages, i);
        MovePending(old(fs.files), before, fs.files, j0, j, scan, stages, i);
        if NoClash(scan, stages) {
          OneMoreStaged(old(fs.files), before, fs.files, j0, j, scan, stages, i);
        }
        if target in fs.files {
          staged := staged + [target];
        }
      }
      assert stages + scan[|scan|..] == stages && stages[..|scan|] == stages;
      ConservingLosesNothing(incoming, all, kept, fs.files, j, Zone(incoming, stages));
      ok := true;
    }

    /** One iteration of the rename loop of `processJob`: settle the staged file `src` at `dst`. */
    method ApplyPlan(incoming: Path, src: Path, dst: Path, action: string,
                     ghost all: set<Content>, ghost kept: set<Content>, ghost j0: Log,
                     ghost zone: iset<Path>, ghost zone': iset<Path>)
      returns (r: PlanResult, ghost j: Log, ghost placed: Path)
      requires Under(src, incoming) && IsMedia(Base(src)) && dst != [] && !Under(dst, incoming)
               && !(incoming <= cfg.trashDir)
      requires Conserving(incoming, all, kept, fs.files, j0, zone)
      requires src in zone && zone' <= zone && forall p :: p in zone && p != src ==> p in zone'
      requires forall p :: !Under(p, incoming) ==> p in zone'
      modifies fs
      ensures old(fs.faulty) ==> fs.faulty
      ensures r == AskReview <==> Collides(old(fs.files), src, dst, action)
      ensures Smooth() && r == PlanFailed ==>
                src !in old(fs.files) || NamesRunOut(old(fs.files), dst, action, cfg.trashDir)
      ensures NothingLost(incoming, all, fs.files, j)
      ensures r == Applied ==> Conserving(incoming, all, kept, fs.files, j, zone') && dst in fs.files
      ensures SameBut(old(fs.files), fs.files, src, if action == "replace" then dst else src)
      ensures j0 <= j
      ensures Extends(old(fs.files), j0, fs.files, j, RoutesOf(src, dst, cfg.trashDir))
      ensures r == AskReview ==> fs.files == old(fs.files) && j == j0 && action != "replace" && action != "keep_both"
      ensures r == Applied ==>
                Filed(old(fs.files), fs.files, Since(j0, j), src, placed) && IsPlace(dst, action, incoming, placed)
    {
      hide Conserving, NothingLost, MoveStep, Extends, PlanRoute, Settled, IsCopyName, IsTrashName;
      j, placed := j0, dst;
      ghost var routes := RoutesOf(src, dst, cfg.trashDir);
      PlanRoutesAllow(src, dst, cfg.trashDir);
      ExtendsNot(fs.files, j0, routes);
      ConservingLosesNothing(incoming, all, kept, fs.files, j, zone);
      if src !in fs.files {
        return PlanFailed, j, placed;
      }
      ghost var f := fs.files;
      if dst in fs.files {
        if |fs.files[dst]| == |fs.files[src]| {
          var _ := fs.Remove(src);
          j := j0 + [Step(f, src, dst, true, fs.files)];
          RemovalIsMove(f, fs.files, j0, j, src, dst);
          PlacedByMove(f, fs.files, j0, j, src, dst, true, routes);
          MoveConserves(incoming, all, kept, f, fs.files, j0, j, src, dst, true, zone, zone');
          return Applied, j, placed;
        }
        if action == "replace" {
          var trashed;
          trashed, j := TrashExisting(incoming, dst, all, kept, j, zone, routes);
          if !trashed {
            return PlanFailed, j, placed;
          }
        } else if action == "keep_both" {
          var newTarget := NextKeepBothPath(dst);
          CopyIsPlace(dst, incoming, newTarget);
          placed := newTarget;
          var moved;
          moved, j := Place(incoming, src, newTarget, all, kept, j, zone, zone', routes);
          return if moved then Applied else PlanFailed, j, placed;
        } else {
          return AskReview, j, placed;
        }
      }
      ghost var g, j1 := fs.files, j;
      var moved;
      moved, j := Place(incoming, src, dst, all, kept, j, zone, zone', routes);
      ExtendsOn(f, j0, g, j1, fs.files, j, routes, routes, routes);
      if moved {
        SettledSince(f[src], fs.files, j0, j1, j, dst);
      }
      r := if moved then Applied else PlanFailed;
    }

    /** Makes the directory of `place` and moves the staged file `src` there. */
    method Place(incoming: Path, src: Path, place: Path, ghost all: set<Content>, ghost kept: set<Content>,
                 ghost j0: Log,
                 ghost zone: iset<Path>, ghost zone': iset<Path>, ghost routes: Routes)
      returns (ok: bool, ghost j: Log)
      requires Under(src, incoming) && IsMedia(Base(src)) && place != [] && !Under(place, incoming)
               && (src, place) in routes
      requires Conserving(incoming, all, kept, fs.files, j0, zone) && src in fs.files
      requires src in zone && zone' <= zone && forall p :: p in zone && p != src ==> p in zone'
      requires forall p :: !Under(p, incoming) ==> p in zone'
      modifies fs
      ensures old(fs.faulty) ==> fs.faulty
      ensures Smooth() && !ok ==> place in old(fs.files)
      ensures NothingLost(incoming, all, fs.files, j)
      ensures j0 <= j && Extends(old(fs.files), j0, fs.files, j, routes)
      ensures SameBut(old(fs.files), fs.files, src, src)
      ensures ok ==> Conserving(incoming, all, kept, fs.files, j, zone') && place in fs.files
      ensures ok ==> Settled(old(fs.files)[src], fs.files, Since(j0, j), place)
      ensures ok ==> Settled(old(fs.files)[src], fs.files, j, place)
    {
      hide Conserving, NothingLost, MoveStep, Extends;
      j := j0;
      ConservingLosesNothing(incoming, all, kept, fs.files, j, zone);
      ExtendsNot(fs.files, j0, routes);
      var made := fs.MkdirAll(Dir(place));
      if !made {
        return false, j;
      }
      ghost var f := fs.files;
      ok, j := LoggedMove(src, place, j);
      PlacedByMove(f, fs.files, j0, j, src, place, ok, routes);
      MoveConserves(incoming, all, kept, f, fs.files, j0, j, src, place, ok, zone, zone');
      if ok {
        MoveSettles(f, fs.files, j0, j, src, place);
      }
    }

    /** Moves what is at `planned`, if anything, to the trash. */
    method TrashExisting(incoming: Path, planned: Path, ghost all: set<Content>, ghost kept: set<Content>,
                         ghost j0: Log,
                         ghost zone: iset<Path>, ghost routes: Routes)
      returns (ok: bool, ghost j: Log)
      requires planned != [] && !Under(planned, incoming) && !(incoming <= cfg.trashDir)
      requires forall b :: IsTrashName(cfg.trashDir, Base(planned), b) ==> (planned, b) in routes
      requires Conserving(incoming, all, kept, fs.files, j0, zone)
      requires forall p :: !Under(p, incoming) ==> p in zone
      modifies fs
      ensures old(fs.faulty) ==> fs.faulty
      ensures Smooth() && !ok ==> TrashIsFull(old(fs.files), cfg.trashDir, Base(planned))
      ensures Smooth() && ok ==> planned !in fs.files
      ensures NothingLost(incoming, all, fs.files, j)
      ensures j0 <= j && Extends(old(fs.files), j0, fs.files, j, routes)
      ensures SameBut(old(fs.files), fs.files, planned, planned)
      ensures ok ==> Conserving(incoming, all, kept, fs.files, j, zone)
    {
      hide Conserving, NothingLost, MoveStep, Extends;
      ghost var f := fs.files;
      ConservingLosesNothing(incoming, all, kept, f, j0, zone);
      ExtendsNot(f, j0, routes);
      ghost var trash;
      ok, j, trash := MoveExistingToTrash(planned, j0);
      UnderViaParent(trash, incoming);
      if MoveStep(f, fs.files, j0, j, planned, trash, ok) {
        MoveConserves(incoming, all, kept, f, fs.files, j0, j, planned, trash, ok, zone, zone);
        PlacedByMove(f, fs.files, j0, j, planned, trash, ok, routes);
      }
    }

    /** The rename loop of `processJob`, with the download job's upgrade action read anew each time. */
    method ApplyPlans(incoming: Path, staged: seq<Path>, target: Path -> Path, actions: nat -> string,
                      ghost all: set<Content>, ghost kept: set<Content>, ghost j0: Log)
      returns (r: PlanResult, ghost j: Log, ghost applied: seq<Path>, ghost stop: Stop)
      requires Distinct(staged)
      requires forall p :: p in staged ==>
                 Under(p, incoming) && IsMedia(Base(p)) && target(p) != [] && !Under(target(p), incoming)
      requires !(incoming <= cfg.trashDir)
      requires Conserving(incoming, all, kept, fs.files, j0, Zone(incoming, staged))
      modifies fs
      ensures old(fs.faulty) ==> fs.faulty
      ensures r == Applied ==> |applied| == |staged|
      ensures r != Applied ==>
                |applied| < |staged|
                && StoppedAt(old(fs.files), j0, stop, fs.files, j, staged, target, cfg.trashDir, |applied|)
      ensures r == AskReview <==> r != Applied && Asks(stop.at, staged, target, actions, |applied|)
      ensures Smooth() && r == PlanFailed ==> Stuck(stop.at, staged, target, actions, cfg.trashDir, |applied|)
      ensures NothingLost(incoming, all, fs.files, j)
      ensures r == Applied ==> Conserving(incoming, all, kept, fs.files, j, Zone(incoming, []))
      ensures r == Applied ==> forall p :: p in staged ==> target(p) in fs.files
      ensures j0 <= j && Extends(old(fs.files), j0, fs.files, j, PlanRoutes(staged, target, cfg.trashDir))
      ensures r == Applied ==>
                PlansPlaced(old(fs.files), fs.files, Since(j0, j), incoming, staged, applied, actions, target, |staged|)
      ensures SameOutside(old(fs.files), fs.files, incoming, Targets(staged, target))
    {
      hide *;
      j, applied, stop := j0, [], Stop(fs.files, j0);
      ghost var routes := PlanRoutes(staged, target, cfg.trashDir);
      ExtendsNot(fs.files, j0, routes);
      ExpectedInit(fs.files, staged);
      NothingPlaced(fs.files, fs.files, Since(j0, j0), incoming, staged, actions, target);
      ghost var f0, targets := fs.files, Targets(staged, target);
      SameOutsideRefl(f0, incoming, targets);
      assert [] + staged[0..] == staged;
      TargetsPresentInit(f0, staged, target);
      for i := 0 to |staged|
        invariant old(fs.faulty) ==> fs.faulty
        invariant |applied| == i
        invariant Conserving(incoming, all, kept, fs.files, j, Zone(incoming, [] + staged[i..]))
        invariant TargetsPresent(fs.files, staged, target, i)
        invariant SameOutside(f0, fs.files, incoming, targets)
        invariant j0 <= j && Extends(f0, j0, fs.files, j, routes)
        invariant Expected(f0, fs.files, staged, i)
        invariant PlansPlaced(f0, fs.files, Since(j0, j), incoming, staged, applied, actions, target, i)
      {
        ZoneDrops(incoming, [], staged, i);
        assert staged[i] in staged && target(staged[i]) == targets[i];
        ghost var f, j1, placed, before := fs.files, j, [], applied;
        stop := Stop(f, j);
        r, j, placed := ApplyPlan(incoming, staged[i], target(staged[i]), actions(i), all, kept, j,
                                  Zone(incoming, [] + staged[i..]), Zone(incoming, [] + staged[i + 1..]));
        PlanRoutesInclude(staged, target, cfg.trashDir, i);
        ExtendsOn(f0, j0, f, j1, fs.files, j, routes, RoutesOf(staged[i], target(staged[i]), cfg.trashDir), routes);
        PlanTouches(f0, f, fs.files, incoming, staged, actions, target, i);
        if r != Applied {
          StopsHere(f0, j0, f, j1, fs.files, j, staged, target, actions, cfg.trashDir, i);
          return;
        }
        applied := applied + [placed];
        PlanDone(f0, f, fs.files, j0, j1, j, incoming, staged, before, placed, actions, target, i);
      }
      assert [] + staged[|staged|..] == [];
      ConservingLosesNothing(incoming, all, kept, fs.files, j, Zone(incoming, []));
      AllTargetsPresent(fs.files, staged, target);
      r := Applied;
    }

    /**
      One attempt at an import job. `confident` is the verdict of the identity match, `target` the naming plan,
      `actions` the upgrade actions read from the download job, and `marked` whether both stores take the mark.
      `begun` says that every file was staged, `applied` which plans were carried out then, and `stop` where the
      next one began.
    */
    method ProcessJob(job: Job, confident: bool, target: Path -> Path, actions: nat -> string, marked: bool)
      returns (outcome: Outcome, cleared: bool, ghost scanned: bool, ghost scan: seq<Path>, ghost j: Log,
               ghost begun: bool, ghost applied: seq<Path>, ghost stop: Stop)
      requires forall p :: Under(p, IncomingDir(job)) ==> target(p) != [] && !Under(target(p), IncomingDir(job))
      requires !(IncomingDir(job) <= cfg.trashDir)
      modifies fs
      ensures old(fs.faulty) ==> fs.faulty
      ensures Distinct(scan) && forall p :: p in scan ==>
                p in old(fs.files) && Under(p, job.sourcePath) && IsMedia(Base(p))
      ensures scanned ==> (scan == [] <==> Media(old(fs.files), job.sourcePath) == {})
      ensures |Media(old(fs.files), job.sourcePath)| <= ScanLimit(cfg) && scan != [] ==>
                NoStrays(old(fs.files), job.sourcePath, scan)
      ensures var stages := StagePaths(job.sourcePath, IncomingDir(job), scan);
              JobOutcome(outcome, scanned && scan != [], confident, stages, begun, applied, stop, actions, target,
                         marked)
      ensures Smooth() ==>
                scanned && FailureExplained(old(fs.files), job, scan, confident, begun, applied, stop, actions, target,
                                            cfg.trashDir)
      ensures begun && |applied| < |scan| ==>
                StoppedInJob(old(fs.files), stop, fs.files, j, job, scan, target, cfg.trashDir, |applied|)
      ensures ImportPost(old(fs.files), fs.files, j, IncomingDir(job), Handled(job, scan), cleared)
      ensures Routed(j, JobRoutes(job, scan, target, cfg.trashDir))
      ensures NoStrays(old(fs.files), IncomingDir(job), Handled(job, scan)) ==>
                Keeps(DurableContents(old(fs.files), IncomingDir(job)), fs.files, j, Durable(IncomingDir(job)))
      ensures outcome.Imported? && NoClash(scan, StagePaths(job.sourcePath, IncomingDir(job), scan)) ==>
                JobPlaced(old(fs.files), fs.files, j, IncomingDir(job), scan,
                          StagePaths(job.sourcePath, IncomingDir(job), scan), applied, actions, target)
      ensures outcome.Imported? ==>
                && Settles(old(fs.files), fs.files, j, IncomingDir(job), Handled(job, scan))
                && (forall p :: p in scan ==> target(StagePath(job.sourcePath, IncomingDir(job), p)) in fs.files)
                && (cleared <==> !cfg.keepIncoming)
      ensures outcome.NeedsReview? ==> !cleared
      ensures !confident ==> fs.files == old(fs.files)
      ensures SameOutside(old(fs.files), fs.files, IncomingDir(job),
                          scan + Targets(StagePaths(job.sourcePath, IncomingDir(job), scan), target))
    {
      hide *;
      var incoming := IncomingDir(job);
      ghost var f0 := fs.files;
      cleared, scanned, scan, j, begun, applied, stop := false, false, [], [], false, [], Stop(f0, []);
      var walked, found := ScanMediaFiles(job.sourcePath);
      FailureIsNotSmooth();
      scanned, scan := walked, found;
      ghost var stages := StagePaths(job.sourcePath, incoming, found);
      ghost var targets := Targets(stages, target);
      ghost var routes := JobRoutes(job, scan, target, cfg.trashDir);
      UntouchedPost(f0, incoming, Handled(job, scan), scan + targets, routes);
      ExitKeepsDurableContents(f0, f0, j, incoming, Handled(job, scan), false);
      OutcomeUnbegun(scanned && scan != [], confident, stages, stop, actions, target, marked);
      if scan == [] || !confident {
        UnbegunExplained(f0, job, scan, confident, stop, actions, target, cfg.trashDir);
      }
      if !walked || found == [] {
        return Failed, false, scanned, scan, j, begun, applied, stop;
      }
      if !confident {
        return NeedsReview, false, scanned, scan, j, begun, applied, stop;
      }
      var made := fs.MkdirAll(incoming);
      if !made {
        FailureIsNotSmooth();
        return Failed, false, scanned, scan, j, begun, applied, stop;
      }
      var staged;
      var moved;
      moved, staged, j := StageFiles(job, found);
      JobRoutesAre(job, scan, target, cfg.trashDir);
      EarlyPost(f0, fs.files, j, incoming, Handled(job, scan), scan, targets, StageRoutes(scan, stages), routes);
      ExitKeepsDurableContents(f0, fs.files, j, incoming, Handled(job, scan), false);
      if !moved && Smooth() {
        UnbegunExplained(f0, job, scan, confident, stop, actions, target, cfg.trashDir);
      }
      if !moved || staged == [] {
        return Failed, false, scanned, scan, j, begun, applied, stop;
      }
      begun := true;
      StagesAreMedia(job.sourcePath, incoming, scan);
      StagesDistinct(job.sourcePath, incoming, scan);
      ghost var stagedFiles, stageLog := fs.files, j;
      ghost var kept := Protected(f0, incoming, Handled(job, scan)).Values;
      assert Handled(job, scan) == scan + staged by { HandledIs(job, scan); }
      var r;
      r, j, applied, stop := ApplyPlans(incoming, staged, target, actions, DurableContents(f0, incoming), kept, j);
      assert staged[0] in staged;
      OutcomeBegun(r, staged, applied, stop, actions, target, marked);
      SameOutsideChain(f0, stagedFiles, fs.files, incoming, scan, targets);
      ExtendsOn(f0, [], stagedFiles, stageLog, fs.files, j, StageRoutes(scan, stages),
                PlanRoutes(staged, target, cfg.trashDir), routes);
      NothingLostPost(f0, fs.files, j, incoming, Handled(job, scan), routes);
      ExitKeepsDurableContents(f0, fs.files, j, incoming, Handled(job, scan), false);
      if r != Applied {
        StopsInJob(f0, stagedFiles, stageLog, stop, fs.files, j, job, scan, target, cfg.trashDir, |applied|);
      }
      if r == Applied || Smooth() {
        BegunExplained(f0, job, scan, confident, applied, stop, actions, target, cfg.trashDir);
      }
      if r == AskReview {
        return NeedsReview, false, scanned, scan, j, begun, applied, stop;
      }
      if r == PlanFailed {
        return Failed, false, scanned, scan, j, begun, applied, stop;
      }
      TargetsOfScan(fs.files, job.sourcePath, incoming, scan, target);
      ghost var filed := fs.files;
      if NoClash(scan, stages) {
        StagedThenPlaced(f0, stagedFiles, filed, stageLog, j, incoming, scan, staged, applied, actions, target);
      }
      outcome, cleared := FinishImport(incoming, Dir(target(staged[0])), DurableContents(f0, incoming), kept, j,
                                       marked);
      if NoClash(scan, stages) {
        PlacesOutliveClearing(f0, filed, fs.files, j, incoming, scan, staged, applied, actions, target);
      }
      FinishPost(f0, filed, fs.files, j, incoming, Handled(job, scan), scan + targets, cleared, routes);
      if NoStrays(f0, incoming, Handled(job, scan)) {
        ExitKeepsDurableContents(f0, fs.files, j, incoming, Handled(job, scan), cleared);
      }
    }

    /** One iteration of `Decide`: settle the staged file `src` beside or in place of `planned`. */
    method ApplyDecision(incoming: Path, src: Path, planned: Path, action: DecisionAction,
                         ghost all: set<Content>, ghost kept: set<Content>, ghost j0: Log,
                         ghost zone: iset<Path>, ghost zone': iset<Path>)
      returns (ok: bool, target: Path, ghost j: Log)
      requires Under(src, incoming) && IsMedia(Base(src)) && planned != [] && !Under(planned, incoming)
               && !(incoming <= cfg.trashDir)
      requires src in fs.files && (action == KeepBoth || action == ReplaceExisting)
      requires Conserving(incoming, all, kept, fs.files, j0, zone)
      requires src in zone && zone' <= zone && forall p :: p in zone && p != src ==> p in zone'
      requires forall p :: !Under(p, incoming) ==> p in zone'
      modifies fs
      ensures old(fs.faulty) ==> fs.faulty
      ensures Smooth() && !ok ==> NamesRunOut(old(fs.files), planned, Policy(action), cfg.trashDir)
      ensures NothingLost(incoming, all, fs.files, j)
      ensures target != [] && Dir(target) == Dir(planned) && !Under(target, incoming)
      ensures action == ReplaceExisting ==> target == planned
      ensures ok ==> Conserving(incoming, all, kept, fs.files, j, zone')
      ensures ok ==> Settled(old(fs.files)[src], fs.files, j, target)
      ensures SameBut(old(fs.files), fs.files, src, if action == KeepBoth then src else planned) && j0 <= j
      ensures Extends(old(fs.files), j0, fs.files, j, RoutesOf(src, planned, cfg.trashDir))
    {
      hide Conserving, NothingLost, MoveStep, Extends, PlanRoute, Settled, IsCopyName, IsTrashName;
      target, j := planned, j0;
      ghost var routes := RoutesOf(src, planned, cfg.trashDir);
      PlanRoutesAllow(src, planned, cfg.trashDir);
      ExtendsNot(fs.files, j0, routes);
      ConservingLosesNothing(incoming, all, kept, fs.files, j, zone);
      ghost var f := fs.files;
      if action == KeepBoth {
        target := NextKeepBothPath(planned);
        CopyIsPlace(planned, incoming, target);
      } else {
        var trashed;
        trashed, j := TrashExisting(incoming, planned, all, kept, j, zone, routes);
        if !trashed {
          return false, target, j;
        }
      }
      ghost var g, j1 := fs.files, j;
      ok, j := Place(incoming, src, target, all, kept, j, zone, zone', routes);
      ExtendsOn(f, j0, g, j1, fs.files, j, routes, routes, routes);
    }

    /** The loop of `Decide` over the staged files. */
    method ApplyDecisions(incoming: Path, scan: seq<Path>, action: DecisionAction, target: Path -> Path,
                          ghost all: set<Content>, ghost kept: set<Content>)
      returns (ok: bool, applied: seq<(Path, Path)>, ghost j: Log, ghost stop: Stop)
      requires Distinct(scan) && (action == KeepBoth || action == ReplaceExisting)
      requires forall p :: p in scan ==>
                 p in fs.files && Under(p, incoming) && IsMedia(Base(p)) && target(p) != []
                     && !Under(target(p), incoming)
      requires !(incoming <= cfg.trashDir)
      requires Conserving(incoming, all, kept, fs.files, [], Zone(incoming, scan))
      modifies fs
      ensures old(fs.faulty) ==> fs.faulty
      ensures !ok ==>
                |applied| < |scan|
                && StoppedAt(old(fs.files), [], stop, fs.files, j, scan, target, cfg.trashDir, |applied|)
      ensures Smooth() && !ok ==> OutOfNames(stop.at, scan, target, action, cfg.trashDir, |applied|)
      ensures NothingLost(incoming, all, fs.files, j)
      ensures ok ==> Conserving(incoming, all, kept, fs.files, j, Zone(incoming, []))
      ensures ok ==> DecisionApplied(old(fs.files), fs.files, j, incoming, scan, applied, action, target)
      ensures ok ==> |applied| == |scan| && (scan != [] ==> applied[0].1 != [])
      ensures Extends(old(fs.files), [], fs.files, j, PlanRoutes(scan, target, cfg.trashDir))
      ensures action == KeepBoth ==> SameOutside(old(fs.files), fs.files, incoming, [])
      ensures SameOutside(old(fs.files), fs.files, incoming, Targets(scan, target))
    {
      hide *;
      applied, j, stop := [], [], Stop(fs.files, []);
      ghost var targets := Targets(scan, target);
      ghost var f0 := fs.files;
      ghost var routes := PlanRoutes(scan, target, cfg.trashDir);
      ExtendsNot(f0, j, routes);
      assert [] + scan[0..] == scan;
      SameOutsideRefl(f0, incoming, []);
      SameOutsideRefl(f0, incoming, targets);
      PendingInit(f0, scan);
      for i := 0 to |scan|
        invariant old(fs.faulty) ==> fs.faulty
        invariant Conserving(incoming, all, kept, fs.files, j, Zone(incoming, [] + scan[i..]))
        invariant |applied| == i
        invariant forall k :: 0 <= k < i ==> DecidedAt(f0, fs.files, j, incoming, scan, applied, action, target, k)
        invariant Pending(f0, fs.files, scan, i)
        invariant Extends(f0, [], fs.files, j, routes)
        invariant action == KeepBoth ==> SameOutside(f0, fs.files, incoming, [])
        invariant SameOutside(f0, fs.files, incoming, targets)
      {
        ZoneDrops(incoming, [], scan, i);
        ghost var f, j1, before := fs.files, j, applied;
        assert scan[i] in scan;
        PendingNext(f0, f, scan, i);
        ghost var second := if action == KeepBoth then scan[i] else target(scan[i]);
        var dst;
        stop := Stop(f, j);
        ok, dst, j := ApplyDecision(incoming, scan[i], target(scan[i]), action, all, kept, j,
                                    Zone(incoming, [] + scan[i..]), Zone(incoming, [] + scan[i + 1..]));
        assert targets[i] == target(scan[i]);
        PlanRoutesInclude(scan, target, cfg.trashDir, i);
        ExtendsOn(f0, [], f, j1, fs.files, j, routes, RoutesOf(scan[i], target(scan[i]), cfg.trashDir), routes);
        SameButOutside(f0, f, fs.files, incoming, targets, scan[i], second);
        if action == KeepBoth {
          SameButOutside(f0, f, fs.files, incoming, [], scan[i], second);
        }
        if !ok {
          DecisionStopsHere(f0, f, j1, fs.files, j, scan, target, action, cfg.trashDir, i);
          return;
        }
        PendingStays(f0, f, fs.files, incoming, scan, i, second);
        applied := applied + [(scan[i], dst)];
        forall k | 0 <= k < i
          ensures DecidedAt(f0, fs.files, j, incoming, scan, applied, action, target, k)
        {
          DecidedStays(f0, f, fs.files, j1, j, incoming, scan, before, applied, action, target, k, i);
        }
        DecidedNow(f0, fs.files, j, incoming, scan, applied, action, target, i);
      }
      assert [] + scan[|scan|..] == [];
      ConservingLosesNothing(incoming, all, kept, fs.files, j, Zone(incoming, []));
      AllDecided(f0, fs.files, j, incoming, scan, applied, action, target);
      ok := true;
    }

    /** Applies an operator's decision to a job under review. */
    method Decide(job: Job, underReview: bool, action: DecisionAction, target: Path -> Path, marked: bool)
      returns (outcome: Outcome, cleared: bool, applied: seq<(Path, Path)>, ghost scan: seq<Path>, ghost j: Log,
               ghost stop: Stop)
      requires forall p :: Under(p, IncomingDir(job)) ==> target(p) != [] && !Under(target(p), IncomingDir(job))
      requires !(IncomingDir(job) <= cfg.trashDir)
      modifies fs
      ensures old(fs.faulty) ==> fs.faulty
      ensures !underReview || action == Skip || action == Unknown ==> fs.files == old(fs.files)
      ensures DecisionOutcome(outcome, underReview, action, scan, applied, marked)
      ensures Smooth() && underReview && (action == KeepBoth || action == ReplaceExisting) ==>
                && (scan == [] <==> Media(old(fs.files), IncomingDir(job)) == {})
                && (|applied| < |scan| ==> OutOfNames(stop.at, scan, target, action, cfg.trashDir, |applied|))
      ensures |applied| < |scan| ==>
                StoppedAt(old(fs.files), [], stop, fs.files, j, scan, target, cfg.trashDir, |applied|)
      ensures Distinct(scan) && forall p :: p in scan ==>
                p in old(fs.files) && Under(p, IncomingDir(job)) && IsMedia(Base(p))
      ensures scan != [] ==>
                && (|Media(old(fs.files), IncomingDir(job))| <= ScanLimit(cfg) ==>
                   NoStrays(old(fs.files), IncomingDir(job), scan))
                && (|Media(old(fs.files), IncomingDir(job))| > ScanLimit(cfg) ==> |scan| == ScanLimit(cfg))
      ensures ImportPost(old(fs.files), fs.files, j, IncomingDir(job), scan, cleared)
      ensures Routed(j, PlanRoutes(scan, target, cfg.trashDir))
      ensures |Media(old(fs.files), IncomingDir(job))| <= ScanLimit(cfg) ==>
                Keeps(DurableContents(old(fs.files), IncomingDir(job)), fs.files, j, Durable(IncomingDir(job)))
      ensures cleared ==> scan != []
      ensures outcome.Imported? ==>
                && scan != []
                && Settles(old(fs.files), fs.files, j, IncomingDir(job), scan)
                && DecisionApplied(old(fs.files), fs.files, j, IncomingDir(job), scan, applied, action, target)
                && (cleared <==> !cfg.keepIncoming)
      ensures action == KeepBoth ==> SameOutside(old(fs.files), fs.files, IncomingDir(job), [])
      ensures SameOutside(old(fs.files), fs.files, IncomingDir(job), Targets(scan, target))
    {
      hide *;
      var incoming := IncomingDir(job);
      cleared, applied, scan, j, stop := false, [], [], [], Stop(fs.files, []);
      ghost var f0 := fs.files;
      OutcomeUndecided(underReview, action, marked);
      UntouchedPost(f0, incoming, [], [], PlanRoutes(scan, target, cfg.trashDir));
      UntouchedPost(f0, incoming, [], Targets(scan, target), PlanRoutes(scan, target, cfg.trashDir));
      ExitKeepsDurableContents(f0, f0, j, incoming, [], false);
      if action == Unknown || !underReview {
        return Failed, false, [], [], [], stop;
      }
      if action == Skip {
        return if marked then Skipped else Failed, false, [], [], [], stop;
      }
      var scanned, files := ScanMediaFiles(incoming);
      FailureIsNotSmooth();
      if !scanned || files == [] {
        return Failed, false, [], [], [], stop;
      }
      scan := files;
      ghost var all, kept := DurableContents(f0, incoming), Protected(f0, incoming, scan).Values;
      ghost var routes, targets := PlanRoutes(scan, target, cfg.trashDir), Targets(scan, target);
      ScanIsDurable(incoming, scan);
      StartConserving(f0, incoming, scan, []);
      assert [] + scan[0..] == scan && scan + [] == scan;
      var ok;
      ok, applied, j, stop := ApplyDecisions(incoming, files, action, target, all, kept);
      EarlyPost(f0, fs.files, j, incoming, scan, targets, [], routes, routes);
      assert targets + [] == targets;
      ExitKeepsDurableContents(f0, fs.files, j, incoming, scan, false);
      if !ok {
        OutcomeOfDecision(scan, applied, action, false, marked);
        return Failed, false, applied, scan, j, stop;
      }
      ghost var f1 := fs.files;
      outcome, cleared := FinishImport(incoming, Dir(applied[0].1), all, kept, j, marked);
      OutcomeOfDecision(scan, applied, action, true, marked);
      FinishPost(f0, f1, fs.files, j, incoming, scan, targets, cleared, routes);
      DecisionsOutliveClearing(f0, f1, fs.files, j, incoming, scan, applied, action, target);
      SameOutsideCleared(f0, f1, fs.files, incoming, targets);
      if action == KeepBoth {
        SameOutsideCleared(f0, f1, fs.files, incoming, []);
      }
      if NoStrays(f0, incoming, scan) {
        ExitKeepsDurableContents(f0, fs.files, j, incoming, scan, cleared);
      }
    }

    /** Clears the incoming directory unless it is kept, then marks both jobs imported. */
    method FinishImport(incoming: Path, finalTarget: Path, ghost all: set<Content>, ghost kept: set<Content>,
                        ghost j: Log, marked: bool)
      returns (outcome: Outcome, cleared: bool)
      requires Conserving(incoming, all, kept, fs.files, j, Zone(incoming, []))
      modifies fs
      ensures old(fs.faulty) ==> fs.faulty
      ensures ClearedUnder(old(fs.files), fs.files, incoming)
      ensures cleared && !fs.faulty ==> forall p :: p in fs.files ==> !Under(p, incoming)
      ensures cleared <==> !cfg.keepIncoming
      ensures !cleared ==> fs.files == old(fs.files)
      ensures Keeps(kept, fs.files, j, Zone(incoming, [])) && Stems(kept, fs.files, Zone(incoming, []))
      ensures outcome == if marked then Imported(finalTarget) else Failed
    {
      cleared := !cfg.keepIncoming;
      if cleared {
        ghost var f := fs.files;
        var _ := fs.RemoveAll(incoming);
        forall c | c in kept
          ensures Survives(c, fs.files, j, Zone(incoming, []))
        {
          var p :| p in f && p in Zone(incoming, []) && StandsFor(f[p], c, j);
          assert p in fs.files;
        }
      }
      outcome := if marked then Imported(finalTarget) else Failed;
    }
  }

  /** The paths whose initial content an import attempt carries along: the scanned files and their staging paths. */
  ghost function Handled(job: Job, scan: seq<Path>): seq<Path> {
    scan + StagePaths(job.sourcePath, IncomingDir(job), scan)
  }

  /**
    A successful decision settles each scanned file: `keep_both` beside its planned path, and
    `replace_existing` at it as long as no two plans share a target.
  */
  ghost predicate DecisionApplied(f0: Files, f1: Files, j: Log, incoming: Path, scan: seq<Path>,
                                  applied: seq<(Path, Path)>, action: DecisionAction, target: Path -> Path)
    requires forall p :: p in scan ==> p in f0 && target(p) != []
  {
    |applied| == |scan| && forall i :: 0 <= i < |scan| ==>
        DecidedAt(f0, f1, j, incoming, scan, applied, action, target, i)
  }

  ghost predicate DecidedAt(f0: Files, f1: Files, j: Log, incoming: Path, scan: seq<Path>,
                            applied: seq<(Path, Path)>, action: DecisionAction, target: Path -> Path, i: nat)
    requires i < |scan| && i < |applied| && scan[i] in f0 && target(scan[i]) != []
  {
    var (src, dst) := applied[i];
    && src == scan[i]
    && dst != [] && Dir(dst) == Dir(target(src)) && !Under(dst, incoming)
    && (action == ReplaceExisting ==> dst == target(src))
    && (action == KeepBoth || Distinct(Targets(scan, target)) ==> Settled(f0[src], f1, j, dst))
  }

  lemma SettledStays(c: Content, f: Files, f': Files, j: Log, j': Log, p: Path, a: Path, b: Path)
    requires Settled(c, f, j, p) && SameBut(f, f', a, b) && j <= j' && p != a && p != b
    ensures Settled(c, f', j', p)
  {
    StandsOn(f[p], f[p], c, j, Since(j, j'));
    assert j + Since(j, j') == j';
  }

  /** Deciding file `i` leaves the earlier file `k` where its own decision put it. */
  lemma DecidedStays(f0: Files, f: Files, f': Files, j: Log, j': Log, incoming: Path, scan: seq<Path>,
                     applied: seq<(Path, Path)>, applied': seq<(Path, Path)>, action: DecisionAction,
                     target: Path -> Path, k: nat, i: nat)
    requires k < i < |scan| && |applied| == i && applied <= applied'
    requires forall p :: p in scan ==> p in f0 && Under(p, incoming) && target(p) != []
    requires action == KeepBoth || action == ReplaceExisting
    requires DecidedAt(f0, f, j, incoming, scan, applied, action, target, k)
    requires SameBut(f, f', scan[i], if action == KeepBoth then scan[i] else target(scan[i])) && j <= j'
    ensures DecidedAt(f0, f', j', incoming, scan, applied', action, target, k)
  {
    var targets := Targets(scan, target);
    if action == KeepBoth || Distinct(targets) {
      assert targets[k] == target(scan[k]) && targets[i] == target(scan[i]);
      SettledStays(f0[scan[k]], f, f', j, j', applied[k].1, scan[i],
                   if action == KeepBoth then scan[i] else target(scan[i]));
    }
  }

  lemma HandledIsDurable(source: Path, incoming: Path, scan: seq<Path>)
    requires forall p :: p in scan ==> Under(p, source) && IsMedia(Base(p))
    ensures forall p :: p in scan + StagePaths(source, incoming, scan) ==> p in Durable(incoming)
    ensures forall p :: p in scan || p in StagePaths(source, incoming, scan) ==> p in Durable(incoming)
  {
    forall p | p in StagePaths(source, incoming, scan)
      ensures p in Durable(incoming)
    {
      var k :| 0 <= k < |scan| && p == StagePath(source, incoming, scan[k]);
    }
  }

  /** The scanned files from index `i` on exist. */
  ghost predicate Present(f: Files, scan: seq<Path>, i: nat) {
    Distinct(scan) && forall k :: i <= k < |scan| ==> scan[k] in f
  }

  lemma PresentInit(f: Files, scan: seq<Path>)
    requires Distinct(scan) && forall p :: p in scan ==> p in f
    ensures Present(f, scan, 0)
  {
  }

  lemma PresentStays(f: Files, f': Files, scan: seq<Path>, i: nat)
    requires Present(f, scan, i) && i < |scan| && forall p :: p in f && p != scan[i] ==> p in f'
    ensures Present(f', scan, i + 1) && scan[i] in f
  {
  }

  /** The targets of the first `i` plans exist. */
  ghost predicate TargetsPresent(f: Files, staged: seq<Path>, target: Path -> Path, i: nat) {
    forall k :: 0 <= k < i && k < |staged| ==> target(staged[k]) in f
  }

  lemma TargetsPresentInit(f: Files, staged: seq<Path>, target: Path -> Path)
    ensures TargetsPresent(f, staged, target, 0)
  {
  }

  lemma TargetsStay(f: Files, f': Files, incoming: Path, staged: seq<Path>, target: Path -> Path, i: nat)
    requires TargetsPresent(f, staged, target, i) && i < |staged|
    requires SameBut(f, f', staged[i], target(staged[i])) && target(staged[i]) in f'
    requires forall p :: p in staged ==> Under(p, incoming) && !Under(target(p), incoming)
    ensures TargetsPresent(f', staged, target, i + 1)
  {
  }

  lemma AllTargetsPresent(f: Files, staged: seq<Path>, target: Path -> Path)
    requires TargetsPresent(f, staged, target, |staged|)
    ensures forall p :: p in staged ==> target(p) in f
  {
  }

  /** The files from index `i` on are still as the scan found them. */
  ghost predicate Pending(f0: Files, f: Files, scan: seq<Path>, i: nat) {
    && Distinct(scan)
    && forall k :: i <= k < |scan| ==> scan[k] in f0 && scan[k] in f && f[scan[k]] == f0[scan[k]]
  }

  lemma PendingInit(f0: Files, scan: seq<Path>)
    requires Distinct(scan) && forall p :: p in scan ==> p in f0
    ensures Pending(f0, f0, scan, 0)
  {
  }

  lemma PendingNext(f0: Files, f: Files, scan: seq<Path>, i: nat)
    requires Pending(f0, f, scan, i) && i < |scan|
    ensures scan[i] in f0 && scan[i] in f && f[scan[i]] == f0[scan[i]]
  {
  }

  lemma PendingStays(f0: Files, f: Files, f': Files, incoming: Path, scan: seq<Path>, i: nat, second: Path)
    requires Pending(f0, f, scan, i) && i < |scan| && SameBut(f, f', scan[i], second)
    requires second == scan[i] || !Under(second, incoming)
    requires forall p :: p in scan ==> Under(p, incoming)
    ensures Pending(f0, f', scan, i + 1)
  {
  }

  lemma AllDecided(f0: Files, f1: Files, j: Log, incoming: Path, scan: seq<Path>,
                   applied: seq<(Path, Path)>, action: DecisionAction, target: Path -> Path)
    requires forall p :: p in scan ==> p in f0 && target(p) != []
    requires |applied| == |scan|
    requires forall i :: 0 <= i < |scan| ==> DecidedAt(f0, f1, j, incoming, scan, applied, action, target, i)
    ensures DecisionApplied(f0, f1, j, incoming, scan, applied, action, target)
    ensures scan != [] ==> applied[0].1 != []
  {
    if scan != [] {
      assert DecidedAt(f0, f1, j, incoming, scan, applied, action, target, 0);
    }
  }

  lemma DecidedNow(f0: Files, f': Files, j: Log, incoming: Path, scan: seq<Path>, applied: seq<(Path, Path)>,
                   action: DecisionAction, target: Path -> Path, i: nat)
    requires i < |scan| && |applied| == i + 1 && scan[i] in f0 && target(scan[i]) != []
    requires applied[i].0 == scan[i] && applied[i].1 != []
    requires Dir(applied[i].1) == Dir(target(scan[i])) && !Under(applied[i].1, incoming)
    requires action == ReplaceExisting ==> applied[i].1 == target(scan[i])
    requires Settled(f0[scan[i]], f', j, applied[i].1)
    ensures DecidedAt(f0, f', j, incoming, scan, applied, action, target, i)
  {
  }

  lemma SameButOutside(f0: Files, f: Files, f': Files, dir: Path, touched: seq<Path>, a: Path, b: Path)
    requires SameOutside(f0, f, dir, touched) && SameBut(f, f', a, b)
    requires (Under(a, dir) || a in touched) && (Under(b, dir) || b in touched)
    ensures SameOutside(f0, f', dir, touched)
  {
  }

  /** Clearing the incoming directory leaves every applied decision in place. */
  lemma DecisionsOutliveClearing(f0: Files, f1: Files, f2: Files, j: Log, incoming: Path, scan: seq<Path>,
                                 applied: seq<(Path, Path)>, action: DecisionAction, target: Path -> Path)
    requires forall p :: p in scan ==> p in f0 && target(p) != []
    requires DecisionApplied(f0, f1, j, incoming, scan, applied, action, target)
    requires ClearedUnder(f1, f2, incoming)
    ensures DecisionApplied(f0, f2, j, incoming, scan, applied, action, target)
  {
    forall i | 0 <= i < |scan|
      ensures DecidedAt(f0, f2, j, incoming, scan, applied, action, target, i)
    {
      assert DecidedAt(f0, f1, j, incoming, scan, applied, action, target, i);
    }
  }

  lemma SameOutsideCleared(f0: Files, f1: Files, f2: Files, incoming: Path, touched: seq<Path>)
    requires SameOutside(f0, f1, incoming, touched) && ClearedUnder(f1, f2, incoming)
    ensures SameOutside(f0, f2, incoming, touched)
  {
  }

  /** The files after the logged moves. */
  function End(f0: Files, j: Log): Files {
    if j == [] then f0 else j[|j| - 1].after
  }

  /**
    The state of the files at any exit of an import attempt or decision: the logged moves led there, apart
    from the final clearing, and every content survives in them or, once cleared, the handled ones do.
  */
  ghost predicate ImportPost(f0: Files, f1: Files, j: Log, incoming: Path, handled: seq<Path>, cleared: bool) {
    && Traced(f0, j, End(f0, j))
    && (if cleared then ClearedUnder(End(f0, j), f1, incoming) else f1 == End(f0, j))
    && SameSizeOnly(DurableContents(f0, incoming), j)
    && (!cleared ==> Keeps(DurableContents(f0, incoming), f1, j, Durable(incoming)))
    && (cleared ==> Settles(f0, f1, j, incoming, handled))
  }

  /** Outside the incoming directory there are exactly the protected contents, up to judgements. */
  ghost predicate Settles(f0: Files, f1: Files, j: Log, incoming: Path, handled: seq<Path>) {
    var kept := Protected(f0, incoming, handled).Values;
    Keeps(kept, f1, j, Zone(incoming, [])) && Stems(kept, f1, Zone(incoming, []))
  }

  lemma HandledIs(job: Job, scan: seq<Path>)
    ensures Handled(job, scan) == scan + StagePaths(job.sourcePath, IncomingDir(job), scan)
  {
  }

  lemma NothingLostPost(f0: Files, f1: Files, j: Log, incoming: Path, handled: seq<Path>, routes: Routes)
    requires NothingLost(incoming, DurableContents(f0, incoming), f1, j) && Extends(f0, [], f1, j, routes)
    ensures ImportPost(f0, f1, j, incoming, handled, false) && Routed(j, routes)
  {
    assert j[0..] == j;
    EndOfTrace(f0, j, f1);
    hide Traced, Keeps, SameSizeOnly;
  }

  lemma EndOfTrace(f0: Files, j: Log, f1: Files)
    requires Traced(f0, j, f1)
    ensures f1 == End(f0, j)
  {
  }

  lemma UntouchedPost(f: Files, incoming: Path, handled: seq<Path>, touched: seq<Path>, routes: Routes)
    ensures ImportPost(f, f, [], incoming, handled, false) && SameOutside(f, f, incoming, touched)
    ensures Distinct([]) && Routed([], routes)
  {
    forall p | p in f && p in Durable(incoming)
      ensures Survives(f[p], f, [], Durable(incoming))
    {
      assert StandsFor(f[p], f[p], []);
    }
  }

  lemma EarlyPost(f0: Files, f1: Files, j: Log, incoming: Path, handled: seq<Path>, a: seq<Path>, b: seq<Path>,
                  some: Routes, routes: Routes)
    requires NothingLost(incoming, DurableContents(f0, incoming), f1, j) && SameOutside(f0, f1, incoming, a)
    requires Extends(f0, [], f1, j, some) && some <= routes
    ensures ImportPost(f0, f1, j, incoming, handled, false) && SameOutside(f0, f1, incoming, a + b) && Routed(j, routes)
  {
    NothingLostPost(f0, f1, j, incoming, handled, some);
    hide ImportPost, Extends;
  }

  lemma FinishPost(f0: Files, f1: Files, f2: Files, j: Log, incoming: Path, handled: seq<Path>,
                   touched: seq<Path>, cleared: bool, routes: Routes)
    requires Extends(f0, [], f1, j, routes)
    requires NothingLost(incoming, DurableContents(f0, incoming), f1, j) && SameOutside(f0, f1, incoming, touched)
    requires ClearedUnder(f1, f2, incoming) && (!cleared ==> f2 == f1)
    requires Keeps(Protected(f0, incoming, handled).Values, f2, j, Zone(incoming, []))
    requires Stems(Protected(f0, incoming, handled).Values, f2, Zone(incoming, []))
    ensures ImportPost(f0, f2, j, incoming, handled, cleared) && SameOutside(f0, f2, incoming, touched)
    ensures Settles(f0, f2, j, incoming, handled) && Routed(j, routes)
    ensures forall p :: p in f1 && !Under(p, incoming) ==> p in f2
  {
    NothingLostPost(f0, f1, j, incoming, handled, routes);
    EndOfTrace(f0, j[0..], f1);
    assert j[0..] == j;
    hide Traced, Keeps, SameSizeOnly, Stems, Extends;
  }

  lemma SameOutsideChain(f: Files, f': Files, f'': Files, dir: Path, a: seq<Path>, b: seq<Path>)
    requires SameOutside(f, f', dir, a) && SameOutside(f', f'', dir, b)
    ensures SameOutside(f, f'', dir, a + b)
  {
  }

  lemma SameOutsideRefl(f: Files, dir: Path, touched: seq<Path>)
    ensures SameOutside(f, f, dir, touched)
  {
  }

  lemma StartConserving(f: Files, incoming: Path, scan: seq<Path>, stages: seq<Path>)
    requires forall p :: p in scan + stages ==> p in Durable(incoming)
    ensures Conserving(incoming, DurableContents(f, incoming), Protected(f, incoming, scan + stages).Values, f, [],
                       Zone(incoming, stages + scan[0..]))
  {
    var zone := Zone(incoming, stages + scan[0..]);
    var kept := Protected(f, incoming, scan + stages);
    assert scan[0..] == scan;
    forall c | c in kept.Values
      ensures Survives(c, f, [], zone)
    {
      var p :| p in kept && kept[p] == c;
      assert p in f && p in zone && StandsFor(c, c, []);
    }
    forall p | p in f && p in Durable(incoming)
      ensures Survives(f[p], f, [], Durable(incoming))
    {
      assert StandsFor(f[p], f[p], []);
    }
    forall p | p in f && p in zone
      ensures f[p] in kept.Values
    {
      assert p in kept && kept[p] == f[p];
    }
  }

  /** One exit keeps every durable content durable, itself or a stand-in for it. */
  lemma ExitKeepsDurableContents(f0: Files, f1: Files, j: Log, incoming: Path, handled: seq<Path>, cleared: bool)
    requires ImportPost(f0, f1, j, incoming, handled, cleared)
    requires cleared ==> NoStrays(f0, incoming, handled)
    ensures Keeps(DurableContents(f0, incoming), f1, j, Durable(incoming))
  {
    hide Traced, SameSizeOnly, IsMedia, StandsFor, Stems, ClearedUnder, End, NoStrays, Survives, Zone, Durable;
    if cleared {
      ProtectedCovers(f0, incoming, handled);
      forall c | c in DurableContents(f0, incoming)
        ensures Survives(c, f1, j, Durable(incoming))
      {
        OutsideIsDurable(c, f1, j, incoming);
      }
    }
  }

  lemma ProtectedCovers(f0: Files, incoming: Path, handled: seq<Path>)
    requires NoStrays(f0, incoming, handled)
    ensures DurableContents(f0, incoming) <= Protected(f0, incoming, handled).Values
  {
    hide IsMedia;
    var kept := Protected(f0, incoming, handled);
    forall c | c in DurableContents(f0, incoming)
      ensures c in kept.Values
    {
      var p :| p in f0 && p in Durable(incoming) && f0[p] == c;
      assert p in kept && kept[p] == c;
    }
  }

  lemma OutsideIsDurable(c: Content, f: Files, j: Log, incoming: Path)
    ensures Survives(c, f, j, Zone(incoming, [])) ==> Survives(c, f, j, Durable(incoming))
  {
    hide IsMedia, StandsFor;
  }

  // ---- the scan

  /** Distinct media files, none missing below the limit, are all of them if all of them fit the limit. */
  lemma FullScan(f: Files, root: Path, found: seq<Path>, max: nat, all: bool)
    requires Distinct(found) && |found| <= max && (all || |found| == max)
    requires forall p :: p in found ==> p in Media(f, root)
    requires all && |found| < max ==> NoStrays(f, root, found)
    ensures |Media(f, root)| <= max ==> NoStrays(f, root, found)
    ensures |Media(f, root)| > max ==> |found| == max
  {
    hide IsMedia;
    var s := set p | p in found;
    MembersOfDistinct(found);
    SmallerSet(s, Media(f, root));
    if |found| < max {
      assert s == Media(f, root);
    }
    forall p | p in Media(f, root) && s == Media(f, root)
      ensures p in found
    {
    }
  }

  lemma {:induction false} MembersOfDistinct(found: seq<Path>)
    requires Distinct(found)
    ensures |set p | p in found| == |found|
  {
    if found != [] {
      var n := |found| - 1;
      MembersOfDistinct(found[..n]);
      assert (set p | p in found) == (set p | p in found[..n]) + {found[n]};
    }
  }

  lemma ScanIsDurable(incoming: Path, scan: seq<Path>)
    requires forall p :: p in scan ==> Under(p, incoming) && IsMedia(Base(p))
    ensures forall p :: p in scan + [] ==> p in Durable(incoming)
  {
  }

  // ---- routes

  ghost function JobRoutes(job: Job, scan: seq<Path>, target: Path -> Path, trashDir: Path): Routes {
    var stages := StagePaths(job.sourcePath, IncomingDir(job), scan);
    StageRoutes(scan, stages) + PlanRoutes(stages, target, trashDir)
  }

  lemma JobRoutesAre(job: Job, scan: seq<Path>, target: Path -> Path, trashDir: Path)
    ensures var stages := StagePaths(job.sourcePath, IncomingDir(job), scan);
            && StageRoutes(scan, stages) <= JobRoutes(job, scan, target, trashDir)
            && PlanRoutes(stages, target, trashDir) <= JobRoutes(job, scan, target, trashDir)
  {
    hide StageRoutes, PlanRoutes;
  }

  lemma IsStageRoute(scan: seq<Path>, stages: seq<Path>, i: nat)
    requires i < |scan| && i < |stages|
    ensures (scan[i], stages[i]) in StageRoutes(scan, stages)
  {
  }

  lemma CopyIsPlace(planned: Path, incoming: Path, place: Path)
    requires planned != [] && !Under(planned, incoming) && place != [] && Dir(place) == Dir(planned)
             && IsCopyName(planned, place)
    ensures !Under(place, incoming) && IsPlace(planned, "keep_both", incoming, place)
  {
    UnderViaParent(planned, incoming);
    UnderViaParent(place, incoming);
  }

  lemma PlanRoutesAllow(src: Path, dst: Path, trashDir: Path)
    requires dst != []
    ensures (src, dst) in RoutesOf(src, dst, trashDir)
    ensures forall b :: IsCopyName(dst, b) ==> (src, b) in RoutesOf(src, dst, trashDir)
    ensures forall b :: IsTrashName(trashDir, Base(dst), b) ==> (dst, b) in RoutesOf(src, dst, trashDir)
  {
    hide IsCopyName, IsTrashName;
  }

  lemma PlanRoutesInclude(staged: seq<Path>, target: Path -> Path, trashDir: Path, i: nat)
    requires i < |staged| && target(staged[i]) != []
    ensures RoutesOf(staged[i], target(staged[i]), trashDir) <= PlanRoutes(staged, target, trashDir)
  {
    hide PlanRoute;
  }

  // ---- where the files of a job end up

  /** No file is staged where a file still to be staged lies. */
  ghost predicate NoClash(scan: seq<Path>, stages: seq<Path>) {
    forall k, i :: 0 <= k < i < |scan| && k < |stages| ==> stages[k] != scan[i]
  }

  /** Files outside the incoming directory never clash, and neither do those of an orphan, which are staged in place. */
  lemma StagingDoesNotClash(source: Path, incoming: Path, scan: seq<Path>)
    requires Distinct(scan) && forall p :: p in scan ==> Under(p, source)
    requires source == incoming || forall p :: p in scan ==> !Under(p, incoming)
    ensures NoClash(scan, StagePaths(source, incoming, scan))
  {
    var stages := StagePaths(source, incoming, scan);
    forall k, i | 0 <= k < i < |scan|
      ensures stages[k] != scan[i]
    {
      assert scan[k] in scan && scan[i] in scan;
    }
  }

  /** The first `n` scanned files are at their staging paths. */
  ghost predicate AllStaged(f0: Files, f: Files, j: Log, scan: seq<Path>, stages: seq<Path>, n: nat) {
    && n <= |scan| && n <= |stages|
    && forall k :: 0 <= k < n ==> scan[k] in f0 && Settled(f0[scan[k]], f, j, stages[k])
  }

  lemma NothingStaged(f0: Files, f: Files, j: Log, scan: seq<Path>, stages: seq<Path>)
    ensures AllStaged(f0, f, j, scan, stages, 0)
  {
  }

  lemma MovePending(f0: Files, f: Files, f': Files, j: Log, j': Log, scan: seq<Path>, stages: seq<Path>, i: nat)
    requires i < |scan| == |stages| && Pending(f0, f, scan, i)
    requires MoveStep(f, f', j, j', scan[i], stages[i], true)
    ensures Pending(f0, f', scan, i + 1)
  {
    PendingNext(f0, f, scan, i);
    MoveSettles(f, f', j, j', scan[i], stages[i]);
  }

  lemma OneMoreStaged(f0: Files, f: Files, f': Files, j: Log, j': Log, scan: seq<Path>, stages: seq<Path>, i: nat)
    requires i < |scan| == |stages| && NoClash(scan, stages)
    requires Pending(f0, f, scan, i) && AllStaged(f0, f, j, scan, stages, i)
    requires MoveStep(f, f', j, j', scan[i], stages[i], true)
    ensures AllStaged(f0, f', j', scan, stages, i + 1)
  {
    MoveSettles(f, f', j, j', scan[i], stages[i]);
    hide MoveStep, Settled;
    forall k | 0 <= k < i
      ensures Settled(f0[scan[k]], f', j', stages[k])
    {
      SettledStays(f0[scan[k]], f, f', j, j', stages[k], scan[i], scan[i]);
    }
  }

  /** What was at `src` in `f0` is at `place` in `f`, or what is there stands for it. */
  ghost predicate Filed(f0: Files, f: Files, j: Log, src: Path, place: Path) {
    src in f0 && Settled(f0[src], f, j, place)
  }

  /** No plan among those from `k` on to `n` replaces what is at `place`. */
  ghost predicate Undisturbed(staged: seq<Path>, place: Path, actions: nat -> string, target: Path -> Path, k: nat,
                              n: nat) {
    forall i :: k < i < n && i < |staged| && actions(i) == "replace" ==> target(staged[i]) != place
  }

  /** A place for a file planned at `planned`: there, or beside it if both are to be kept. */
  ghost predicate IsPlace(planned: Path, action: string, incoming: Path, place: Path) {
    && planned != [] && !Under(place, incoming)
    && (place == planned || (action == "keep_both" && IsCopyName(planned, place)))
  }

  ghost predicate PlanPlaced(f0: Files, f: Files, j: Log, incoming: Path, staged: seq<Path>, applied: seq<Path>,
                             actions: nat -> string, target: Path -> Path, n: nat, k: nat)
    requires k < |staged| && k < |applied|
  {
    && IsPlace(target(staged[k]), actions(k), incoming, applied[k])
    && (staged[k] in f0 && Undisturbed(staged, applied[k], actions, target, k, n) ==>
       Settled(f0[staged[k]], f, j, applied[k]))
  }

  ghost predicate PlansPlaced(f0: Files, f: Files, j: Log, incoming: Path, staged: seq<Path>, applied: seq<Path>,
                              actions: nat -> string, target: Path -> Path, n: nat)
  {
    n == |applied| <= |staged| && forall k :: 0 <= k < n ==>
        PlanPlaced(f0, f, j, incoming, staged, applied, actions, target, n, k)
  }

  lemma NothingPlaced(f0: Files, f: Files, j: Log, incoming: Path, staged: seq<Path>, actions: nat -> string,
                      target: Path -> Path)
    ensures PlansPlaced(f0, f, j, incoming, staged, [], actions, target, 0)
  {
  }

  lemma OneMorePlaced(f0: Files, f: Files, f': Files, j0: Log, j1: Log, j: Log, incoming: Path, staged: seq<Path>,
                      before: seq<Path>, placed: Path, actions: nat -> string, target: Path -> Path, i: nat)
    requires i < |staged| && j0 <= j1 <= j
    requires forall p :: p in staged ==> Under(p, incoming)
    requires PlansPlaced(f0, f, Since(j0, j1), incoming, staged, before, actions, target, i)
             && Expected(f0, f, staged, i)
    requires IsPlace(target(staged[i]), actions(i), incoming, placed) && Filed(f, f', Since(j1, j), staged[i], placed)
    requires SameBut(f, f', staged[i], if actions(i) == "replace" then target(staged[i]) else staged[i])
    ensures PlansPlaced(f0, f', Since(j0, j), incoming, staged, before + [placed], actions, target, i + 1)
  {
    hide IsPlace, Settled;
    SettledSince(f[staged[i]], f', j0, j1, j, placed);
    var applied, n := before + [placed], i + 1;
    assert Since(j0, j1) <= Since(j0, j);
    forall k | 0 <= k < i
      ensures PlanPlaced(f0, f', Since(j0, j), incoming, staged, applied, actions, target, n, k)
    {
      PlanStaysPlaced(f0, f, f', Since(j0, j1), Since(j0, j), incoming, staged, before, applied, actions, target, i, k);
    }
  }

  lemma PlanStaysPlaced(f0: Files, f: Files, f': Files, j: Log, j': Log, incoming: Path, staged: seq<Path>,
                        before: seq<Path>, applied: seq<Path>, actions: nat -> string, target: Path -> Path, i: nat,
                            k: nat)
    requires k < i < |staged| && i == |before| && before <= applied && j <= j' && Under(staged[i], incoming)
    requires PlanPlaced(f0, f, j, incoming, staged, before, actions, target, i, k)
    requires SameBut(f, f', staged[i], if actions(i) == "replace" then target(staged[i]) else staged[i])
    ensures PlanPlaced(f0, f', j', incoming, staged, applied, actions, target, i + 1, k)
  {
    hide Settled, SameBut;
    if staged[k] in f0 && Undisturbed(staged, applied[k], actions, target, k, i + 1) {
      assert Undisturbed(staged, before[k], actions, target, k, i);
      SettledStays(f0[staged[k]], f, f', j, j', before[k], staged[i],
                   if actions(i) == "replace" then target(staged[i]) else staged[i]);
    }
  }

  /** The files from index `i` on, if they were there, are as they were. */
  ghost predicate Expected(f0: Files, f: Files, staged: seq<Path>, i: nat) {
    && Distinct(staged)
    && forall k :: i <= k < |staged| && staged[k] in f0 ==> staged[k] in f && f[staged[k]] == f0[staged[k]]
  }

  lemma ExpectedInit(f0: Files, staged: seq<Path>)
    requires Distinct(staged)
    ensures Expected(f0, f0, staged, 0)
  {
  }

  lemma ExpectedStays(f0: Files, f: Files, f': Files, incoming: Path, staged: seq<Path>, i: nat, second: Path)
    requires Expected(f0, f, staged, i) && i < |staged| && SameBut(f, f', staged[i], second)
    requires second == staged[i] || !Under(second, incoming)
    requires forall p :: p in staged ==> Under(p, incoming)
    ensures Expected(f0, f', staged, i + 1)
  {
  }

  /**
    What a successful attempt does with every scanned file: its content, or what was taken for it, is at its
    planned target, or beside it if both are to be kept, unless a later plan of the same attempt replaced it.
  */
  ghost predicate JobPlaced(f0: Files, f: Files, j: Log, incoming: Path, scan: seq<Path>, stages: seq<Path>,
                            applied: seq<Path>, actions: nat -> string, target: Path -> Path)
  {
    && |applied| == |scan| == |stages|
    && forall k :: 0 <= k < |scan| ==> FilePlaced(f0, f, j, incoming, scan[k], stages, applied[k], actions, target, k)
  }

  ghost predicate FilePlaced(f0: Files, f: Files, j: Log, incoming: Path, file: Path, stages: seq<Path>,
                             place: Path, actions: nat -> string, target: Path -> Path, k: nat)
    requires k < |stages|
  {
    && file in f0 && IsPlace(target(stages[k]), actions(k), incoming, place)
    && (Undisturbed(stages, place, actions, target, k, |stages|) ==> Settled(f0[file], f, j, place))
  }

  lemma StagedThenPlaced(f0: Files, g: Files, f: Files, j: Log, j': Log, incoming: Path, scan: seq<Path>,
                         stages: seq<Path>,
                         applied: seq<Path>, actions: nat -> string, target: Path -> Path)
    requires |scan| == |stages| && j <= j'
    requires AllStaged(f0, g, j, scan, stages, |scan|)
    requires PlansPlaced(g, f, Since(j, j'), incoming, stages, applied, actions, target, |stages|)
    ensures JobPlaced(f0, f, j', incoming, scan, stages, applied, actions, target)
  {
    hide IsPlace, Undisturbed;
    assert j + Since(j, j') == j';
    forall k | 0 <= k < |scan|
      ensures FilePlaced(f0, f, j', incoming, scan[k], stages, applied[k], actions, target, k)
    {
      assert PlanPlaced(g, f, Since(j, j'), incoming, stages, applied, actions, target, |stages|, k);
      assert Settled(f0[scan[k]], g, j, stages[k]);
      if Undisturbed(stages, applied[k], actions, target, k, |stages|) {
        StandsOn(f[applied[k]], g[stages[k]], f0[scan[k]], j, Since(j, j'));
      }
    }
  }

  lemma PlacesOutliveClearing(f0: Files, f1: Files, f2: Files, j: Log, incoming: Path, scan: seq<Path>,
                              stages: seq<Path>,
                              applied: seq<Path>, actions: nat -> string, target: Path -> Path)
    requires JobPlaced(f0, f1, j, incoming, scan, stages, applied, actions, target) && ClearedUnder(f1, f2, incoming)
    ensures JobPlaced(f0, f2, j, incoming, scan, stages, applied, actions, target)
  {
    hide Undisturbed;
    forall k | 0 <= k < |scan|
      ensures FilePlaced(f0, f2, j, incoming, scan[k], stages, applied[k], actions, target, k)
    {
      assert FilePlaced(f0, f1, j, incoming, scan[k], stages, applied[k], actions, target, k);
    }
  }

  /** With targets of their own and nothing to replace, or nothing but replacing, no plan disturbs another. */
  lemma PlansDoNotDisturb(staged: seq<Path>, applied: seq<Path>, actions: nat -> string, target: Path -> Path, k: nat)
    requires k < |staged| == |applied| && Distinct(Targets(staged, target))
    requires (forall i: nat :: actions(i) != "replace") || applied[k] == target(staged[k])
    ensures Undisturbed(staged, applied[k], actions, target, k, |staged|)
  {
    var targets := Targets(staged, target);
    forall i | k < i < |staged| && applied[k] == target(staged[k])
      ensures target(staged[i]) != applied[k]
    {
      assert targets[k] != targets[i];
    }
  }

  lemma StagesAreMedia(source: Path, incoming: Path, scan: seq<Path>)
    requires forall p :: p in scan ==> Under(p, source) && IsMedia(Base(p))
    ensures forall p :: p in StagePaths(source, incoming, scan) ==> Under(p, incoming) && IsMedia(Base(p))
  {
    hide IsMedia;
    assert forall k :: 0 <= k < |scan| ==> scan[k] in scan;
  }

  lemma TargetsOfScan(f: Files, source: Path, incoming: Path, scan: seq<Path>, target: Path -> Path)
    requires forall p :: p in StagePaths(source, incoming, scan) ==> target(p) in f
    ensures forall p :: p in scan ==> target(StagePath(source, incoming, p)) in f
  {
    hide StagePath;
    forall p | p in scan
      ensures target(StagePath(source, incoming, p)) in f
    {
      var k :| 0 <= k < |scan| && scan[k] == p;
      assert StagePaths(source, incoming, scan)[k] in StagePaths(source, incoming, scan);
    }
  }

  lemma StagesAreInside(source: Path, incoming: Path, scan: seq<Path>)
    requires forall p :: p in scan ==> Under(p, source)
    ensures forall k :: 0 <= k < |scan| ==> incoming < StagePaths(source, incoming, scan)[k]
  {
    assert forall k :: 0 <= k < |scan| ==> scan[k] in scan;
  }

  lemma StagesDistinct(source: Path, incoming: Path, scan: seq<Path>)
    requires Distinct(scan) && forall p :: p in scan ==> Under(p, source)
    ensures Distinct(StagePaths(source, incoming, scan))
  {
    var stages := StagePaths(source, incoming, scan);
    forall i, k | 0 <= i < k < |scan|
      ensures stages[i] != stages[k]
    {
      assert scan[i] in scan && scan[k] in scan;
      StagesDiffer(source, incoming, scan[i], scan[k]);
    }
  }

  lemma StagesDiffer(source: Path, incoming: Path, a: Path, b: Path)
    requires Under(a, source) && Under(b, source) && a != b
    ensures StagePath(source, incoming, a) != StagePath(source, incoming, b)
  {
    var n := |source|;
    assert StagePath(source, incoming, a)[|incoming|..] == a[n..];
    assert StagePath(source, incoming, b)[|incoming|..] == b[n..];
    assert a == a[..n] + a[n..] && b == b[..n] + b[n..] && a[..n] == source == b[..n];
  }

  // ---- how an attempt ends

  lemma OutcomeUnbegun(found: bool, confident: bool, stages: seq<Path>, stop: Stop, actions: nat -> string,
                       target: Path -> Path, marked: bool)
    ensures JobOutcome(if found && !confident then NeedsReview else Failed, found, confident, stages, false, [], stop,
                       actions, target, marked)
  {
  }

  lemma OutcomeBegun(r: PlanResult, stages: seq<Path>, applied: seq<Path>, stop: Stop, actions: nat -> string,
                     target: Path -> Path, marked: bool)
    requires stages != [] && target(stages[0]) != []
    requires if r == Applied then |applied| == |stages| else |applied| < |stages|
    requires r == AskReview <==> r != Applied && Asks(stop.at, stages, target, actions, |applied|)
    ensures var outcome := if r == AskReview then NeedsReview
                           else if r == Applied && marked then Imported(Dir(target(stages[0]))) else Failed;
            JobOutcome(outcome, true, true, stages, true, applied, stop, actions, target, marked)
  {
    hide Asks;
  }

  lemma PlanTouches(f0: Files, f: Files, f1: Files, incoming: Path, staged: seq<Path>, actions: nat -> string,
                    target: Path -> Path, i: nat)
    requires i < |staged| && Under(staged[i], incoming) && SameOutside(f0, f, incoming, Targets(staged, target))
    requires SameBut(f, f1, staged[i], if actions(i) == "replace" then target(staged[i]) else staged[i])
    ensures SameOutside(f0, f1, incoming, Targets(staged, target))
  {
    var targets := Targets(staged, target);
    assert targets[i] == target(staged[i]) && targets[i] in targets;
    hide *;
    WiderSameBut(f, f1, staged[i], target(staged[i]), actions(i) == "replace");
    SameButOutside(f0, f, f1, incoming, targets, staged[i], targets[i]);
  }

  // what the plans so far have achieved stays, and the next one is added to it
  lemma PlanDone(f0: Files, f: Files, f1: Files, j0: Log, j1: Log, j: Log, incoming: Path, staged: seq<Path>,
                 before: seq<Path>, placed: Path, actions: nat -> string, target: Path -> Path, i: nat)
    requires i < |staged| && j0 <= j1 <= j
    requires forall p :: p in staged ==> Under(p, incoming) && !Under(target(p), incoming)
    requires PlansPlaced(f0, f, Since(j0, j1), incoming, staged, before, actions, target, i)
    requires Expected(f0, f, staged, i) && TargetsPresent(f, staged, target, i)
    requires IsPlace(target(staged[i]), actions(i), incoming, placed) && Filed(f, f1, Since(j1, j), staged[i], placed)
    requires SameBut(f, f1, staged[i], if actions(i) == "replace" then target(staged[i]) else staged[i])
    requires target(staged[i]) in f1
    ensures PlansPlaced(f0, f1, Since(j0, j), incoming, staged, before + [placed], actions, target, i + 1)
    ensures Expected(f0, f1, staged, i + 1) && TargetsPresent(f1, staged, target, i + 1)
  {
    hide *;
    assert staged[i] in staged;
    OneMorePlaced(f0, f, f1, j0, j1, j, incoming, staged, before, placed, actions, target, i);
    ExpectedStays(f0, f, f1, incoming, staged, i, if actions(i) == "replace" then target(staged[i]) else staged[i]);
    WiderSameBut(f, f1, staged[i], target(staged[i]), actions(i) == "replace");
    TargetsStay(f, f1, incoming, staged, target, i);
  }

  lemma StopsHere(f0: Files, j0: Log, f: Files, j1: Log, f1: Files, j: Log, staged: seq<Path>, target: Path -> Path,
                  actions: nat -> string, trashDir: Path, i: nat)
    requires i < |staged| && target(staged[i]) != []
    requires Extends(f0, j0, f, j1, PlanRoutes(staged, target, trashDir))
    requires Extends(f, j1, f1, j, RoutesOf(staged[i], target(staged[i]), trashDir))
    ensures StoppedAt(f0, j0, Stop(f, j1), f1, j, staged, target, trashDir, i)
    ensures Asks(f, staged, target, actions, i) <==> Collides(f, staged[i], target(staged[i]), actions(i))
    ensures Stuck(f, staged, target, actions, trashDir, i)
            <==> staged[i] !in f || NamesRunOut(f, target(staged[i]), actions(i), trashDir)
  {
    hide Extends, Collides, NamesRunOut, PlanRoutes, RoutesOf;
  }

  lemma DecisionStopsHere(f0: Files, f: Files, j1: Log, f1: Files, j: Log, scan: seq<Path>, target: Path -> Path,
                          action: DecisionAction, trashDir: Path, i: nat)
    requires i < |scan| && target(scan[i]) != []
    requires Extends(f0, [], f, j1, PlanRoutes(scan, target, trashDir))
    requires Extends(f, j1, f1, j, RoutesOf(scan[i], target(scan[i]), trashDir))
    ensures StoppedAt(f0, [], Stop(f, j1), f1, j, scan, target, trashDir, i)
    ensures OutOfNames(f, scan, target, action, trashDir, i)
            <==> NamesRunOut(f, target(scan[i]), Policy(action), trashDir)
  {
    hide Extends, NamesRunOut, PlanRoutes, RoutesOf;
  }

  lemma OutcomeUndecided(underReview: bool, action: DecisionAction, marked: bool)
    ensures DecisionOutcome(if underReview && action == Skip && marked then Skipped else Failed, underReview, action,
                            [], [], marked)
  {
  }

  lemma OutcomeOfDecision(scan: seq<Path>, applied: seq<(Path, Path)>, action: DecisionAction, ok: bool, marked: bool)
    requires action == KeepBoth || action == ReplaceExisting
    requires scan != [] && if ok then |applied| == |scan| && applied[0].1 != [] else |applied| < |scan|
    ensures DecisionOutcome(if ok && marked then Imported(Dir(applied[0].1)) else Failed, true, action, scan, applied,
                            marked)
  {
  }

  lemma StopsInJob(f0: Files, g: Files, b: Log, stop: Stop, f1: Files, j: Log, job: Job, scan: seq<Path>,
                   target: Path -> Path, trashDir: Path, k: nat)
    requires k < |scan| && Extends(f0, [], g, b, StageRoutes(scan, StagePaths(job.sourcePath, IncomingDir(job), scan)))
    requires StoppedAt(g, b, stop, f1, j, StagePaths(job.sourcePath, IncomingDir(job), scan), target, trashDir, k)
    ensures StoppedInJob(f0, stop, f1, j, job, scan, target, trashDir, k)
  {
    hide Extends, StageRoutes, PlanRoutes, RoutesOf, JobRoutes, StagePaths;
    var stages := StagePaths(job.sourcePath, IncomingDir(job), scan);
    JobRoutesAre(job, scan, target, trashDir);
    ExtendsOn(f0, [], g, b, stop.at, stop.log, StageRoutes(scan, stages), PlanRoutes(stages, target, trashDir),
              JobRoutes(job, scan, target, trashDir));
  }

  lemma UnbegunExplained(f0: Files, job: Job, scan: seq<Path>, confident: bool, stop: Stop, actions: nat -> string,
                         target: Path -> Path, trashDir: Path)
    requires scan != [] && confident ==> Leftover(f0, scan, StagePaths(job.sourcePath, IncomingDir(job), scan))
    ensures FailureExplained(f0, job, scan, confident, false, [], stop, actions, target, trashDir)
  {
    hide Leftover, StagePaths, Asks, Stuck;
  }

  lemma BegunExplained(f0: Files, job: Job, scan: seq<Path>, confident: bool, applied: seq<Path>, stop: Stop,
                       actions: nat -> string, target: Path -> Path, trashDir: Path)
    requires var stages := StagePaths(job.sourcePath, IncomingDir(job), scan);
             || |applied| == |scan|
             || Asks(stop.at, stages, target, actions, |applied|)
             || Stuck(stop.at, stages, target, actions, trashDir, |applied|)
    ensures FailureExplained(f0, job, scan, confident, true, applied, stop, actions, target, trashDir)
  {
    hide Leftover, StagePaths, Asks, Stuck;
  }

  // ---- staging when nothing fails

  /** Beyond the files there were, there are at most those staged so far. */
  ghost predicate Grown(f0: Files, f: Files, stages: seq<Path>, n: nat) {
    forall p :: p in f ==> (p in f0 && f0[p] == f[p]) || exists k :: 0 <= k < n && k < |stages| && stages[k] == p
  }

  lemma NothingGrown(f: Files, stages: seq<Path>)
    ensures Grown(f, f, stages, 0)
  {
  }

  lemma GrowsByMove(f0: Files, f: Files, f': Files, j: Log, j': Log, src: Path, stages: seq<Path>, i: nat)
    requires i < |stages| && Grown(f0, f, stages, i) && MoveStep(f, f', j, j', src, stages[i], true)
    ensures Grown(f0, f', stages, i + 1)
  {
    forall p | p in f' && p != stages[i]
      ensures p in f && f[p] == f'[p]
    {
    }
  }

  lemma RefusedByLeftover(f0: Files, f: Files, scan: seq<Path>, stages: seq<Path>, i: nat)
    requires i < |scan| == |stages| && Distinct(stages) && Grown(f0, f, stages, i) && Pending(f0, f, scan, i)
    requires !CanMove(f, scan[i], stages[i], true)
    ensures Leftover(f0, scan, stages)
  {
    PendingNext(f0, f, scan, i);
    assert LeftAt(f0, scan[i], stages[i]);
  }

  lemma TrashIsElsewhere(target: Path, trashDir: Path, trash: Path)
    requires target != [] && IsTrashName(trashDir, Base(target), trash)
    ensures trash != target
  {
    hide Itoa;
    var stamp: string, i: nat :| trash == TrashPath(trashDir, Base(target), stamp, i);
    var tail := if i == 0 then "" else "." + Itoa(i);
    assert Base(trash) == Base(target) + "." + stamp + tail;
    assert |Base(trash)| > |Base(target)|;
  }

  // ---- one logged move of a plan

  lemma PlacedByMove(f: Files, f': Files, j: Log, j': Log, src: Path, dst: Path, ok: bool, routes: Routes)
    requires MoveStep(f, f', j, j', src, dst, ok) && (src, dst) in routes
    ensures Extends(f, j, f', j', routes) && j <= j' && SameBut(f, f', src, src)
    ensures ok && src in f ==> Settled(f[src], f', Since(j, j'), dst)
    ensures ok && src in f ==> dst in f'
    ensures ok && dst !in f && src != dst ==> src in f
    ensures ok && dst in f && src != dst ==> src in f && |f[src]| == |f[dst]|
  {
    ExtendsByMove(f, f', j, j', src, dst, ok, routes);
    if ok && src in f {
      assert j[|j|..] == [] && Since(j, j') == [] + [Step(f, src, dst, ok, f')];
      MoveSettles(f, f', [], Since(j, j'), src, dst);
    }
  }

  lemma RemovalIsMove(f: Files, f': Files, j: Log, j': Log, src: Path, dst: Path)
    requires src in f && dst in f && src != dst && |f[src]| == |f[dst]| && (f' == f || f' == f - {src})
    requires j' == j + [Step(f, src, dst, true, f')]
    ensures MoveStep(f, f', j, j', src, dst, true)
  {
  }

  lemma SettledSince(c: Content, f: Files, j0: Log, j1: Log, j: Log, p: Path)
    requires j0 <= j1 <= j && Settled(c, f, Since(j1, j), p)
    ensures Settled(c, f, Since(j0, j), p)
  {
    StandsLater(f[p], c, Since(j0, j1), Since(j1, j));
    assert Since(j0, j1) + Since(j1, j) == Since(j0, j);
  }

  lemma WiderSameBut(f: Files, f': Files, a: Path, b: Path, both: bool)
    requires SameBut(f, f', a, if both then b else a)
    ensures SameBut(f, f', a, b)
  {
  }
}
