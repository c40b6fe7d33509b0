/**
  The file system seen by the importer: a mutable map from clean paths to byte contents.

  A path is the sequence of its segments, so `filepath.Clean`, `filepath.Join` and `filepath.Rel`
  become sequence operations. Stat is faithful. Every other operation may fail at any call, which is
  then on record; a failed copy may leave any prefix of the source at the destination.
*/
module FileSystems {
  newtype Byte = x: int | 0 <= x < 256

  type Content = seq<Byte>
  type Path = seq<string>
  type Files = map<Path, Content>

  /** `p` lies strictly below the directory `dir`. */
  predicate Under(p: Path, dir: Path) {
    dir < p
  }

  function Dir(p: Path): Path
    requires p != []
  {
    p[..|p| - 1]
  }

  function Base(p: Path): string
    requires p != []
  {
    p[|p| - 1]
  }

  /** Whether a path lies below `dir` depends on its parent alone. */
  lemma UnderViaParent(p: Path, dir: Path)
    requires p != []
    ensures Under(p, dir) <==> dir <= Dir(p)
  {
    if Under(p, dir) {
      assert Dir(p)[..|dir|] == p[..|dir|];
    }
  }

  datatype RenameResult = Renamed | CrossDevice | RenameFailed

  class FileSystem {
    var files: Files
    const device: Path -> int // which device holds a path
    ghost var faulty: bool // some operation has failed though nothing stood in its way

    constructor (files: Files, device: Path -> int)
      ensures this.files == files && this.device == device && !faulty
    {
      this.files, this.device, this.faulty := files, device, false;
    }

    /** `os.Rename`: on success the destination is overwritten. */
    method Rename(src: Path, dst: Path) returns (r: RenameResult)
      requires src != dst
      modifies this
      ensures old(faulty) ==> faulty
      ensures r == Renamed ==> src in old(files) && files == old(files)[dst := old(files)[src]] - {src}
      ensures r != Renamed ==> files == old(files)
      ensures r == Renamed ==> device(src) == device(dst)
      ensures r == CrossDevice ==> device(src) != device(dst) && src in files
      ensures r == RenameFailed ==> faulty || src !in old(files)
    {
      if src !in files {
        return RenameFailed;
      }
      if device(src) != device(dst) {
        return CrossDevice;
      }
      var fails: bool := *;
      if fails {
        faulty := true;
        return RenameFailed;
      }
      files := files[dst := files[src]] - {src};
      r := Renamed;
    }

    /** `copyFile`: a failure leaves the destination as it was, or holding a prefix of the source. */
    method Copy(src: Path, dst: Path) returns (ok: bool)
      requires src != dst
      modifies this
      ensures old(faulty) ==> faulty
      ensures ok ==> src in old(files) && files == old(files)[dst := old(files)[src]]
      ensures !ok ==> files == old(files) || PartialCopy(old(files), files, src, dst)
      ensures !ok ==> faulty || src !in old(files)
    {
      if src !in files {
        return false;
      }
      ok := *;
      var readable: bool := *;
      if !ok {
        faulty := true;
        if !readable {
          return false;
        }
      }
      var written: int := *;
      var whole := |files[src]|;
      if ok || !(0 <= written <= whole) {
        written := whole;
      }
      ghost var before := files;
      files := files[dst := files[src][..written]];
      assert written == whole ==> before[src][..written] == before[src];
    }

    /** `os.Remove`: may fail, silently for most callers. */
    method Remove(path: Path) returns (ok: bool)
      modifies this
      ensures old(faulty) ==> faulty
      ensures files == if ok then old(files) - {path} else old(files)
      ensures !ok ==> faulty
    {
      ok := *;
      if ok {
        files := files - {path};
      } else {
        faulty := true;
      }
    }

    /** `os.RemoveAll`: a failure may leave any part of the tree behind. */
    method RemoveAll(dir: Path) returns (ok: bool)
      modifies this
      ensures old(faulty) ==> faulty
      ensures ClearedUnder(old(files), files, dir)
      ensures ok ==> forall p :: p in files ==> !Under(p, dir)
      ensures !ok ==> faulty
    {
      ok := *;
      if !ok {
        faulty := true;
      }
      var spared: set<Path> := *;
      files := map p | p in files && (!Under(p, dir) || (!ok && p in spared)) :: files[p];
    }

    /** `os.MkdirAll`: directories carry no content, only the possible failure matters. */
    method MkdirAll(dir: Path) returns (ok: bool)
      modifies this`faulty
      ensures old(faulty) ==> faulty
      ensures !ok ==> faulty
    {
      ok := *;
      if !ok {
        faulty := true;
      }
    }

    /** Whether `filepath.WalkDir` gets through the tree below `root`. */
    method Walk(root: Path) returns (ok: bool)
      modifies this`faulty
      ensures old(faulty) ==> faulty
      ensures !ok ==> faulty
    {
      ok := *;
      if !ok {
        faulty := true;
      }
    }
  }

  ghost predicate PartialCopy(f: Files, f': Files, src: Path, dst: Path) {
    src in f && exists n: nat :: n <= |f[src]| && f' == f[dst := f[src][..n]]
  }

  /** `f'` is `f` after removing some files below `dir` and nothing else. */
  ghost predicate ClearedUnder(f: Files, f': Files, dir: Path) {
    && (forall p :: p in f' ==> p in f && f'[p] == f[p])
    && (forall p :: p in f && !Under(p, dir) ==> p in f')
  }
}
