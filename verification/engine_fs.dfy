/**
 * The slicing engine's in-memory file system, as far as the worker uses it:
 * `mkdir`, `rmdir`, `writeFile`, `unlink` and `readFile`, each of which
 * throws on failure. The engine is not part of this model; its file system is
 * specified here as a value with one level of directories under the root
 * (the root being the working directory, where `Model.stl` lives).
 *
 * Whether `mkdir` of an existing directory throws (`EEXIST`, as in an
 * Emscripten build) or is accepted is left open as `lenientMkdir`.
 */
module EngineFs {
  import opened Common

  /** The root ("/", the working directory) or a directory directly under it. */
  datatype Dir = Root | Sub(name: string)

  datatype Path = Path(dir: Dir, name: string)

  /** Directories under the root, and file contents by path. */
  datatype Fs = Fs(dirs: set<string>, files: map<Path, seq<Byte>>)

  datatype FsError = AlreadyExists | NoSuchEntry | IsADirectory | NotEmpty

  predicate DirExists(fs: Fs, d: Dir)
  {
    d.Root? || d.name in fs.dirs
  }

  /** Every file sits in an existing directory, and no root file shares a directory's name. */
  ghost predicate Valid(fs: Fs)
  {
    forall p :: p in fs.files ==> DirExists(fs, p.dir) && !(p.dir.Root? && p.name in fs.dirs)
  }

  function Mkdir(fs: Fs, name: string, lenientMkdir: bool): Result<Fs, FsError>
  {
    if Path(Root, name) in fs.files then Err(AlreadyExists)
    else if name in fs.dirs then (if lenientMkdir then Ok(fs) else Err(AlreadyExists))
    else Ok(fs.(dirs := fs.dirs + {name}))
  }

  function Rmdir(fs: Fs, name: string): Result<Fs, FsError>
  {
    if name !in fs.dirs then Err(NoSuchEntry)
    else if exists p :: p in fs.files && p.dir == Sub(name) then Err(NotEmpty)
    else Ok(fs.(dirs := fs.dirs - {name}))
  }

  function WriteFile(fs: Fs, p: Path, data: seq<Byte>): Result<Fs, FsError>
  {
    match p.dir
    case Sub(d) => if d in fs.dirs then Ok(fs.(files := fs.files[p := data])) else Err(NoSuchEntry)
    case Root => if p.name in fs.dirs then Err(IsADirectory) else Ok(fs.(files := fs.files[p := data]))
  }

  function Unlink(fs: Fs, p: Path): Result<Fs, FsError>
  {
    if p !in fs.files then Err(NoSuchEntry) else Ok(fs.(files := fs.files - {p}))
  }

  function ReadFile(fs: Fs, p: Path): Result<seq<Byte>, FsError>
  {
    if p in fs.files then Ok(fs.files[p]) else Err(NoSuchEntry)
  }

  // Each operation keeps the file system well formed.

  lemma MkdirValid(fs: Fs, name: string, lenientMkdir: bool)
    requires Valid(fs) && Mkdir(fs, name, lenientMkdir).Ok?
    ensures Valid(Mkdir(fs, name, lenientMkdir).value)
  {
  }

  lemma RmdirValid(fs: Fs, name: string)
    requires Valid(fs) && Rmdir(fs, name).Ok?
    ensures Valid(Rmdir(fs, name).value)
  {
  }

  lemma WriteFileValid(fs: Fs, p: Path, data: seq<Byte>)
    requires Valid(fs) && WriteFile(fs, p, data).Ok?
    ensures Valid(WriteFile(fs, p, data).value)
  {
  }

  lemma UnlinkValid(fs: Fs, p: Path)
    requires Valid(fs) && Unlink(fs, p).Ok?
    ensures Valid(Unlink(fs, p).value)
  {
  }

  /** Removing a directory that was just added, and is still empty, restores the file system. */
  lemma RmdirUndoesNewDir(fs: Fs, name: string)
    requires Valid(fs) && name !in fs.dirs
    ensures Rmdir(fs.(dirs := fs.dirs + {name}), name) == Ok(fs)
  {
    assert (fs.dirs + {name}) - {name} == fs.dirs;
  }

  /** Writing into an existing directory below the root always succeeds. */
  lemma WriteFileInDir(fs: Fs, p: Path, data: seq<Byte>)
    requires p.dir.Sub? && p.dir.name in fs.dirs
    ensures WriteFile(fs, p, data) == Ok(fs.(files := fs.files[p := data]))
  {
  }

  /** The file map after writing `writes` in order, each replacing earlier contents. */
  function Written(files: map<Path, seq<Byte>>, writes: seq<(Path, seq<Byte>)>): map<Path, seq<Byte>>
  {
    if |writes| == 0 then files
    else Written(files, writes[..|writes| - 1])[writes[|writes| - 1].0 := writes[|writes| - 1].1]
  }

  function PathsOf(writes: seq<(Path, seq<Byte>)>): seq<Path>
  {
    seq(|writes|, i requires 0 <= i < |writes| => writes[i].0)
  }

  /** The file system after a sequence of operations, and the error that stopped it, if any. */
  datatype Attempt = Attempt(fs: Fs, failure: Option<FsError>)

  /** Unlinking `paths` in order; the first missing path stops it with an error. */
  function UnlinkAll(fs: Fs, paths: seq<Path>): Attempt
  {
    if |paths| == 0 then Attempt(fs, None)
    else
      var a := UnlinkAll(fs, paths[..|paths| - 1]);
      if a.failure.Some? then a
      else match Unlink(a.fs, paths[|paths| - 1])
        case Err(e) => Attempt(a.fs, Some(e))
        case Ok(f) => Attempt(f, None)
  }

  predicate Distinct<T(==)>(s: seq<T>)
  {
    forall i, j :: 0 <= i < j < |s| ==> s[i] != s[j]
  }

  /** Writing adds exactly the written paths to the map's keys. */
  lemma {:induction false} WrittenKeys(files: map<Path, seq<Byte>>, writes: seq<(Path, seq<Byte>)>)
    ensures Written(files, writes).Keys == files.Keys + set w | w in writes :: w.0
  {
    if |writes| > 0 {
      var init := writes[..|writes| - 1];
      var last := writes[|writes| - 1];
      assert writes == init + [last];
      WrittenKeys(files, init);
      assert (set w | w in writes :: w.0) == (set w | w in init :: w.0) + {last.0};
    }
  }

  /** Writing adds exactly the written paths; removing them again gives back the untouched map. */
  lemma {:induction false} WrittenThenRemoved(files: map<Path, seq<Byte>>, writes: seq<(Path, seq<Byte>)>)
    requires forall w :: w in writes ==> w.0 !in files
    ensures Written(files, writes).Keys == files.Keys + set w | w in writes :: w.0
    ensures Written(files, writes) - (set w | w in writes :: w.0) == files
  {
    if |writes| > 0 {
      var init := writes[..|writes| - 1];
      var last := writes[|writes| - 1];
      assert writes == init + [last];
      WrittenThenRemoved(files, init);
      assert (set w | w in writes :: w.0) == (set w | w in init :: w.0) + {last.0};
    }
  }

  /** Writing `a + b` is writing `a`, then `b`. */
  lemma {:induction false} WrittenAppend(files: map<Path, seq<Byte>>, a: seq<(Path, seq<Byte>)>, b: seq<(Path, seq<Byte>)>)
    ensures Written(files, a + b) == Written(Written(files, a), b)
  {
    if |b| == 0 {
      assert a + b == a;
    } else {
      var init := b[..|b| - 1];
      assert (a + b)[..|a + b| - 1] == a + init;
      assert (a + b)[|a + b| - 1] == b[|b| - 1];
      WrittenAppend(files, a, init);
    }
  }

  /** One more write, as a loop performs it. */
  lemma WrittenStep(files: map<Path, seq<Byte>>, writes: seq<(Path, seq<Byte>)>, k: nat)
    requires k < |writes|
    ensures Written(files, writes[..k + 1]) == Written(files, writes[..k])[writes[k].0 := writes[k].1]
  {
    assert writes[..k + 1][..k] == writes[..k];
  }

  /** One more unlink, as a loop performs it. */
  lemma UnlinkAllStep(fs: Fs, paths: seq<Path>, k: nat)
    requires k < |paths| && UnlinkAll(fs, paths[..k]).failure.None?
    ensures var a := UnlinkAll(fs, paths[..k]);
            UnlinkAll(fs, paths[..k + 1]) == match Unlink(a.fs, paths[k])
                                               case Err(e) => Attempt(a.fs, Some(e))
                                               case Ok(f) => Attempt(f, None)
  {
    assert paths[..k + 1][..k] == paths[..k];
  }

  /** Once a prefix of the unlinks has failed, nothing further happens. */
  lemma {:induction false} UnlinkAllStops(fs: Fs, paths: seq<Path>, k: nat)
    requires k <= |paths| && UnlinkAll(fs, paths[..k]).failure.Some?
    ensures UnlinkAll(fs, paths) == UnlinkAll(fs, paths[..k])
    decreases |paths| - k
  {
    if k < |paths| {
      assert paths[..k + 1][..k] == paths[..k];
      UnlinkAllStops(fs, paths, k + 1);
    } else {
      assert paths[..k] == paths;
    }
  }

  /** Unlinking `a + b` is unlinking `a`, then `b` unless `a` already failed. */
  lemma {:induction false} UnlinkAllAppend(fs: Fs, a: seq<Path>, b: seq<Path>)
    ensures UnlinkAll(fs, a + b) == (var x := UnlinkAll(fs, a); if x.failure.Some? then x else UnlinkAll(x.fs, b))
  {
    if |b| == 0 {
      assert a + b == a;
    } else {
      var init := b[..|b| - 1];
      assert (a + b)[..|a + b| - 1] == a + init;
      assert (a + b)[|a + b| - 1] == b[|b| - 1];
      UnlinkAllAppend(fs, a, init);
    }
  }

  /** A run of unlinks keeps the file system well formed, however it ends. */
  lemma {:induction false} UnlinkAllValid(fs: Fs, paths: seq<Path>)
    requires Valid(fs)
    ensures Valid(UnlinkAll(fs, paths).fs)
  {
    if |paths| > 0 {
      var a := UnlinkAll(fs, paths[..|paths| - 1]);
      UnlinkAllValid(fs, paths[..|paths| - 1]);
      if a.failure.None? && Unlink(a.fs, paths[|paths| - 1]).Ok? {
        UnlinkValid(a.fs, paths[|paths| - 1]);
      }
    }
  }

  /**
   * A run of unlinks never touches a directory and never adds a file; when
   * it succeeds it has removed exactly the unlinked paths.
   */
  lemma {:induction false} UnlinkAllEffect(fs: Fs, paths: seq<Path>)
    ensures var a := UnlinkAll(fs, paths);
            && a.fs.dirs == fs.dirs
            && a.fs.files.Keys <= fs.files.Keys
            && (a.failure.None? ==> a.fs.files == fs.files - set p | p in paths)
  {
    if |paths| == 0 {
      assert fs.files - (set p | p in paths) == fs.files;
    } else {
      var init, last := paths[..|paths| - 1], paths[|paths| - 1];
      assert paths == init + [last];
      UnlinkAllEffect(fs, init);
      var a := UnlinkAll(fs, init);
      if a.failure.None? && Unlink(a.fs, last).Ok? {
        assert (set p | p in paths) == (set p | p in init) + {last};
        assert (fs.files - (set p | p in init)) - {last} == fs.files - (set p | p in paths);
      }
    }
  }

  /** Unlinking distinct present paths removes exactly those paths. */
  lemma {:induction false} UnlinkAllPresent(fs: Fs, paths: seq<Path>)
    requires Distinct(paths)
    requires forall p :: p in paths ==> p in fs.files
    ensures UnlinkAll(fs, paths) == Attempt(fs.(files := fs.files - set p | p in paths), None)
  {
    if |paths| > 0 {
      var init := paths[..|paths| - 1];
      var last := paths[|paths| - 1];
      assert paths == init + [last];
      UnlinkAllPresent(fs, init);
      assert last !in init;
      assert (set p | p in paths) == (set p | p in init) + {last};
      assert (fs.files - (set p | p in init)) - {last} == fs.files - (set p | p in paths);
    } else {
      assert fs.files - (set p | p in paths) == fs.files;
    }
  }
}
