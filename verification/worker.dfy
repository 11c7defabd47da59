/**
 * The worker-side engine session, `CuraWorkerService`: it owns the engine
 * handle and the number of extruder definitions it staged, copies printer
 * definitions into the engine's file system and removes them again, and runs
 * one slice: convert the upload to STL, write `Model.stl`, call the engine,
 * read back `Model.gcode` and delete both files, reporting the engine's
 * progress in hundredths without repeats.
 */
module Worker {
  import opened Common
  import opened EngineFs
  import MeshFile

  const DefinitionsDir: string := "definitions"
  const ModelStl: Path := Path(Root, "Model.stl")
  const ModelGcode: Path := Path(Root, "Model.gcode")

  // ---------------------------------------------------------------------
  // Definition files
  // ---------------------------------------------------------------------

  /** One entry of the built-in definition table: its key and its serialised document. */
  datatype Builtin = Builtin(key: string, json: Json)

  /** The three kinds of file staged under `/definitions`. */
  datatype DefinitionFile = Primary(key: string) | PrinterFile | ExtruderFile(index: nat)

  function Digit(d: nat): (c: char)
    requires d < 10
    ensures '0' <= c <= '9'
  {
    (48 + d) as char
  }

  /** A natural number as JavaScript renders it inside a template literal. */
  function Decimal(n: nat): string
  {
    if n < 10 then [Digit(n)] else Decimal(n / 10) + [Digit(n % 10)]
  }

  /** Exactly the numbers below 10 render as one digit. */
  lemma {:induction false} DecimalLength(n: nat)
    ensures 1 <= |Decimal(n)| && (n < 10 <==> |Decimal(n)| == 1)
  {
    if n >= 10 {
      DecimalLength(n / 10);
    }
  }

  /** Different numbers render differently, so extruder file names never collide. */
  lemma {:induction false} DecimalInjective(m: nat, n: nat)
    requires Decimal(m) == Decimal(n)
    ensures m == n
  {
    DecimalLength(m);
    DecimalLength(n);
    if m >= 10 && n >= 10 {
      var s := Decimal(m);
      assert Decimal(m / 10) == s[..|s| - 1];
      assert Decimal(n / 10) == s[..|s| - 1];
      DecimalInjective(m / 10, n / 10);
      assert Digit(m % 10) == s[|s| - 1] == Digit(n % 10);
    } else if m < 10 && n < 10 {
      assert Digit(m) == Decimal(m)[0] == Digit(n);
    }
  }

  /** The file name without its `.def.json` suffix. */
  function Stem(d: DefinitionFile): string
  {
    match d
    case Primary(key) => key
    case PrinterFile => "printer"
    case ExtruderFile(i) => "extruder-" + Decimal(i)
  }

  function FileName(d: DefinitionFile): string
  {
    Stem(d) + ".def.json"
  }

  function DefinitionPath(d: DefinitionFile): Path
  {
    Path(Sub(DefinitionsDir), FileName(d))
  }

  /** A built-in key whose file cannot clash with the printer or an extruder file. */
  predicate WellFormedKey(key: string)
  {
    key != "printer" && !(|key| >= 9 && key[..9] == "extruder-")
  }

  /** Built-in keys are object keys (so distinct) and well formed. */
  predicate WellFormedTable(table: seq<Builtin>)
  {
    && (forall i :: 0 <= i < |table| ==> WellFormedKey(table[i].key))
    && (forall i, j :: 0 <= i < j < |table| ==> table[i].key != table[j].key)
  }

  /** Distinct definition files have distinct paths, given well-formed built-in keys. */
  lemma FileNameInjective(a: DefinitionFile, b: DefinitionFile)
    requires a.Primary? ==> WellFormedKey(a.key)
    requires b.Primary? ==> WellFormedKey(b.key)
    requires FileName(a) == FileName(b)
    ensures a == b
  {
    var x, y := FileName(a), FileName(b);
    assert Stem(a) == x[..|x| - 9];
    assert Stem(b) == y[..|y| - 9];
    if a.ExtruderFile? && b.ExtruderFile? {
      assert Decimal(a.index) == Stem(a)[9..] == Stem(b)[9..] == Decimal(b.index);
      DecimalInjective(a.index, b.index);
    }
  }

  /**
   * The `k`-th definition file in staging order: the built-ins in table
   * order, then the printer, then the extruders by index.
   */
  function StagedFile(table: seq<Builtin>, k: nat): DefinitionFile
  {
    if k < |table| then Primary(table[k].key)
    else if k == |table| then PrinterFile
    else ExtruderFile(k - |table| - 1)
  }

  /** The built-in documents paired with their files, in table order. */
  function BuiltinWrites(table: seq<Builtin>): seq<(Path, Json)>
  {
    seq(|table|, k requires 0 <= k < |table| => (DefinitionPath(Primary(table[k].key)), table[k].json))
  }

  /** The extruder documents paired with their files, by index. */
  function ExtruderWrites(extruders: seq<Json>): seq<(Path, Json)>
  {
    seq(|extruders|, j requires 0 <= j < |extruders| => (DefinitionPath(ExtruderFile(j)), extruders[j]))
  }

  /**
   * The writes `addDefinitions` performs, in order: every write goes below
   * `/definitions`, and the `k`-th to the `k`-th file in staging order.
   */
  function StagingWrites(table: seq<Builtin>, definition: CombinedDefinition): (w: seq<(Path, Json)>)
    ensures |w| == |table| + 1 + |definition.extruders|
    ensures forall k :: 0 <= k < |w| ==> w[k].0 == DefinitionPath(StagedFile(table, k))
    ensures forall x :: x in w ==> x.0.dir == Sub(DefinitionsDir)
  {
    BuiltinWrites(table) + [(DefinitionPath(PrinterFile), definition.printer)] + ExtruderWrites(definition.extruders)
  }

  /** The file map once every staging write has been performed. */
  function StagedFiles(files: map<Path, seq<Byte>>, table: seq<Builtin>, definition: CombinedDefinition): map<Path, seq<Byte>>
  {
    Written(files, StagingWrites(table, definition))
  }

  /** The file map after the built-in loop's first `i` writes. */
  function BuiltinsWritten(files: map<Path, seq<Byte>>, table: seq<Builtin>, i: nat): map<Path, seq<Byte>>
    requires i <= |table|
  {
    if i == 0 then files
    else BuiltinsWritten(files, table, i - 1)[DefinitionPath(Primary(table[i - 1].key)) := table[i - 1].json]
  }

  /** The file map after the extruder loop's first `j` writes. */
  function ExtrudersWritten(files: map<Path, seq<Byte>>, extruders: seq<Json>, j: nat): map<Path, seq<Byte>>
    requires j <= |extruders|
  {
    if j == 0 then files
    else ExtrudersWritten(files, extruders, j - 1)[DefinitionPath(ExtruderFile(j - 1)) := extruders[j - 1]]
  }

  /** The built-in loop performs the built-in writes in order. */
  lemma {:induction false} BuiltinsWrittenIsWritten(files: map<Path, seq<Byte>>, table: seq<Builtin>, i: nat)
    requires i <= |table|
    ensures BuiltinsWritten(files, table, i) == Written(files, BuiltinWrites(table)[..i])
  {
    if i > 0 {
      BuiltinsWrittenIsWritten(files, table, i - 1);
      WrittenStep(files, BuiltinWrites(table), i - 1);
    }
  }

  /** The extruder loop performs the extruder writes in order. */
  lemma {:induction false} ExtrudersWrittenIsWritten(files: map<Path, seq<Byte>>, extruders: seq<Json>, j: nat)
    requires j <= |extruders|
    ensures ExtrudersWritten(files, extruders, j) == Written(files, ExtruderWrites(extruders)[..j])
  {
    if j > 0 {
      ExtrudersWrittenIsWritten(files, extruders, j - 1);
      WrittenStep(files, ExtruderWrites(extruders), j - 1);
    }
  }

  /** The built-in loop, the printer write and the extruder loop together perform every staging write. */
  lemma StagedFilesInPhases(files: map<Path, seq<Byte>>, table: seq<Builtin>, definition: CombinedDefinition)
    ensures StagedFiles(files, table, definition)
            == ExtrudersWritten(BuiltinsWritten(files, table, |table|)[DefinitionPath(PrinterFile) := definition.printer],
                                definition.extruders, |definition.extruders|)
  {
    var builtins, printer := BuiltinWrites(table), [(DefinitionPath(PrinterFile), definition.printer)];
    var extruders := ExtruderWrites(definition.extruders);
    WrittenAppend(files, builtins + printer, extruders);
    WrittenAppend(files, builtins, printer);
    BuiltinsWrittenIsWritten(files, table, |table|);
    assert builtins[..|table|] == builtins;
    ExtrudersWrittenIsWritten(Written(files, builtins + printer), definition.extruders, |definition.extruders|);
    assert extruders[..|definition.extruders|] == extruders;
    assert printer[..0] == [];
  }

  /** The paths `removeDefinitions` unlinks, in order, for a stored extruder count. */
  function RemovalPaths(table: seq<Builtin>, extruderCount: nat): (p: seq<Path>)
    ensures |p| == |table| + 1 + extruderCount
    ensures forall k :: 0 <= k < |p| ==> p[k] == DefinitionPath(StagedFile(table, k))
  {
    BuiltinPaths(table) + [DefinitionPath(PrinterFile)] + ExtruderPaths(extruderCount)
  }

  /** The built-in definition files, in table order. */
  function BuiltinPaths(table: seq<Builtin>): seq<Path>
  {
    seq(|table|, k requires 0 <= k < |table| => DefinitionPath(Primary(table[k].key)))
  }

  /** The files of extruders 0 .. extruderCount - 1. */
  function ExtruderPaths(extruderCount: nat): seq<Path>
  {
    seq(extruderCount, j requires 0 <= j < extruderCount => DefinitionPath(ExtruderFile(j)))
  }

  /** Removal visits exactly the paths staging wrote, in the same order. */
  lemma RemovalMatchesStaging(table: seq<Builtin>, definition: CombinedDefinition)
    ensures PathsOf(StagingWrites(table, definition)) == RemovalPaths(table, |definition.extruders|)
  {
  }

  /** No path is staged twice, so no staged file overwrites another. */
  lemma RemovalPathsDistinct(table: seq<Builtin>, extruderCount: nat)
    requires WellFormedTable(table)
    ensures Distinct(RemovalPaths(table, extruderCount))
  {
    var p := RemovalPaths(table, extruderCount);
    forall i, j | 0 <= i < j < |p| ensures p[i] != p[j] {
      var a, b := StagedFile(table, i), StagedFile(table, j);
      if p[i] == p[j] {
        FileNameInjective(a, b);
      }
    }
  }

  // ---------------------------------------------------------------------
  // Staging and unstaging, as file-system values
  // ---------------------------------------------------------------------

  /** The file system with `/definitions` present and every staged file written. */
  function Staged(fs: Fs, table: seq<Builtin>, definition: CombinedDefinition): Fs
  {
    fs.(dirs := fs.dirs + {DefinitionsDir}, files := StagedFiles(fs.files, table, definition))
  }

  /**
   * `addDefinitions` as written: `mkdir('/definitions')` twice, then the
   * writes. When `mkdir` rejects an existing directory, the second call
   * always fails, after the directory was created and before any file is
   * written.
   */
  function AddAsWritten(fs: Fs, lenientMkdir: bool, table: seq<Builtin>, definition: CombinedDefinition): (a: Attempt)
    ensures !lenientMkdir ==> a.failure == Some(AlreadyExists) && a.fs.files == fs.files
    ensures !lenientMkdir && Mkdir(fs, DefinitionsDir, false).Ok? ==> a.fs.dirs == fs.dirs + {DefinitionsDir}
    ensures lenientMkdir && Path(Root, DefinitionsDir) !in fs.files ==> a == Attempt(Staged(fs, table, definition), None)
  {
    match Mkdir(fs, DefinitionsDir, lenientMkdir)
    case Err(e) => Attempt(fs, Some(e))
    case Ok(fs1) =>
      match Mkdir(fs1, DefinitionsDir, lenientMkdir)
      case Err(e) => Attempt(fs1, Some(e))
      case Ok(fs2) => Attempt(fs2.(files := StagedFiles(fs2.files, table, definition)), None)
  }

  /** `addDefinitions` with a single `mkdir`, as evidently intended. */
  function AddOnce(fs: Fs, lenientMkdir: bool, table: seq<Builtin>, definition: CombinedDefinition): (a: Attempt)
    ensures a.failure.None? <==> Mkdir(fs, DefinitionsDir, lenientMkdir).Ok?
    ensures a.failure.Some? ==> a.fs == fs
    ensures a.failure.None? ==> a.fs == Staged(fs, table, definition)
  {
    match Mkdir(fs, DefinitionsDir, lenientMkdir)
    case Err(e) => Attempt(fs, Some(e))
    case Ok(fs1) =>
      assert fs1.dirs == fs.dirs + {DefinitionsDir};
      Attempt(fs1.(files := StagedFiles(fs1.files, table, definition)), None)
  }

  /** `removeDefinitions`: unlink every staged path, then remove the directory. */
  function Unstage(fs: Fs, table: seq<Builtin>, extruderCount: nat): (a: Attempt)
    // removal never creates a file, and a failed removal keeps every directory
    ensures a.fs.files.Keys <= fs.files.Keys
    ensures a.failure.Some? ==> a.fs.dirs == fs.dirs
    // a successful one removes exactly the staged paths and /definitions
    ensures a.failure.None? ==>
              a.fs == fs.(dirs := fs.dirs - {DefinitionsDir},
                          files := fs.files - set p | p in RemovalPaths(table, extruderCount))
  {
    UnlinkAllEffect(fs, RemovalPaths(table, extruderCount));
    var u := UnlinkAll(fs, RemovalPaths(table, extruderCount));
    if u.failure.Some? then u
    else match Rmdir(u.fs, DefinitionsDir)
      case Err(e) => Attempt(u.fs, Some(e))
      case Ok(f) => Attempt(f, None)
  }

  /** `Unstage` as the three loops of `removeDefinitions` and the final `rmdir` perform it. */
  lemma UnstageInPhases(fs: Fs, table: seq<Builtin>, extruderCount: nat)
    ensures Unstage(fs, table, extruderCount)
            == var b := UnlinkAll(fs, BuiltinPaths(table));
               if b.failure.Some? then b
               else match Unlink(b.fs, DefinitionPath(PrinterFile))
                 case Err(e) => Attempt(b.fs, Some(e))
                 case Ok(f) =>
                   var x := UnlinkAll(f, ExtruderPaths(extruderCount));
                   if x.failure.Some? then x
                   else match Rmdir(x.fs, DefinitionsDir)
                     case Err(e) => Attempt(x.fs, Some(e))
                     case Ok(g) => Attempt(g, None)
  {
    var builtins, printer := BuiltinPaths(table), [DefinitionPath(PrinterFile)];
    UnlinkAllAppend(fs, builtins + printer, ExtruderPaths(extruderCount));
    UnlinkAllAppend(fs, builtins, printer);
    var b := UnlinkAll(fs, builtins);
    assert printer[..0] == [];
    assert UnlinkAll(b.fs, printer) == match Unlink(b.fs, DefinitionPath(PrinterFile))
                                        case Err(e) => Attempt(b.fs, Some(e))
                                        case Ok(f) => Attempt(f, None);
  }

  /** Staging keeps the file system well formed. */
  lemma StagedValid(fs: Fs, table: seq<Builtin>, definition: CombinedDefinition)
    requires Valid(fs) && Path(Root, DefinitionsDir) !in fs.files
    ensures Valid(Staged(fs, table, definition))
  {
    var w := StagingWrites(table, definition);
    WrittenKeys(fs.files, w);
    var staged := Staged(fs, table, definition);
    forall p | p in staged.files
      ensures DirExists(staged, p.dir) && !(p.dir.Root? && p.name in staged.dirs)
    {
      if p !in fs.files {
        var x :| x in w && x.0 == p;
      }
    }
  }

  /**
   * Staging and unstaging are symmetric: removing what was staged, with the
   * extruder count staging stored, gives back the file system staging
   * started from, provided `/definitions` did not exist before.
   */
  lemma StageThenUnstage(fs: Fs, table: seq<Builtin>, definition: CombinedDefinition)
    requires Valid(fs) && WellFormedTable(table) && DefinitionsDir !in fs.dirs
    ensures Unstage(Staged(fs, table, definition), table, |definition.extruders|) == Attempt(fs, None)
  {
    var w := StagingWrites(table, definition);
    var p := RemovalPaths(table, |definition.extruders|);
    var staged := Staged(fs, table, definition);
    StagedPaths(table, definition);
    assert forall x :: x in w ==> x.0 !in fs.files;
    WrittenThenRemoved(fs.files, w);
    RemovalPathsDistinct(table, |definition.extruders|);
    UnlinkAllPresent(staged, p);
    var emptied := fs.(dirs := fs.dirs + {DefinitionsDir});
    assert UnlinkAll(staged, p) == Attempt(emptied, None);
    RmdirUndoesNewDir(fs, DefinitionsDir);
  }

  /** The set of staged paths is the set of removal paths. */
  lemma StagedPaths(table: seq<Builtin>, definition: CombinedDefinition)
    ensures (set x | x in StagingWrites(table, definition) :: x.0)
            == (set q | q in RemovalPaths(table, |definition.extruders|))
  {
    var w := StagingWrites(table, definition);
    var p := RemovalPaths(table, |definition.extruders|);
    forall q | q in p ensures q in (set x | x in w :: x.0) {
      var k :| 0 <= k < |p| && p[k] == q;
      assert w[k] in w;
    }
    forall x | x in w ensures x.0 in p {
      var k :| 0 <= k < |w| && w[k] == x;
      assert p[k] == x.0;
    }
  }

  /** With a lenient `mkdir`, add-then-remove as written restores the prior file system. */
  lemma LenientAddThenRemove(fs: Fs, table: seq<Builtin>, definition: CombinedDefinition)
    requires Valid(fs) && WellFormedTable(table)
    requires DefinitionsDir !in fs.dirs && Path(Root, DefinitionsDir) !in fs.files
    ensures AddAsWritten(fs, true, table, definition).failure.None?
    ensures Unstage(AddAsWritten(fs, true, table, definition).fs, table, |definition.extruders|) == Attempt(fs, None)
  {
    StageThenUnstage(fs, table, definition);
  }

  /** The single-`mkdir` version succeeds under either `mkdir`, and removal undoes it. */
  lemma AddOnceThenRemove(fs: Fs, lenientMkdir: bool, table: seq<Builtin>, definition: CombinedDefinition)
    requires Valid(fs) && WellFormedTable(table)
    requires DefinitionsDir !in fs.dirs && Path(Root, DefinitionsDir) !in fs.files
    ensures AddOnce(fs, lenientMkdir, table, definition).failure.None?
    ensures Unstage(AddOnce(fs, lenientMkdir, table, definition).fs, table, |definition.extruders|) == Attempt(fs, None)
  {
    StageThenUnstage(fs, table, definition);
  }

  // ---------------------------------------------------------------------
  // Slicer progress
  // ---------------------------------------------------------------------

  /** `Math.round(100 * p)`, i.e. `p` rounded to hundredths, counted in hundredths. */
  function Round100(p: real): (r: int)
    // the integer nearest to 100 * p, halves rounded up
    ensures (r as real) - 0.5 <= 100.0 * p < (r as real) + 0.5
  {
    (100.0 * p + 0.5).Floor
  }

  /** The progress events emitted so far and the closure's `previousSlicerProgress`. */
  datatype Emission = Emission(emitted: seq<int>, previous: int)

  /** What `updateProgress` emits for the engine's progress reports `samples`, in hundredths. */
  function SlicerProgress(samples: seq<real>): (e: Emission)
    ensures |e.emitted| <= |samples|
  {
    if |samples| == 0 then Emission([], 0)
    else
      var e := SlicerProgress(samples[..|samples| - 1]);
      var v := Round100(samples[|samples| - 1]);
      if v != e.previous then Emission(e.emitted + [v], v) else e
  }

  /**
   * The remembered value is the last one emitted (0 before any), and after
   * at least one report it is that report, rounded.
   */
  lemma {:induction false} ProgressRemembersLast(samples: seq<real>)
    ensures var e := SlicerProgress(samples);
            && e.previous == (if |e.emitted| == 0 then 0 else e.emitted[|e.emitted| - 1])
            && (|samples| > 0 ==> e.previous == Round100(samples[|samples| - 1]))
  {
    if |samples| > 0 {
      ProgressRemembersLast(samples[..|samples| - 1]);
    }
  }

  /** No two adjacent emitted values are equal, and the first is never 0. */
  lemma {:induction false} ProgressNoRepeats(samples: seq<real>)
    ensures var e := SlicerProgress(samples).emitted;
            && (forall j :: 0 <= j < |e| - 1 ==> e[j] != e[j + 1])
            && (|e| > 0 ==> e[0] != 0)
  {
    if |samples| > 0 {
      var init := samples[..|samples| - 1];
      ProgressNoRepeats(init);
      ProgressRemembersLast(init);
    }
  }

  /** Every emitted value is some report rounded to hundredths, and there are no more events than reports. */
  lemma {:induction false} ProgressEmitsRoundedReports(samples: seq<real>)
    ensures var e := SlicerProgress(samples).emitted;
            && |e| <= |samples|
            && forall j :: 0 <= j < |e| ==> exists k :: 0 <= k < |samples| && e[j] == Round100(samples[k])
  {
    if |samples| > 0 {
      var init := samples[..|samples| - 1];
      ProgressEmitsRoundedReports(init);
      var e := SlicerProgress(samples).emitted;
      forall j | 0 <= j < |e| ensures exists k :: 0 <= k < |samples| && e[j] == Round100(samples[k]) {
        if j < |SlicerProgress(init).emitted| {
          var k :| 0 <= k < |init| && SlicerProgress(init).emitted[j] == Round100(init[k]);
          assert samples[k] == init[k];
        } else {
          assert e[j] == Round100(samples[|samples| - 1]);
        }
      }
    }
  }

  /** Emitted progress can go down: reports 0.5 then 0.2 emit 50 then 20. */
  lemma ProgressNotMonotone()
    ensures SlicerProgress([0.5, 0.2]).emitted == [50, 20]
  {
    assert [0.5, 0.2][..1] == [0.5];
    assert [0.5][..0] == [];
  }

  // ---------------------------------------------------------------------
  // Command splitting
  // ---------------------------------------------------------------------

  /** `s.split(separator)` for a one-character separator. */
  function Split(s: string, separator: char): (parts: seq<string>)
    ensures |parts| >= 1
    ensures forall i :: 0 <= i < |parts| ==> separator !in parts[i]
  {
    if s == [] then [[]]
    else
      var rest := Split(s[1..], separator);
      if s[0] == separator then [[]] + rest
      else [[s[0]] + rest[0]] + rest[1..]
  }

  /** `parts.join(separator)`. */
  function Join(parts: seq<string>, separator: char): string
    requires |parts| >= 1
  {
    if |parts| == 1 then parts[0] else parts[0] + [separator] + Join(parts[1..], separator)
  }

  /** Splitting loses nothing: joining the parts with the separator gives back the command. */
  lemma {:induction false} SplitJoin(s: string, separator: char)
    ensures Join(Split(s, separator), separator) == s
  {
    if s != [] {
      var rest := Split(s[1..], separator);
      SplitJoin(s[1..], separator);
      var parts := Split(s, separator);
      if s[0] == separator {
        assert parts[1..] == rest;
        assert Join(parts, separator) == [] + [separator] + Join(rest, separator);
      } else if |rest| == 1 {
        assert Join(parts, separator) == [s[0]] + rest[0];
      } else {
        assert parts[1..] == rest[1..];
        assert Join(parts, separator) == [s[0]] + rest[0] + [separator] + Join(rest[1..], separator);
        assert Join(rest, separator) == rest[0] + [separator] + Join(rest[1..], separator);
      }
    }
  }

  /**
   * The argument vector `run` hands to the engine: the command's words when
   * a command is given, otherwise what `generate` builds from the overrides.
   */
  function Arguments(command: Option<string>, overrides: Option<seq<Override>>, verbose: Option<bool>,
                     generate: (Option<seq<Override>>, Option<bool>) -> seq<string>): (args: seq<string>)
    ensures command.Some? ==> |args| >= 1 && Join(args, ' ') == command.value
                              && forall i :: 0 <= i < |args| ==> ' ' !in args[i]
    ensures command.None? ==> args == generate(overrides, verbose)
  {
    if command.None? then generate(overrides, verbose)
    else
      SplitJoin(command.value, ' ');
      Split(command.value, ' ')
  }

  // ---------------------------------------------------------------------
  // The session
  // ---------------------------------------------------------------------

  /** Why a worker method threw. */
  datatype Failure = NotInitialized | ConversionRejected | FsFailure(error: FsError) | EngineAborted

  /** A method's settled promise: resolved with a value, or rejected. */
  datatype Outcome<T> = Done(value: T) | Threw(failure: Failure)

  /**
   * What one `callMain` does, as far as the worker can observe: the progress
   * reports it makes through the installed callback, the G-code it writes
   * to `Model.gcode` (if any), and whether it throws.
   */
  datatype SlicerRun = SlicerRun(samples: seq<real>, output: Option<seq<Byte>>, aborts: bool)

  /** The file system after the engine has sliced. */
  function AfterSlicing(fs: Fs, run: SlicerRun): (r: Fs)
    ensures Valid(fs) ==> Valid(r)
    ensures r.dirs == fs.dirs
    ensures forall p :: p != ModelGcode ==> (p in r.files <==> p in fs.files)
    ensures forall p :: p != ModelGcode && p in fs.files ==> r.files[p] == fs.files[p]
  {
    if run.output.Some? && WriteFile(fs, ModelGcode, run.output.value).Ok?
    then WriteFile(fs, ModelGcode, run.output.value).value
    else fs
  }

  /**
   * Writing `Model.stl` and slicing touch only the two temporary files: the
   * STL is present afterwards, and without both files the file system is the
   * one `run` started from.
   */
  lemma SlicingKeepsOthers(fs: Fs, stl: seq<Byte>, run: SlicerRun)
    requires WriteFile(fs, ModelStl, stl).Ok?
    ensures var sliced := AfterSlicing(WriteFile(fs, ModelStl, stl).value, run);
            && ModelStl in sliced.files
            && sliced.(files := sliced.files - {ModelStl, ModelGcode}) == fs.(files := fs.files - {ModelStl, ModelGcode})
  {
    assert ModelStl.name[6] != ModelGcode.name[6];
    var sliced := AfterSlicing(WriteFile(fs, ModelStl, stl).value, run);
    assert sliced.files - {ModelStl, ModelGcode} == fs.files - {ModelStl, ModelGcode};
  }

  /** The engine instance: its file system and the argument vectors it was started with. */
  class Engine {
    var fs: Fs
    const lenientMkdir: bool
    var mainCalls: seq<seq<string>>

    constructor(initial: Fs, lenientMkdir: bool)
      ensures fs == initial && this.lenientMkdir == lenientMkdir && mainCalls == []
    {
      fs := initial;
      this.lenientMkdir := lenientMkdir;
      mainCalls := [];
    }

    /** `callMain(args)`; the progress reports of `run` are delivered by the caller. */
    method CallMain(args: seq<string>, run: SlicerRun) returns (aborted: bool)
      modifies this
      ensures mainCalls == old(mainCalls) + [args]
      ensures fs == AfterSlicing(old(fs), run)
      ensures aborted == run.aborts
    {
      mainCalls := mainCalls + [args];
      fs := AfterSlicing(fs, run);
      aborted := run.aborts;
    }
  }

  class CuraWorker {
    /** `engine`: null until `initialize`. */
    var engine: Engine?
    /** `extruderCount`: null until `addDefinitions` succeeds. */
    var extruderCount: Option<nat>
    /** Whether the global progress callback slot holds this worker's `updateProgress`. */
    var progressCallback: bool
    /** The slicer `progress` events emitted on `progressEmitter`, in hundredths. */
    var emitted: seq<int>
    /** The built-in definition table. */
    const definitions: seq<Builtin>

    ghost predicate Valid()
      reads this, engine
    {
      engine != null ==> EngineFs.Valid(engine.fs)
    }

    constructor(definitions: seq<Builtin>)
      ensures engine == null && extruderCount == None
      ensures !progressCallback && emitted == [] && this.definitions == definitions
      ensures Valid()
    {
      engine := null;
      extruderCount := None;
      progressCallback := false;
      emitted := [];
      this.definitions := definitions;
    }

    /** `initialize`: a fresh engine over the file system it starts with. */
    method Initialize(initial: Fs, lenientMkdir: bool)
      requires EngineFs.Valid(initial)
      modifies this`engine
      ensures fresh(engine)
      ensures engine.fs == initial && engine.lenientMkdir == lenientMkdir && engine.mainCalls == []
      ensures Valid()
    {
      engine := new Engine(initial, lenientMkdir);
    }

    /** The copy loops of `addDefinitions`, once `/definitions` exists. */
    method WriteDefinitionFiles(definition: CombinedDefinition)
      requires engine != null && DefinitionsDir in engine.fs.dirs
      modifies engine`fs, this`extruderCount
      ensures engine.fs == old(engine.fs).(files := StagedFiles(old(engine.fs.files), definitions, definition))
      ensures extruderCount == Some(|definition.extruders|)
    {
      ghost var fs0 := engine.fs;
      WriteBuiltinFiles();
      WriteFileInDir(engine.fs, DefinitionPath(PrinterFile), definition.printer);
      engine.fs := WriteFile(engine.fs, DefinitionPath(PrinterFile), definition.printer).value;
      WriteExtruderFiles(definition);
      StagedFilesInPhases(fs0.files, definitions, definition);
      extruderCount := Some(|definition.extruders|);
    }

    /** The loop of `addDefinitions` over the built-in definitions. */
    method WriteBuiltinFiles()
      requires engine != null && DefinitionsDir in engine.fs.dirs
      modifies engine`fs
      ensures engine.fs == old(engine.fs).(files := BuiltinsWritten(old(engine.fs.files), definitions, |definitions|))
    {
      ghost var fs0 := engine.fs;
      var i := 0;
      while i < |definitions|
        invariant 0 <= i <= |definitions|
        invariant engine.fs == fs0.(files := BuiltinsWritten(fs0.files, definitions, i))
      {
        WriteFileInDir(engine.fs, DefinitionPath(Primary(definitions[i].key)), definitions[i].json);
        engine.fs := WriteFile(engine.fs, DefinitionPath(Primary(definitions[i].key)), definitions[i].json).value;
        i := i + 1;
      }
    }

    /** The extruder loop of `addDefinitions`, after the built-ins and the printer file. */
    method WriteExtruderFiles(definition: CombinedDefinition)
      requires engine != null && DefinitionsDir in engine.fs.dirs
      modifies engine`fs
      ensures engine.fs == old(engine.fs).(files := ExtrudersWritten(old(engine.fs.files), definition.extruders, |definition.extruders|))
    {
      ghost var fs0 := engine.fs;
      var j := 0;
      while j < |definition.extruders|
        invariant 0 <= j <= |definition.extruders|
        invariant engine.fs == fs0.(files := ExtrudersWritten(fs0.files, definition.extruders, j))
      {
        WriteFileInDir(engine.fs, DefinitionPath(ExtruderFile(j)), definition.extruders[j]);
        engine.fs := WriteFile(engine.fs, DefinitionPath(ExtruderFile(j)), definition.extruders[j]).value;
        j := j + 1;
      }
    }

    /** `addDefinitions(definition)`, with its two `mkdir` calls. */
    method AddDefinitions(definition: CombinedDefinition) returns (r: Outcome<()>)
      requires Valid()
      modifies engine, this`extruderCount
      ensures Valid()
      ensures old(engine) == null ==> r == Threw(NotInitialized) && extruderCount == old(extruderCount)
      ensures old(engine) != null ==>
                var a := AddAsWritten(old(engine.fs), engine.lenientMkdir, definitions, definition);
                && engine.fs == a.fs
                && engine.mainCalls == old(engine.mainCalls)
                && (a.failure.None? ==> r == Done(()) && extruderCount == Some(|definition.extruders|))
                && (a.failure.Some? ==> r == Threw(FsFailure(a.failure.value)) && extruderCount == old(extruderCount))
    {
      if engine == null {
        return Threw(NotInitialized);
      }
      var first := Mkdir(engine.fs, DefinitionsDir, engine.lenientMkdir);
      if first.Err? {
        return Threw(FsFailure(first.error));
      }
      engine.fs := first.value;
      var second := Mkdir(engine.fs, DefinitionsDir, engine.lenientMkdir);
      if second.Err? {
        return Threw(FsFailure(second.error));
      }
      engine.fs := second.value;
      StagedValid(engine.fs, definitions, definition);
      WriteDefinitionFiles(definition);
      r := Done(());
    }

    /** `addDefinitions` with the duplicate `mkdir` removed. */
    method AddDefinitionsOnce(definition: CombinedDefinition) returns (r: Outcome<()>)
      requires Valid()
      modifies engine, this`extruderCount
      ensures Valid()
      ensures old(engine) == null ==> r == Threw(NotInitialized) && extruderCount == old(extruderCount)
      ensures old(engine) != null ==>
                var a := AddOnce(old(engine.fs), engine.lenientMkdir, definitions, definition);
                && engine.fs == a.fs
                && engine.mainCalls == old(engine.mainCalls)
                && (a.failure.None? ==> r == Done(()) && extruderCount == Some(|definition.extruders|))
                && (a.failure.Some? ==> r == Threw(FsFailure(a.failure.value)) && extruderCount == old(extruderCount))
    {
      if engine == null {
        return Threw(NotInitialized);
      }
      var created := Mkdir(engine.fs, DefinitionsDir, engine.lenientMkdir);
      if created.Err? {
        return Threw(FsFailure(created.error));
      }
      engine.fs := created.value;
      StagedValid(engine.fs, definitions, definition);
      WriteDefinitionFiles(definition);
      r := Done(());
    }

    /** `removeDefinitions()`. */
    method RemoveDefinitions() returns (r: Outcome<()>)
      requires Valid()
      modifies engine
      ensures Valid()
      ensures engine != null ==> engine.mainCalls == old(engine.mainCalls)
      // the stored count is kept, whatever happens
      ensures extruderCount == old(extruderCount)
      ensures engine == null || old(extruderCount).None? ==>
                r == Threw(NotInitialized) && (engine != null ==> engine.fs == old(engine.fs))
      ensures engine != null && extruderCount.Some? ==>
                var a := Unstage(old(engine.fs), definitions, extruderCount.value);
                && engine.fs == a.fs
                && (a.failure.None? ==> r == Done(()))
                && (a.failure.Some? ==> r == Threw(FsFailure(a.failure.value)))
    {
      if engine == null || extruderCount.None? {
        return Threw(NotInitialized);
      }
      UnstageInPhases(engine.fs, definitions, extruderCount.value);
      UnlinkAllValid(engine.fs, BuiltinPaths(definitions));
      var builtins := UnlinkBuiltins();
      if builtins.Some? {
        return Threw(FsFailure(builtins.value));
      }
      var u := Unlink(engine.fs, DefinitionPath(PrinterFile));
      if u.Err? {
        return Threw(FsFailure(u.error));
      }
      UnlinkValid(engine.fs, DefinitionPath(PrinterFile));
      engine.fs := u.value;
      UnlinkAllValid(engine.fs, ExtruderPaths(extruderCount.value));
      var extruders := UnlinkExtruders(extruderCount.value);
      if extruders.Some? {
        return Threw(FsFailure(extruders.value));
      }
      var d := Rmdir(engine.fs, DefinitionsDir);
      if d.Err? {
        return Threw(FsFailure(d.error));
      }
      RmdirValid(engine.fs, DefinitionsDir);
      engine.fs := d.value;
      r := Done(());
    }

    /** The loop of `removeDefinitions` over the built-in definitions; the first failing `unlink` ends it. */
    method UnlinkBuiltins() returns (failure: Option<FsError>)
      requires engine != null
      modifies engine`fs
      ensures var a := UnlinkAll(old(engine.fs), BuiltinPaths(definitions));
              engine.fs == a.fs && failure == a.failure
    {
      ghost var fs0 := engine.fs;
      ghost var paths := BuiltinPaths(definitions);
      var i := 0;
      while i < |definitions|
        invariant 0 <= i <= |definitions|
        invariant UnlinkAll(fs0, paths[..i]) == Attempt(engine.fs, None)
      {
        var u := Unlink(engine.fs, DefinitionPath(Primary(definitions[i].key)));
        UnlinkAllStep(fs0, paths, i);
        if u.Err? {
          UnlinkAllStops(fs0, paths, i + 1);
          return Some(u.error);
        }
        engine.fs := u.value;
        i := i + 1;
      }
      assert paths[..i] == paths;
      failure := None;
    }

    /** The loop of `removeDefinitions` over the stored number of extruders. */
    method UnlinkExtruders(count: nat) returns (failure: Option<FsError>)
      requires engine != null
      modifies engine`fs
      ensures var a := UnlinkAll(old(engine.fs), ExtruderPaths(count));
              engine.fs == a.fs && failure == a.failure
    {
      ghost var fs0 := engine.fs;
      ghost var paths := ExtruderPaths(count);
      var j := 0;
      while j < count
        invariant 0 <= j <= count
        invariant UnlinkAll(fs0, paths[..j]) == Attempt(engine.fs, None)
      {
        var u := Unlink(engine.fs, DefinitionPath(ExtruderFile(j)));
        UnlinkAllStep(fs0, paths, j);
        if u.Err? {
          UnlinkAllStops(fs0, paths, j + 1);
          return Some(u.error);
        }
        engine.fs := u.value;
        j := j + 1;
      }
      assert paths[..j] == paths;
      failure := None;
    }

    /** The `updateProgress` closure: `previous` is the captured `previousSlicerProgress`. */
    method UpdateProgress(slicerProgress: real, previous: int) returns (next: int)
      modifies this`emitted
      ensures next == Round100(slicerProgress)
      ensures emitted == old(emitted) + (if Round100(slicerProgress) != previous then [Round100(slicerProgress)] else [])
    {
      var rounded := Round100(slicerProgress);
      next := previous;
      if rounded != previous {
        emitted := emitted + [rounded];
        next := rounded;
      }
    }

    /**
     * `run(command, overrides, verbose, file, extension)`. The engine's
     * behaviour for this call is `slicer`; `generate` builds arguments from
     * overrides.
     */
    method Run<N>(command: Option<string>, overrides: Option<seq<Override>>, verbose: Option<bool>,
                  file: seq<Byte>, extension: string,
                  loader: MeshFile.Loader<N>, f32: Option<N> -> bv32,
                  generate: (Option<seq<Override>>, Option<bool>) -> seq<string>,
                  slicer: SlicerRun)
      returns (r: Outcome<Result<seq<Byte>, MeshFile.ConvertError>>)
      requires Valid()
      modifies engine, this`progressCallback, this`emitted
      ensures Valid()
      ensures old(engine) == null ==>
                r == Threw(NotInitialized) && emitted == old(emitted) && progressCallback == old(progressCallback)
      ensures old(engine) != null ==>
                var fs0 := old(engine.fs);
                var conversion := MeshFile.Convert(file, extension, loader, f32);
                if conversion.Rejected? then
                  // a rejected parse makes `run` throw, and nothing is touched
                  && r == Threw(ConversionRejected)
                  && engine.fs == fs0 && engine.mainCalls == old(engine.mainCalls)
                  && emitted == old(emitted) && progressCallback == old(progressCallback)
                else if conversion.result.Err? then
                  // the converter's Error is returned, and nothing is touched
                  && r == Done(Err(conversion.result.error))
                  && engine.fs == fs0 && engine.mainCalls == old(engine.mainCalls)
                  && emitted == old(emitted) && progressCallback == old(progressCallback)
                else if WriteFile(fs0, ModelStl, conversion.result.value).Err? then
                  && r == Threw(FsFailure(WriteFile(fs0, ModelStl, conversion.result.value).error))
                  && engine.fs == fs0 && engine.mainCalls == old(engine.mainCalls)
                  && emitted == old(emitted) && progressCallback == old(progressCallback)
                else
                  var sliced := AfterSlicing(WriteFile(fs0, ModelStl, conversion.result.value).value, slicer);
                  // the engine is called once, and its progress is reported without repeats
                  && engine.mainCalls == old(engine.mainCalls) + [Arguments(command, overrides, verbose, generate)]
                  && emitted == old(emitted) + SlicerProgress(slicer.samples).emitted
                  && (slicer.aborts ==> r == Threw(EngineAborted) && progressCallback && engine.fs == sliced)
                  && (!slicer.aborts ==> !progressCallback)
                  && (!slicer.aborts && ModelGcode !in sliced.files ==>
                        r == Threw(FsFailure(NoSuchEntry)) && engine.fs == sliced)
                  // on success the G-code is returned and both temporary files are gone
                  && (!slicer.aborts && ModelGcode in sliced.files ==>
                        && r == Done(Ok(sliced.files[ModelGcode]))
                        && engine.fs == fs0.(files := fs0.files - {ModelStl, ModelGcode}))
    {
      if engine == null {
        return Threw(NotInitialized);
      }
      var conversion := MeshFile.Convert(file, extension, loader, f32);
      if conversion.Rejected? {
        return Threw(ConversionRejected);
      }
      var stl := conversion.result;
      if stl.Err? {
        return Done(Err(stl.error));
      }
      var written := WriteFile(engine.fs, ModelStl, stl.value);
      if written.Err? {
        return Threw(FsFailure(written.error));
      }
      ghost var fs0 := engine.fs;
      WriteFileValid(engine.fs, ModelStl, stl.value);
      SlicingKeepsOthers(engine.fs, stl.value, slicer);
      engine.fs := written.value;
      progressCallback := true;
      var args := if command.None? then generate(overrides, verbose) else Split(command.value, ' ');
      // inside callMain the engine reports progress through the installed callback
      DeliverProgress(slicer.samples);
      var aborted := engine.CallMain(args, slicer);
      if aborted {
        return Threw(EngineAborted);
      }
      progressCallback := false;
      var gcode := CollectGcode();
      if gcode.Err? {
        return Threw(FsFailure(gcode.error));
      }
      r := Done(Ok(gcode.value));
    }

    /** The `updateProgress` calls the engine makes while it slices, one per sample. */
    method DeliverProgress(samples: seq<real>)
      modifies this`emitted
      ensures emitted == old(emitted) + SlicerProgress(samples).emitted
    {
      var previous := 0;
      var i := 0;
      while i < |samples|
        invariant 0 <= i <= |samples|
        invariant emitted == old(emitted) + SlicerProgress(samples[..i]).emitted
        invariant previous == SlicerProgress(samples[..i]).previous
      {
        assert samples[..i + 1][..i] == samples[..i];
        previous := UpdateProgress(samples[i], previous);
        i := i + 1;
      }
      assert samples[..i] == samples;
    }

    /** The end of `run`: read `Model.gcode`, then unlink `Model.stl` and `Model.gcode`. */
    method CollectGcode() returns (gcode: Result<seq<Byte>, FsError>)
      requires engine != null && EngineFs.Valid(engine.fs) && ModelStl in engine.fs.files
      modifies engine`fs
      ensures EngineFs.Valid(engine.fs)
      ensures ModelGcode !in old(engine.fs.files) ==> gcode == Err(NoSuchEntry) && engine.fs == old(engine.fs)
      ensures ModelGcode in old(engine.fs.files) ==>
                && gcode == Ok(old(engine.fs.files[ModelGcode]))
                && engine.fs == old(engine.fs).(files := old(engine.fs.files) - {ModelStl, ModelGcode})
    {
      gcode := ReadFile(engine.fs, ModelGcode);
      if gcode.Err? {
        return;
      }
      assert ModelStl.name[6] != ModelGcode.name[6];
      UnlinkValid(engine.fs, ModelStl);
      engine.fs := Unlink(engine.fs, ModelStl).value;
      UnlinkValid(engine.fs, ModelGcode);
      engine.fs := Unlink(engine.fs, ModelGcode).value;
      assert engine.fs.files == old(engine.fs.files) - {ModelStl, ModelGcode};
    }
  }
}
