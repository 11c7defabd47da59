# Verified model of the 3dbackend slicing pipeline

This project models the core of a NestJS slicing service in Dafny. The service
converts an uploaded 3D model to binary STL, stages printer definitions in the
file system of a Cura engine, runs the engine, and returns the G-code. The
model covers three parts:

- **`meshToSTL` and `convert`** (`src/entity/file.ts`), in `mesh_file.dfy`.
  - `MeshToStl` is an imperative method. It allocates a zeroed `array<bv8>` and
    fills it with the same `for` loop over faces as the source. It is proved
    equal to the byte image `StlImage`.
  - Lemmas read that image back: the header, the count word, the twelve
    little-endian slots of every face, the attribute bytes and the zero tail.
  - `Convert` is the decision procedure. It handles import failure, the STL
    bypass, the format lookup (`FindFormat`, the first match in table order),
    zero meshes, and encoding of the first mesh.
  - JavaScript numbers are a type parameter `N`. A read past the end of an
    array is `None` (`undefined`). The float32 encoding is a parameter
    `f32: Option<N> -> bv32`.
- **`CuraWorkerService`** (`src/providers/worker.service.ts`), in `worker.dfy`.
  - The class `CuraWorker` has the fields `engine` and `extruderCount`, plus
    the global progress-callback slot and the emitted progress events.
  - Its methods are `Initialize`, `AddDefinitions`, `RemoveDefinitions`, `Run`
    and the `updateProgress` closure (`UpdateProgress`).
  - The engine (`Engine`) holds its file system and the list of `callMain`
    argument vectors.
  - The file system is a value of `engine_fs.dfy`: directories directly under
    the root, and a map from path to bytes. `mkdir`, `rmdir`, `writeFile`,
    `unlink` and `readFile` fail with explicit errors.
  - The staging loops write into that value. Each loop is proved against a
    fold (`BuiltinsWritten`, `ExtrudersWritten`, `UnlinkAll`).
  - Staging and unstaging are related by lemmas about the folds. The central
    one is `StageThenUnstage`.
- **`CuraWASM`** (`src/entity/index.ts`), in `client.dfy`.
  - The constructor's validation and defaults are `MergeConfig`, with
    `Create` as the constructor that may throw.
  - `Load`, `Slice` and `Destroy` append jobs to the queue. The queue is a
    ghost, append-only job log (`JobQueue`).
  - Whether Bull/Redis accepts a job is an input (`accepted`). A rejected
    enqueue rejects the awaiting method.
  - The queue is shared: other instances and the upload controller append
    to it too. Each instance keeps a ghost list of the log positions of its
    own jobs. Its invariant `Valid` constrains only those jobs:
    - once the instance is loaded, its `initialize` job is among them;
    - each of its slice jobs carries its configuration and comes after its
      own `initialize` job.
  - Jobs appended by others never break the invariant (`OwnJobsGrow`). So
    `Create` accepts a queue in any state.

`common.dfy` holds the shared types: `Option`, `Result`, bytes,
`CombinedDefinition` and `Override`.

Where the code differs from its own comments or from the binary STL format,
the model follows the code:

- The comments on `command` and `overrides` (`src/entity/index.ts:35` and
  `:49`) say the two cannot be used together. The constructor enforces that
  with `!= null`, so it also refuses a command together with `overrides: []`.
- The binary STL format (the 3D Systems StereoLithography Interface
  Specification) has a count of triangles at offset 80 and 50 bytes per
  triangle. The encoder instead writes `normals.length` as the count and
  allocates `84 + 50 * normals.length` bytes (see Findings).
- The encoder's doc comment (`src/entity/file.ts:8`) asks for three vertex
  coordinates per normal component, but nothing checks it. Missing
  components are read as `undefined` (`StlPartialFaceReadsUndefined`).
- The slicer's progress is emitted as the rounded slicer value alone, so the
  stream can go down (`ProgressNotMonotone`). The bias computed at
  `src/providers/worker.service.ts:112` only scales the converter's events.

## Model

| member | source | states |
|---|---|---|
| MeshFile.LittleEndian32RoundTrip | src/entity/file.ts:20 | the four bytes a little-endian `setUint32` stores read back as the same word |
| MeshFile.StlImage | src/entity/file.ts:15-16 | the encoder's buffer is exactly 84 + 50 * normals.length bytes |
| MeshFile.FacesFilledAtMost | src/entity/file.ts:23 | the loop fills at most normals.length faces, and exactly normals.length / 3 when that divides evenly |
| MeshFile.LoopBound | src/entity/file.ts:23 | the guard `face < normals.length / 3`, in real division, holds exactly for face < ceil(normals.length / 3) |
| MeshFile.SetUint32 | src/entity/file.ts:20 | a little-endian store puts the word's four bytes at the offset and changes no other byte |
| MeshFile.WriteSlots | src/entity/file.ts:24-47 | the twelve stores of one iteration put slot k of the face at binaryOffset + 4k, normals first, then vertices; the rest of the buffer is unchanged |
| MeshFile.WriteFace | src/entity/file.ts:23-48 | one iteration over a zeroed tail appends the face's 50-byte record (48 written bytes, two zero attribute bytes) |
| MeshFile.WriteFaces | src/entity/file.ts:23-48 | the loop keeps the 84-byte header, fills records for faces 0 .. ceil(n/3) - 1, and leaves the rest zero |
| MeshFile.MeshToStl | src/entity/file.ts:10-51 | `meshToSTL` returns exactly the byte image `StlImage`: zero header, normals.length at offset 80, the filled records, zero padding |
| MeshFile.MeshToStlFacets | src/entity/file.ts:10-51 | the corrected encoder returns the standard layout `FacetImage`, with the number of faces as its count |
| MeshFile.StlHeaderAndCount | src/entity/file.ts:15-20 | the first 80 bytes are zero and the little-endian word at offset 80 is normals.length modulo 2^32, not a face count |
| MeshFile.StlFacetSlot | src/entity/file.ts:23-47 | for each visited face f, slot k at 84 + 50f + 4k decodes to f32 of normals[3f + k] (k < 3) or vertices[9f + k - 3] |
| MeshFile.StlAttributeBytesZero | src/entity/file.ts:16-47 | the two attribute bytes of every filled face stay zero |
| MeshFile.StlTailZero | src/entity/file.ts:16-48 | every byte past the last filled face stays zero |
| MeshFile.FaceRegionsDisjoint | src/entity/file.ts:25-47 | each face's 48 written bytes lie inside the buffer and do not overlap another face's |
| MeshFile.StlReadsInRange | src/entity/file.ts:6-9 | with whole faces and vertices.length >= 3 * normals.length, every slot reads a defined array element |
| MeshFile.StlPartialFaceReadsUndefined | src/entity/file.ts:23-32 | with four normal components the loop visits a second face and reads normals[4], which is undefined |
| MeshFile.StlCountIsComponentCount | src/entity/file.ts:15-20 | for a one-face mesh the buffer is 234 bytes with count 3, and its last 100 bytes are zero |
| MeshFile.FacetImageRoundTrip | src/entity/file.ts:15-20 | the corrected layout's count reads back as the number of faces and its length is 84 + 50 per counted face |
| MeshFile.FacetImageSlot | src/entity/file.ts:23-47 | the corrected layout holds every face's slots where `meshToSTL` puts them |
| MeshFile.FindFormat | src/entity/file.ts:71-73 | the lookup finds the first format in table order whose extension list holds the extension, and finds none exactly when no format lists it |
| MeshFile.Convert | src/entity/file.ts:59-136 | an import failure is an error even for "stl"; "stl" passes the bytes through unparsed; an unknown extension is an error without parsing; parsing happens exactly for a listed non-STL extension; a rejected parse rejects; zero meshes is an error; otherwise the first mesh is encoded |
| MeshFile.ConvertedMeshLayout | src/entity/file.ts:96-130 | a successful parsed conversion is 84 + 50 * normals.length bytes of the first mesh, with that count at offset 80, whatever later meshes hold |
| EngineFs.MkdirValid | src/providers/worker.service.ts:36-38 | `mkdir` keeps the file system well formed |
| EngineFs.WriteFileValid | src/providers/worker.service.ts:127 | `writeFile` keeps the file system well formed |
| EngineFs.UnlinkValid | src/providers/worker.service.ts:153-154 | `unlink` keeps the file system well formed |
| EngineFs.RmdirValid | src/providers/worker.service.ts:92 | `rmdir` keeps the file system well formed |
| EngineFs.RmdirUndoesNewDir | src/providers/worker.service.ts:92 | removing a directory that was just created and is empty again gives back the earlier file system |
| EngineFs.WriteFileInDir | src/providers/worker.service.ts:48-61 | a write into an existing directory below the root always succeeds and sets exactly that path |
| EngineFs.WrittenKeys | src/providers/worker.service.ts:41-62 | a run of writes adds exactly the written paths to the file map |
| EngineFs.WrittenThenRemoved | src/providers/worker.service.ts:41-90 | writes to fresh paths, then removal of those paths, give back the original map |
| EngineFs.UnlinkAllStops | src/providers/worker.service.ts:75-90 | once an `unlink` throws, no later `unlink` happens |
| EngineFs.UnlinkAllValid | src/providers/worker.service.ts:75-90 | a run of unlinks keeps the file system well formed, however it ends |
| EngineFs.UnlinkAllEffect | src/providers/worker.service.ts:75-90 | a run of unlinks never touches a directory or adds a file, and when it succeeds it has removed exactly the unlinked paths |
| EngineFs.UnlinkAllPresent | src/providers/worker.service.ts:75-90 | unlinking distinct present paths succeeds and removes exactly those paths |
| Worker.DecimalLength | src/providers/worker.service.ts:59 | an extruder index renders with at least one digit, and with one digit exactly below 10 |
| Worker.DecimalInjective | src/providers/worker.service.ts:59 | distinct extruder indices render as distinct decimal strings |
| Worker.FileNameInjective | src/providers/worker.service.ts:45-59 | distinct definition files get distinct paths, given built-in keys that are not "printer" and not "extruder-…" |
| Worker.StagingWrites | src/providers/worker.service.ts:41-62 | `addDefinitions` writes the built-ins in table order, then the printer, then one file per extruder, all below /definitions |
| Worker.StagedFilesInPhases | src/providers/worker.service.ts:41-62 | the built-in loop, the printer write and the extruder loop together perform exactly the staging writes |
| Worker.RemovalPaths | src/providers/worker.service.ts:75-90 | `removeDefinitions` unlinks the k-th staged file as its k-th step, for the stored extruder count |
| Worker.RemovalMatchesStaging | src/providers/worker.service.ts:41-90 | removal visits exactly the paths staging wrote, in the same order |
| Worker.RemovalPathsDistinct | src/providers/worker.service.ts:41-90 | no path is staged or unlinked twice |
| Worker.AddAsWritten | src/providers/worker.service.ts:31-66 | with a strict `mkdir`, the second `mkdir` always fails after creating /definitions and before writing any file; with a lenient one, every file is staged |
| Worker.AddOnce | src/providers/worker.service.ts:31-66 | with one `mkdir`, staging succeeds exactly when `mkdir` does, and a failure changes nothing |
| Worker.Unstage | src/providers/worker.service.ts:74-92 | `removeDefinitions` never creates a file; a failure keeps every directory; success removes exactly the staged paths and /definitions |
| Worker.UnstageInPhases | src/providers/worker.service.ts:74-92 | removal is the built-in loop, the printer `unlink`, the extruder loop and `rmdir`, each stopping at the first error |
| Worker.StagedValid | src/providers/worker.service.ts:36-62 | staging keeps the file system well formed |
| Worker.StageThenUnstage | src/providers/worker.service.ts:31-93 | removing what was staged, with the stored extruder count, restores the file system staging started from |
| Worker.LenientAddThenRemove | src/providers/worker.service.ts:31-93 | with a lenient `mkdir`, add-then-remove as written succeeds and restores the prior file system |
| Worker.AddOnceThenRemove | src/providers/worker.service.ts:31-93 | with a single `mkdir`, add succeeds under either `mkdir` and remove restores the prior file system |
| Worker.Round100 | src/providers/worker.service.ts:133 | `Math.round(100 * p)` is the integer nearest to 100p, halves rounded up |
| Worker.SlicerProgress | src/providers/worker.service.ts:129-138 | the `updateProgress` event stream for a run's reports has no more events than reports |
| Worker.ProgressRemembersLast | src/providers/worker.service.ts:129-137 | the remembered progress is the last emitted value (0 before any) and, after any report, that report rounded |
| Worker.ProgressNoRepeats | src/providers/worker.service.ts:129-137 | no two adjacent emitted values are equal, and the first is never 0 |
| Worker.ProgressEmitsRoundedReports | src/providers/worker.service.ts:133-136 | every emitted value is some report rounded to hundredths, and there are no more events than reports |
| Worker.ProgressNotMonotone | src/providers/worker.service.ts:132-137 | reports 0.5 then 0.2 emit 50 then 20: the emitted stream can go down |
| Worker.Split | src/providers/worker.service.ts:143 | `command.split(' ')` yields at least one part and no part contains a space |
| Worker.SplitJoin | src/providers/worker.service.ts:143 | joining the split parts with a space gives back the command |
| Worker.Arguments | src/providers/worker.service.ts:142-143 | with a command, the arguments are its space-separated words, which join back into the command; without one, they are what `generate` builds from the overrides and the verbose flag |
| Worker.AfterSlicing | src/providers/worker.service.ts:147 | the engine's slicing writes at most `Model.gcode`, keeping every other file and directory |
| Worker.SlicingKeepsOthers | src/providers/worker.service.ts:127-154 | after `Model.stl` is written and the engine has run, the STL is present, and removing both temporary files gives back the starting file system |
| Worker.Engine.constructor | src/providers/worker.service.ts:28 | a new engine has the given file system and no `callMain` calls |
| Worker.Engine.CallMain | src/providers/worker.service.ts:147 | `callMain` records its arguments once, applies the engine's writes, and reports whether it threw |
| Worker.CuraWorker.constructor | src/providers/worker.service.ts:11-14 | a new worker has no engine, no extruder count, no installed callback and no events |
| Worker.CuraWorker.Initialize | src/providers/worker.service.ts:16-29 | `initialize` sets a fresh engine over its starting file system |
| Worker.CuraWorker.WriteDefinitionFiles | src/providers/worker.service.ts:40-65 | the copy loops leave exactly the staged file map and then store the extruder count |
| Worker.CuraWorker.WriteBuiltinFiles | src/providers/worker.service.ts:41-49 | the built-in loop writes each built-in definition to its path, in table order |
| Worker.CuraWorker.WriteExtruderFiles | src/providers/worker.service.ts:57-62 | the extruder loop writes extruder i to `extruder-i.def.json`, by index |
| Worker.CuraWorker.AddDefinitions | src/providers/worker.service.ts:31-66 | without an engine it throws before any change; otherwise the file system becomes `AddAsWritten`'s, and the count is stored exactly on success |
| Worker.CuraWorker.AddDefinitionsOnce | src/providers/worker.service.ts:31-66 | the single-`mkdir` method: the file system becomes `AddOnce`'s, and the count is stored exactly on success |
| Worker.CuraWorker.RemoveDefinitions | src/providers/worker.service.ts:68-93 | without an engine or a stored count it throws before any change; otherwise the file system becomes `Unstage`'s, throwing at the first failed step; the count is never reset |
| Worker.CuraWorker.UnlinkBuiltins | src/providers/worker.service.ts:75-83 | the built-in unlink loop is `UnlinkAll` over the built-in paths and stops at the first error |
| Worker.CuraWorker.UnlinkExtruders | src/providers/worker.service.ts:88-90 | the extruder unlink loop is `UnlinkAll` over the files of extruders 0 .. count - 1 |
| Worker.CuraWorker.UpdateProgress | src/providers/worker.service.ts:132-138 | a report is rounded to hundredths, emitted only when it differs from the remembered value, and then remembered |
| Worker.CuraWorker.DeliverProgress | src/providers/worker.service.ts:129-147 | the engine's reports during one run emit exactly `SlicerProgress`, starting from 0 |
| Worker.CuraWorker.CollectGcode | src/providers/worker.service.ts:152-156 | a missing `Model.gcode` throws with nothing changed; otherwise its contents are returned and both temporary files are removed |
| Worker.CuraWorker.Run | src/providers/worker.service.ts:95-158 | without an engine it throws; a rejected conversion throws and a conversion error is returned, both with nothing touched; otherwise the engine is called once with `Arguments`, slicer progress is emitted without repeats, and the callback is cleared unless the engine threw; on success the G-code is returned and the file system is the starting one without `Model.stl` and `Model.gcode` |
| Client.MergeConfig | src/entity/index.ts:99-114 | refused exactly when both command and overrides are non-null (even `[]`); every supplied property is kept, even `undefined`; every missing one takes its default |
| Client.OneOfCommandOrOverrides | src/entity/index.ts:99-104 | supplying only a command, or only overrides, is never refused |
| Client.EmptyConfigIsDefaults | src/entity/index.ts:106-114 | an empty configuration stores null, the default definition, [], true and false |
| Client.JobQueue.constructor | src/providers/queue.service.ts:7 | a new queue holds no jobs |
| Client.JobQueue.Add | src/providers/queue.service.ts:9-23 | an accepted job is appended to the log; a rejected one leaves it unchanged and rejects |
| Client.CuraWasm.constructor | src/entity/index.ts:93-119 | the instance stores its queue and configuration, with loaded false and oldProgress 0 |
| Client.CuraWasm.Create | src/entity/index.ts:93-119 | over a queue in any state, construction throws exactly when `MergeConfig` refuses; otherwise the new instance holds the merged configuration, unloaded, with oldProgress 0 and no jobs of its own |
| Client.CuraWasm.Load | src/entity/index.ts:124-129 | `load` appends one `initialize` job with the stored configuration and sets loaded, unless the enqueue is rejected |
| Client.CuraWasm.Slice | src/entity/index.ts:137-143 | a loaded instance appends only the slice job; an unloaded one appends `initialize` first and stops if that is rejected; the slice job carries the file, the extension and the stored configuration |
| Client.CuraWasm.Destroy | src/entity/index.ts:199-203 | `destroy` appends one `destroy` job and leaves loaded as it was |
| Client.CuraWasm.Enqueue | src/providers/queue.service.ts:9-23 | one `queue.add` of the instance's own job appends it when accepted, records it among the instance's jobs, and keeps them ordered |
| Client.AppendOwn | src/entity/index.ts:124-143 | appending an `initialize` or `destroy` job, or a slice job once loaded, keeps the instance's jobs ordered, and an `initialize` job makes it loaded |
| Client.OwnJobsGrow | src/providers/queue.service.ts:9-23 | jobs others append to the shared queue never break an instance's invariant |
| Client.ForeignJobsDoNotMatter | src/entity/index.ts:93-119 | a new instance's invariant holds over any queue, including one holding a slice job with no `initialize` before it, and while others append |

## Left out

- Float32 rounding: `setFloat32` stores the binary32 pattern of a JavaScript number. That conversion is the parameter `f32`, so the model does not say which bits a number gets.
- Converter progress: the listener `convert` registers (`loaderProgress / 100`) and the `0.3` converter bias in `run` depend on the external loader's events and on floating point. The model records only whether `convert` parsed, which is the only case where it registers the listener. Converter events go to the same emitter as the slicer's without any comparison, so the stream as a whole can repeat a value (two equal loader reports, or a loader report of 100 followed by a first slicer report of 0.3).
- The multiple-meshes `console.warn`, the `console.log`/`console.error` calls, the verbose argument echo and `initialize`'s `print`/`printErr` suppression are logging. `Initialize` keeps only the fact that `engine` becomes non-null.
- The CuraEngine module: its construction, its file system beyond the five calls used, and what `callMain` computes. Each call's observable behaviour is an input `SlicerRun`: its progress reports, the G-code it writes and whether it throws.
- Worker.AfterSlicing: the engine is assumed to write `Model.gcode` and no other file. A user `command` can name another output file with `-o`. `run` would leave that file behind and then throw at the read of `Model.gcode`. The model does not capture that file.
- Whether the engine's `mkdir` accepts an existing directory is the engine's `lenientMkdir` flag. The Emscripten build rejects it.
- `generate` (`src/entity/arguments`) and the built-in `definitions` table are not part of this model. They enter as the parameter `generate` and the constant `CuraWorker.definitions`.
- Worker.FileNameInjective, Worker.StageThenUnstage: require built-in keys other than "printer" and "extruder-…", which the definitions table is assumed to satisfy.
- The dynamic `import('unified-3d-loader')`, its format table and its parser enter as the `Loader` value. The format table is a sequence in `Object.values` order. A parse that rejects, or a first mesh without its normal or vertex array, is `load` giving `None`. `convert` then rejects and `run` throws `ConversionRejected`. Why the parser rejected is not modelled.
- The Bull/Redis transport: `queue.add` is the log append of `JobQueue.Add`, with acceptance as an input. Job delivery and the processor glue (`src/processors/cura.processor.ts`) are not modelled. That glue passes an `Error` returned by `run` through as `gcode`.
- Concurrency: job ordering across workers and the single in-flight slice come from Bull and the Node event loop.
- Client.CuraWasm.Slice: each call runs to completion before the next one starts. In the source, `load` and `slice` await the enqueue before setting `loaded`. Two `slice` calls that overlap on an unloaded instance can therefore both enqueue `initialize`. "`initialize` once before the first slice" holds only for calls that run one after another.
- The global `cura-wasm-progress-callback` slot is the boolean `progressCallback`. Events go to `emitted`, in integer hundredths `k` where the source emits `k / 100`.
- Client.MergeConfig: `null` and `undefined` are both `None`, so the model does not tell them apart. The guard treats them alike; only the stored value could differ.
- Client.CuraWasm.Slice: the method's return value, which is whatever the queue wrapper resolves with, is not modelled. So are the `EventEmitter` base class and the `log` helper. `transfer` and `oldProgress` are stored but never read by the source.
- EngineFs: `unlink` of a directory and `rmdir` of the root are not distinguished from other failures, because the worker never issues them. Error codes are reduced to four kinds.

## Findings

Both rows keep the code as written in the main path. `Convert` encodes with the function `StlImage`, which `MeshToStl` is proved to return. `Run` and `AddDefinitions` are the methods as written. The corrected members stand beside them, with their intended properties proved.

| source | as written | input that shows it | evidently intended | confidence | as-written member | corrected member |
|---|---|---|---|---|---|---|
| src/entity/file.ts:15-20 | the buffer is sized `84 + 50 * normals.length` and offset 80 holds `normals.length`, but `normals.length` counts components, three per face | one face: 3 normals, 9 vertices gives a 234-byte buffer with count 3, one filled record and 100 zero bytes read as two degenerate facets | count `normals.length / 3` and length 84 + 50 per face | not executed | MeshFile.StlCountIsComponentCount | MeshFile.FacetImageRoundTrip |
| src/providers/worker.service.ts:36-38 | `mkdir('/definitions')` is called twice in a row | any engine whose `mkdir` rejects an existing directory (the Emscripten file system) throws at line 38 on every call, with the directory created and no definition written | a single `mkdir`, after which staging succeeds and removal restores the file system | not executed | Worker.AddAsWritten | Worker.AddOnceThenRemove |
