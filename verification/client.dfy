/**
 * The client façade `CuraWASM` of src/entity/index.ts: it validates and
 * completes a partial configuration, and turns `load`, `slice` and `destroy`
 * into jobs on the slicing queue.
 *
 * The queue (`CuraWASMService`, a wrapper around a Bull queue) is an
 * append-only log of jobs. Whether Redis accepts a job is outside the
 * program; each enqueue is told whether it is accepted, and a rejected
 * enqueue rejects the awaiting method.
 */
module Client {
  import opened Common

  /**
   * A property of the object literal handed to the constructor: missing, or
   * present with a value that may itself be `null`/`undefined` (`None`).
   */
  datatype Field<T> = Absent | Present(value: Option<T>)

  /** `Partial<config>`. */
  datatype PartialConfig = PartialConfig(
    command: Field<string>,
    definition: Field<CombinedDefinition>,
    overrides: Field<seq<Override>>,
    transfer: Field<bool>,
    verbose: Field<bool>)

  /**
   * The stored `config`. A field the caller passed explicitly as `undefined`
   * is stored as such by the object spread, hence `Option` everywhere.
   */
  datatype Config = Config(
    command: Option<string>,
    definition: Option<CombinedDefinition>,
    overrides: Option<seq<Override>>,
    transfer: Option<bool>,
    verbose: Option<bool>)

  /** The constructor's only error: a launch command together with overrides. */
  datatype ConfigError = CommandWithOverrides

  /** `x != null` in JavaScript: neither missing, nor `null`, nor `undefined`. */
  predicate NotNullish<T>(f: Field<T>)
  {
    f.Present? && f.value.Some?
  }

  /** `{ key: fallback, ...config }` for one key: a present property wins, even when it holds `undefined`. */
  function Spread<T>(f: Field<T>, fallback: Option<T>): Option<T>
  {
    match f
    case Absent => fallback
    case Present(v) => v
  }

  /**
   * The constructor's validation and default merging. `defaultDefinition` is
   * the `fdmprinter`/`fdmextruder` pair of the definitions package.
   */
  function MergeConfig(partial: PartialConfig, defaultDefinition: CombinedDefinition): (r: Result<Config, ConfigError>)
    // both a command and overrides is refused, whatever the overrides are (even [])
    ensures r.Err? <==> NotNullish(partial.command) && NotNullish(partial.overrides)
    // every supplied property is kept as it was given
    ensures r.Ok? ==>
              && (partial.command.Present? ==> r.value.command == partial.command.value)
              && (partial.definition.Present? ==> r.value.definition == partial.definition.value)
              && (partial.overrides.Present? ==> r.value.overrides == partial.overrides.value)
              && (partial.transfer.Present? ==> r.value.transfer == partial.transfer.value)
              && (partial.verbose.Present? ==> r.value.verbose == partial.verbose.value)
    // every missing property takes its default
    ensures r.Ok? ==>
              && (partial.command.Absent? ==> r.value.command == None)
              && (partial.definition.Absent? ==> r.value.definition == Some(defaultDefinition))
              && (partial.overrides.Absent? ==> r.value.overrides == Some([]))
              && (partial.transfer.Absent? ==> r.value.transfer == Some(true))
              && (partial.verbose.Absent? ==> r.value.verbose == Some(false))
  {
    if NotNullish(partial.command) && NotNullish(partial.overrides) then Err(CommandWithOverrides)
    else Ok(Config(
      Spread(partial.command, None),
      Spread(partial.definition, Some(defaultDefinition)),
      Spread(partial.overrides, Some([])),
      Spread(partial.transfer, Some(true)),
      Spread(partial.verbose, Some(false))))
  }

  /** Supplying only a command, or only overrides, is never refused. */
  lemma OneOfCommandOrOverrides(partial: PartialConfig, defaultDefinition: CombinedDefinition)
    requires !NotNullish(partial.command) || !NotNullish(partial.overrides)
    ensures MergeConfig(partial, defaultDefinition).Ok?
  {
  }

  /** An empty configuration gives exactly the defaults. */
  lemma EmptyConfigIsDefaults(defaultDefinition: CombinedDefinition)
    ensures MergeConfig(PartialConfig(Absent, Absent, Absent, Absent, Absent), defaultDefinition)
            == Ok(Config(None, Some(defaultDefinition), Some([]), Some(true), Some(false)))
  {
  }

  /** A job on the slicing queue: its name and its payload. */
  datatype Job =
    | InitializeJob(config: Config)
    | SliceJob(file: seq<Byte>, extension: string, config: Config)
    | DestroyJob

  /**
   * The jobs one instance appended to a shared log, given by their positions
   * `mine` (in the order appended): each is one of its own jobs, and once it
   * is loaded its `initialize` job is among them. Every slice job carries the
   * instance's configuration and comes after an `initialize` job of the same
   * instance. Jobs other parties append are not constrained.
   */
  ghost predicate OwnJobsOrdered(log: seq<Job>, mine: seq<nat>, config: Config, loaded: bool)
  {
    && (forall k :: 0 <= k < |mine| ==> mine[k] < |log|)
    && (forall a, b :: 0 <= a < b < |mine| ==> mine[a] < mine[b])
    && (loaded ==> exists k :: 0 <= k < |mine| && log[mine[k]] == InitializeJob(config))
    && (forall k :: 0 <= k < |mine| && !log[mine[k]].DestroyJob? ==> log[mine[k]].config == config)
    && (forall k :: 0 <= k < |mine| && log[mine[k]].SliceJob? ==>
          exists t :: 0 <= t < k && log[mine[t]] == InitializeJob(config))
  }

  /** Other parties only append to the shared log, which keeps an instance's jobs ordered. */
  lemma OwnJobsGrow(log: seq<Job>, longer: seq<Job>, mine: seq<nat>, config: Config, loaded: bool)
    requires OwnJobsOrdered(log, mine, config, loaded) && log <= longer
    ensures OwnJobsOrdered(longer, mine, config, loaded)
  {
    assert forall k :: 0 <= k < |mine| ==> longer[mine[k]] == log[mine[k]];
  }

  /**
   * Appending one of the instance's own jobs keeps its jobs ordered: an
   * `initialize` or `destroy` job always, a slice job once it is loaded.
   */
  lemma AppendOwn(log: seq<Job>, mine: seq<nat>, config: Config, loaded: bool, job: Job)
    requires OwnJobsOrdered(log, mine, config, loaded)
    requires job == InitializeJob(config) || job == DestroyJob || (loaded && job.SliceJob? && job.config == config)
    ensures OwnJobsOrdered(log + [job], mine + [|log|], config, loaded || job.InitializeJob?)
  {
    var log', mine' := log + [job], mine + [|log|];
    assert forall k :: 0 <= k < |mine| ==> log'[mine'[k]] == log[mine[k]];
    if loaded || job.InitializeJob? {
      if job.InitializeJob? {
        assert log'[mine'[|mine|]] == InitializeJob(config);
      } else {
        var k :| 0 <= k < |mine| && log[mine[k]] == InitializeJob(config);
        assert log'[mine'[k]] == InitializeJob(config);
      }
    }
    forall k | 0 <= k < |mine'| && log'[mine'[k]].SliceJob?
      ensures exists t :: 0 <= t < k && log'[mine'[t]] == InitializeJob(config)
    {
      if k < |mine| {
        var t :| 0 <= t < k && log[mine[t]] == InitializeJob(config);
        assert log'[mine'[t]] == InitializeJob(config);
      } else {
        var t :| 0 <= t < |mine| && log[mine[t]] == InitializeJob(config);
        assert log'[mine'[t]] == InitializeJob(config);
      }
    }
  }

  /** The queue, as the log of the jobs it accepted. */
  class JobQueue {
    ghost var log: seq<Job>

    constructor()
      ensures log == []
    {
      log := [];
    }

    /** `queue.add(name, payload)`: resolves when accepted, rejects otherwise. */
    method Add(job: Job, accepted: bool) returns (ok: bool)
      modifies this
      ensures ok == accepted
      ensures log == old(log) + (if accepted then [job] else [])
    {
      if accepted {
        log := log + [job];
      }
      ok := accepted;
    }
  }

  class CuraWasm {
    const queue: JobQueue
    /** Set once by the constructor and never assigned again. */
    const config: Config
    var loaded: bool
    var oldProgress: int
    /** The positions in the queue's log of the jobs this instance appended. */
    ghost var mine: seq<nat>

    /** This instance's own jobs are ordered: see `OwnJobsOrdered`. */
    ghost predicate Valid()
      reads this, queue
    {
      OwnJobsOrdered(queue.log, mine, config, loaded)
    }

    constructor(queue: JobQueue, config: Config)
      ensures this.queue == queue && this.config == config
      ensures !loaded && oldProgress == 0 && mine == []
      ensures Valid()
    {
      this.queue := queue;
      this.config := config;
      loaded := false;
      oldProgress := 0;
      mine := [];
    }

    /** `new CuraWASM(service, config)`: throws when both a command and overrides are given. */
    static method Create(queue: JobQueue, partial: PartialConfig, defaultDefinition: CombinedDefinition)
      returns (r: Result<CuraWasm, ConfigError>)
      ensures r.Err? <==> MergeConfig(partial, defaultDefinition).Err?
      ensures r.Err? ==> r.error == MergeConfig(partial, defaultDefinition).error
      ensures r.Ok? ==>
                && fresh(r.value) && r.value.queue == queue
                && r.value.config == MergeConfig(partial, defaultDefinition).value
                && !r.value.loaded && r.value.oldProgress == 0
                && r.value.mine == [] && r.value.Valid()
    {
      var merged := MergeConfig(partial, defaultDefinition);
      if merged.Err? {
        return Err(merged.error);
      }
      var c := new CuraWasm(queue, merged.value);
      r := Ok(c);
    }

    /** `load()`: enqueue `initialize` with the stored configuration, then mark the instance loaded. */
    method Load(accepted: bool) returns (ok: bool)
      requires Valid()
      modifies this`loaded, this`mine, queue
      ensures Valid()
      ensures ok == accepted
      ensures queue.log == old(queue.log) + (if accepted then [InitializeJob(config)] else [])
      ensures loaded == (old(loaded) || accepted)
    {
      ok := Enqueue(InitializeJob(config), accepted);
      loaded := loaded || ok;
    }

    /**
     * `slice(file, extension)`: an unloaded instance loads first; then the
     * slice job goes out with the stored configuration. `initAccepted` and
     * `sliceAccepted` say whether the queue takes each job.
     */
    method Slice(file: seq<Byte>, extension: string, initAccepted: bool, sliceAccepted: bool) returns (ok: bool)
      requires Valid()
      modifies this`loaded, this`mine, queue
      ensures Valid()
      // a loaded instance enqueues the slice job alone
      ensures old(loaded) ==>
                && loaded && ok == sliceAccepted
                && queue.log == old(queue.log) + (if sliceAccepted then [SliceJob(file, extension, config)] else [])
      // an unloaded one enqueues initialize first, and stops if that is rejected
      ensures !old(loaded) && !initAccepted ==>
                !loaded && !ok && queue.log == old(queue.log)
      ensures !old(loaded) && initAccepted ==>
                && loaded && ok == sliceAccepted
                && queue.log == old(queue.log) + [InitializeJob(config)]
                                + (if sliceAccepted then [SliceJob(file, extension, config)] else [])
    {
      if !loaded {
        var initialized := Load(initAccepted);
        if !initialized {
          return false;
        }
      }
      ok := Enqueue(SliceJob(file, extension, config), sliceAccepted);
    }

    /** `destroy()`: enqueue `destroy`; `loaded` stays as it is, so a later slice does not re-initialise. */
    method Destroy(accepted: bool) returns (ok: bool)
      requires Valid()
      modifies this`mine, queue
      ensures Valid()
      ensures ok == accepted && loaded == old(loaded)
      ensures queue.log == old(queue.log) + (if accepted then [DestroyJob] else [])
    {
      ok := Enqueue(DestroyJob, accepted);
    }

    /** One `queue.add` of this instance's own job, recorded among its jobs when accepted. */
    method Enqueue(job: Job, accepted: bool) returns (ok: bool)
      requires Valid()
      requires job == InitializeJob(config) || job == DestroyJob || (loaded && job.SliceJob? && job.config == config)
      modifies this`mine, queue
      ensures ok == accepted
      ensures queue.log == old(queue.log) + (if accepted then [job] else [])
      ensures OwnJobsOrdered(queue.log, mine, config, loaded || (accepted && job.InitializeJob?))
    {
      AppendOwn(queue.log, mine, config, loaded, job);
      var position := |queue.log|;
      ok := queue.Add(job, accepted);
      if ok {
        mine := mine + [position];
      }
    }
  }

  /**
   * An instance created over a queue that already holds other parties' jobs,
   * such as a slice job with no `initialize` before it, is valid, and stays
   * valid while others append.
   */
  lemma ForeignJobsDoNotMatter(log: seq<Job>, more: seq<Job>, config: Config)
    ensures OwnJobsOrdered(log, [], config, false)
    ensures OwnJobsOrdered(log + more, [], config, false)
  {
  }
}
