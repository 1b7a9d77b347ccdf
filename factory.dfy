/** The recursive store factory: builds the store tree a configuration tree
    describes. Every child build gets the same constructors and no health
    registry, runs to completion before the next one starts, and stops the
    whole build on its first error. A node's own constructor runs only after
    all its children are built. */
module DefaultStoreFactory {
  import opened StoreConfigs
  import opened Stores
  import opened HealthUtils

  /** The outcome of building one configuration tree, with the trace of the
      nodes whose own constructor was invoked, in invocation order. A node
      is named by its path relative to the tree being built. */
  datatype Run = Run(result: Result<Store>, trace: seq<Path>)

  /** The outcome of building a list of sibling configurations; child `k`'s
      events are recorded under the path prefix `[k]`. */
  datatype ChildRuns = ChildRuns(result: Result<seq<Store>>, trace: seq<Path>)

  /** The events of a child's trace, moved under the child's index. */
  function Under(k: nat, t: seq<Path>): (u: seq<Path>) {
    seq(|t|, i requires 0 <= i < |t| => [k] + t[i])
  }

  /** A failure `Outcome` becomes that error; a pass yields `s`. */
  function Checked(o: Outcome, s: Store): (r: Result<Store>) {
    if o.Fail? then Err(o.error) else Ok(s)
  }

  /** The step a node runs once its children `kids` are built: its
      variant's constructor, which receives the node's spec but never its
      name. */
  function Construct(env: Backends, c: StoreConfig, kids: seq<Store>): (r: Result<Store>)
    requires |kids| == |Children(c)|
    ensures r.Ok? ==> Subs(r.value) == kids
  {
    match c
    case Memory(_, spec) => Ok(MemoryStore(env.memory(spec)))
    case S3(_, spec) =>
      var r := env.s3(spec); if r.Ok? then Ok(S3Store(r.value)) else Err(r.error)
    case Redis(_, spec) =>
      var r := env.redis(spec); if r.Ok? then Ok(RedisStore(r.value)) else Err(r.error)
    case Verify(_, spec, _) => Ok(VerifyStore(spec, kids[0]))
    case Compression(_, spec, _) =>
      Checked(env.compression(spec, kids[0]), CompressionStore(spec, kids[0]))
    case Dedup(_, spec, _, _) =>
      Checked(env.dedup(spec, kids[0], kids[1]), DedupStore(spec, kids[0], kids[1]))
    case ExistenceCache(_, spec, _) => Ok(ExistenceCacheStore(spec, kids[0]))
    case CompletenessChecking(_, _, _, _) => Ok(CompletenessCheckingStore(kids[0], kids[1]))
    case FastSlow(_, spec, _, _) => Ok(FastSlowStore(spec, kids[0], kids[1]))
    case Filesystem(_, spec) =>
      var r := env.filesystem(spec); if r.Ok? then Ok(FilesystemStore(r.value)) else Err(r.error)
    case Ref(_, spec) => Ok(RefStore(spec))
    case SizePartitioning(_, spec, _, _) => Ok(SizePartitioningStore(spec, kids[0], kids[1]))
    case Grpc(_, spec) =>
      var r := env.grpc(spec); if r.Ok? then Ok(GrpcStore(r.value)) else Err(r.error)
    case Noop(_, _) => Ok(NoopStore)
    case Shard(_, spec, entries) =>
      var settings := seq(|entries|, k requires 0 <= k < |entries| => entries[k].settings);
      Checked(env.shard(spec, settings, kids), ShardStore(spec, settings, kids))
  }

  /** Builds the configuration tree `c`: first its children, left to right,
      stopping at the first failure, then, if they all succeeded, its own
      constructor. */
  function Build(env: Backends, c: StoreConfig): (r: Run)
    ensures r.result.Ok? ==> |Subs(r.result.value)| == |Children(c)|
    ensures r.result.Ok? ==> r.trace != [] && r.trace[|r.trace| - 1] == []
    decreases c, 1
  {
    var kids := Sequence(BuildEach(env, c), 0);
    if kids.result.Err? then Run(Err(kids.result.error), kids.trace)
    else Run(Construct(env, c, kids.result.value), kids.trace + [[]])
  }

  /** What building each child configuration of `c` on its own yields.
      Building is deterministic, so this list fixes what every child build
      would produce; `Sequence` decides which of them are actually reached. */
  function BuildEach(env: Backends, c: StoreConfig): (runs: seq<Run>)
    ensures |runs| == |Children(c)|
    decreases c, 0
  {
    var cs := Children(c);
    seq(|cs|, k requires 0 <= k < |cs| => Build(env, cs[k]))
  }

  /** Awaits the child builds `runs[from..]` one after the other: a failure
      ends the sequence with that child's error, and the children after it
      are never started, so their constructor calls are not in the trace.
      On success, the stores come back in declared order. */
  function Sequence(runs: seq<Run>, from: nat): (r: ChildRuns)
    requires from <= |runs|
    ensures r.result.Ok? ==> |r.result.value| == |runs| - from
    decreases |runs| - from
  {
    if from == |runs| then ChildRuns(Ok([]), [])
    else
      var first := runs[from];
      var t := Under(from, first.trace);
      if first.result.Err? then ChildRuns(Err(first.result.error), t)
      else
        var rest := Sequence(runs, from + 1);
        if rest.result.Err? then ChildRuns(Err(rest.result.error), t + rest.trace)
        else ChildRuns(Ok([first.result.value] + rest.result.value), t + rest.trace)
  }

  /** The top-level factory call: builds `config` and, only when that
      succeeds and a registry was supplied, registers the finished store
      with it. Nested builds never see the registry. */
  method StoreFactory(env: Backends, config: StoreConfig, registry: HealthRegistryBuilder?)
    returns (r: Result<Store>)
    modifies registry
    ensures r == Build(env, config).result
    ensures registry != null && r.Ok? ==>
      registry.registered == old(registry.registered) + [r.value]
    ensures registry != null && r.Err? ==> registry.registered == old(registry.registered)
  {
    var run := Build(env, config);
    if run.result.Err? {
      return Err(run.result.error);
    }
    var store := run.result.value;
    if registry != null {
      registry.RegisterHealth(store);
    }
    return Ok(store);
  }
}
