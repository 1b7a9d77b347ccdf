/** The store configuration tree read by the store factory: one variant per
    backend kind, with the child configurations of the decorator kinds
    embedded by value, so every configuration is a finite tree. */
module StoreConfigs {

  /** The fields of a store's spec other than its nested store
      configurations (sizes, paths, endpoints, algorithms, weights, the
      target name of a Ref store, ...). The factory never looks inside them:
      it hands them to the backend constructors. */
  type Spec(==)

  /** A position in a configuration tree: the child indices, in declared
      argument order, leading from the root to a node. */
  type Path = seq<nat>

  datatype StoreConfig =
    | Memory(name: string, spec: Spec)
    | S3(name: string, spec: Spec)
    | Redis(name: string, spec: Spec)
    | Verify(name: string, spec: Spec, backend: StoreConfig)
    | Compression(name: string, spec: Spec, backend: StoreConfig)
    | Dedup(name: string, spec: Spec, indexStore: StoreConfig, contentStore: StoreConfig)
    | ExistenceCache(name: string, spec: Spec, backend: StoreConfig)
    | CompletenessChecking(name: string, spec: Spec, backend: StoreConfig, casStore: StoreConfig)
    | FastSlow(name: string, spec: Spec, fast: StoreConfig, slow: StoreConfig)
    | Filesystem(name: string, spec: Spec)
    | Ref(name: string, spec: Spec)
    | SizePartitioning(name: string, spec: Spec, lowerStore: StoreConfig, upperStore: StoreConfig)
    | Grpc(name: string, spec: Spec)
    | Noop(name: string, spec: Spec)
    | Shard(name: string, spec: Spec, stores: seq<ShardEntry>)

  /** One entry of a Shard spec's `stores` list: the nested configuration
      and the entry's other settings (its weight). */
  datatype ShardEntry = ShardEntry(store: StoreConfig, settings: Spec)

  /** The child configurations a node builds before its own constructor
      runs, in the order the factory passes them: backend; index then
      content; backend then cas_store; fast then slow; lower then upper;
      and the shard entries in declared order. Leaves and Ref have none. */
  function Children(c: StoreConfig): (cs: seq<StoreConfig>)
    ensures forall k :: 0 <= k < |cs| ==> cs[k] < c
  {
    match c
    case Verify(_, _, backend) => [backend]
    case Compression(_, _, backend) => [backend]
    case Dedup(_, _, index, content) => [index, content]
    case ExistenceCache(_, _, backend) => [backend]
    case CompletenessChecking(_, _, backend, cas) => [backend, cas]
    case FastSlow(_, _, fast, slow) => [fast, slow]
    case SizePartitioning(_, _, lower, upper) => [lower, upper]
    case Shard(_, _, entries) => seq(|entries|, k requires 0 <= k < |entries| => entries[k].store)
    case _ => []
  }

  /** Leaf kinds, which make no nested build. */
  predicate IsLeaf(c: StoreConfig) {
    c.Memory? || c.S3? || c.Redis? || c.Filesystem? || c.Grpc? || c.Noop?
  }

  /** Number of nodes of a configuration tree. */
  function Size(c: StoreConfig): (n: nat)
    decreases c
  {
    var cs := Children(c);
    1 + Sum(seq(|cs|, k requires 0 <= k < |cs| => Size(cs[k])))
  }

  function Sum(s: seq<nat>): (total: nat) {
    if s == [] then 0 else s[0] + Sum(s[1..])
  }

  /** `p` leads from `c` to one of its nodes. */
  predicate IsNode(c: StoreConfig, p: Path)
    decreases |p|
  {
    p == [] || (p[0] < |Children(c)| && IsNode(Children(c)[p[0]], p[1..]))
  }

  /** The node of `c` that `p` leads to. */
  function Node(c: StoreConfig, p: Path): (node: StoreConfig)
    requires IsNode(c, p)
    decreases |p|
  {
    if p == [] then c else Node(Children(c)[p[0]], p[1..])
  }

  /** The configuration with every `name` field, at every depth, blanked. */
  function Unnamed(c: StoreConfig): (u: StoreConfig)
    decreases c
  {
    match c
    case Memory(_, spec) => Memory("", spec)
    case S3(_, spec) => S3("", spec)
    case Redis(_, spec) => Redis("", spec)
    case Verify(_, spec, backend) => Verify("", spec, Unnamed(backend))
    case Compression(_, spec, backend) => Compression("", spec, Unnamed(backend))
    case Dedup(_, spec, index, content) => Dedup("", spec, Unnamed(index), Unnamed(content))
    case ExistenceCache(_, spec, backend) => ExistenceCache("", spec, Unnamed(backend))
    case CompletenessChecking(_, spec, backend, cas) =>
      CompletenessChecking("", spec, Unnamed(backend), Unnamed(cas))
    case FastSlow(_, spec, fast, slow) => FastSlow("", spec, Unnamed(fast), Unnamed(slow))
    case Filesystem(_, spec) => Filesystem("", spec)
    case Ref(_, spec) => Ref("", spec)
    case SizePartitioning(_, spec, lower, upper) =>
      SizePartitioning("", spec, Unnamed(lower), Unnamed(upper))
    case Grpc(_, spec) => Grpc("", spec)
    case Noop(_, spec) => Noop("", spec)
    case Shard(_, spec, entries) =>
      Shard("", spec, seq(|entries|, k requires 0 <= k < |entries| =>
        ShardEntry(Unnamed(entries[k].store), entries[k].settings)))
  }
}
