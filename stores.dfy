/** The constructed store tree and the backend constructors the factory
    calls. Constructor internals (network clients, disk I/O, compression
    and dedup byte handling) are not part of this model: each constructor
    is a parameter of the factory, a total function that may fail. */
module Stores {
  import opened StoreConfigs

  /** The build error a constructor reports. */
  type Error(==)

  /** The state a leaf backend's constructor produces (clients, handles). */
  type Driver(==)

  datatype Result<+T> = Ok(value: T) | Err(error: Error)

  /** Outcome of a constructor's own checks after its children exist. */
  datatype Outcome = Pass | Fail(error: Error)

  /** A constructed store, mirroring the configuration variants. A decorator
      holds the stores built for its child configurations in their roles. */
  datatype Store =
    | MemoryStore(driver: Driver)
    | S3Store(driver: Driver)
    | RedisStore(driver: Driver)
    | VerifyStore(spec: Spec, backend: Store)
    | CompressionStore(spec: Spec, backend: Store)
    | DedupStore(spec: Spec, indexStore: Store, contentStore: Store)
    | ExistenceCacheStore(spec: Spec, backend: Store)
    | CompletenessCheckingStore(backend: Store, casStore: Store)
    | FastSlowStore(spec: Spec, fast: Store, slow: Store)
    | FilesystemStore(driver: Driver)
    | RefStore(spec: Spec)
    | SizePartitioningStore(spec: Spec, lowerStore: Store, upperStore: Store)
    | GrpcStore(driver: Driver)
    | NoopStore
    | ShardStore(spec: Spec, settings: seq<Spec>, stores: seq<Store>)

  /** The child stores of a constructed store, in the same role order as
      `Children` lists the child configurations. */
  function Subs(s: Store): seq<Store> {
    match s
    case VerifyStore(_, backend) => [backend]
    case CompressionStore(_, backend) => [backend]
    case DedupStore(_, index, content) => [index, content]
    case ExistenceCacheStore(_, backend) => [backend]
    case CompletenessCheckingStore(backend, cas) => [backend, cas]
    case FastSlowStore(_, fast, slow) => [fast, slow]
    case SizePartitioningStore(_, lower, upper) => [lower, upper]
    case ShardStore(_, _, stores) => stores
    case _ => []
  }

  /** The backend constructors whose outcome the factory depends on.
      MemoryStore::new cannot fail; S3, Redis, filesystem and gRPC
      construction can; CompressionStore::new, DedupStore::new and
      ShardStore::new can reject their spec after their children are built.
      The other decorators' constructors cannot fail and need no entry.
      A constructor sees the node's own spec and the built child stores,
      never the child configurations themselves. */
  datatype Backends = Backends(
    memory: Spec -> Driver,
    s3: Spec -> Result<Driver>,
    redis: Spec -> Result<Driver>,
    filesystem: Spec -> Result<Driver>,
    grpc: Spec -> Result<Driver>,
    compression: (Spec, Store) -> Outcome,
    dedup: (Spec, Store, Store) -> Outcome,
    shard: (Spec, seq<Spec>, seq<Store>) -> Outcome)
}
