# NativeLink store factory, verified model

NativeLink builds its content-addressable storage from a configuration tree.
Each node of that tree names a backend kind:
- the leaves are Memory, S3, Redis, Filesystem, Grpc and Noop;
- Ref points at another named store;
- the decorators are Verify, Compression, ExistenceCache, Dedup,
  CompletenessChecking, FastSlow and SizePartitioning;
- Shard routes over an ordered list of entries.

`store_factory` turns one such tree into the matching tree of store drivers.
It builds every child configuration first, in declared order, with no health
registry. The first failure aborts the build. Once all children exist, it
calls the node's own constructor. At the top level only, and only on
success, it registers the finished store with an optional health registry.

The model has five modules:

- `StoreConfigs` (`config.dfy`): the configuration tree and its paths.
  `Children` lists a node's child configurations in the order the factory
  builds them.
- `Stores` (`stores.dfy`): the built store tree and `Backends`, the backend
  constructors. These are parameters of the model: total functions that
  may fail.
- `HealthUtils` (`health.dfy`): the health registry, a class whose list of
  registered stores is updated in place.
- `DefaultStoreFactory` (`factory.dfy`):
  - `Build` is the recursive construction. It returns the result and a
    trace of the nodes whose own constructor was invoked.
  - `Sequence` awaits the child builds in order and stops at the first
    failure.
  - `StoreFactory` is the top-level call that touches the registry.
- `FactoryProperties` (`properties.dfy`): what the factory guarantees for
  every choice of backend constructors.

A trace event is the path of a node, as child indices from the root. A node
is in the trace once its own constructor has been called, including a
constructor that then fails.

`Build` takes no registry at all, so nested builds cannot register anything.
Only `StoreFactory` has one.

## Model

| member | source | states |
|---|---|---|
| StoreConfigs.Children | nativelink-store/src/default_store_factory.rs:55-101 | every configuration a node builds recursively is a proper sub-tree of that node, so the recursion terminates |
| DefaultStoreFactory.Sequence | nativelink-store/src/default_store_factory.rs:93-99 | a successful ordered collection returns one store per awaited child |
| DefaultStoreFactory.Construct | nativelink-store/src/default_store_factory.rs:51-102 | a node's own constructor step holds exactly the given child stores, in order. `FactoryProperties.ConstructMirrors` adds that the store has the node's variant and spec. `FactoryProperties.OwnStepCannotFail` and the three `CanFail` lemmas say which variants can reject their spec |
| DefaultStoreFactory.Build | nativelink-store/src/default_store_factory.rs:45-102 | a successful build has one child store per child configuration, and the node's own constructor is its last call. `FactoryProperties.SuccessMirrorsConfig`, `TraceShape` and `FirstFailingChildDecides` state the rest |
| DefaultStoreFactory.BuildEach | nativelink-store/src/default_store_factory.rs:55-99 | there is one child build per child configuration; `Sequence` decides which of them are reached |
| DefaultStoreFactory.StoreFactory | nativelink-store/src/default_store_factory.rs:45-110 | the result is the recursive build's result. With a registry supplied, success appends exactly the returned store to it once. Failure leaves it unchanged |
| HealthUtils.HealthRegistryBuilder.RegisterHealth | nativelink-store/src/default_store_factory.rs:104-106 | registering appends the store to the registry and changes nothing else |
| FactoryProperties.SequenceSucceedsIff | nativelink-store/src/default_store_factory.rs:93-99 | collecting the children succeeds if and only if every child build succeeds |
| FactoryProperties.SequenceValueAt | nativelink-store/src/default_store_factory.rs:93-99 | on success the k-th collected store is the k-th child's store |
| FactoryProperties.SequenceFirstError | nativelink-store/src/default_store_factory.rs:93-99 | on failure the error is that of the first failing child in order |
| FactoryProperties.SequenceStopsAt | nativelink-store/src/default_store_factory.rs:93-99 | a failing child fails the collection, and no child after it makes a constructor call |
| FactoryProperties.SequenceTraceShape | nativelink-store/src/default_store_factory.rs:93-99 | the collection's constructor calls are the children's own, each under its child's index, and stay in post-order |
| FactoryProperties.SequenceTraceLength | nativelink-store/src/default_store_factory.rs:93-99 | a successful collection records every constructor call of every child |
| FactoryProperties.SequenceContainsAll | nativelink-store/src/default_store_factory.rs:93-99 | a successful collection keeps each child's constructor calls, under that child's index |
| FactoryProperties.ConstructMirrors | nativelink-store/src/default_store_factory.rs:51-102 | a node's own constructor yields a store of the node's variant, carrying its spec and the given children in order |
| FactoryProperties.SuccessMirrorsConfig | nativelink-store/src/default_store_factory.rs:51-102 | on success the root store has the configuration's variant and spec, and its k-th child store is the build of the k-th child configuration |
| FactoryProperties.BuiltChildren | nativelink-store/src/default_store_factory.rs:51-102 | on success the node's own constructor receives one store per child configuration, and the k-th is exactly what building the k-th child configuration yields |
| FactoryProperties.BackendRoleKept | nativelink-store/src/default_store_factory.rs:55-71 | Verify, Compression and ExistenceCache wrap the store built from their `backend` configuration |
| FactoryProperties.PairRolesKept | nativelink-store/src/default_store_factory.rs:63-89 | Dedup, CompletenessChecking, FastSlow and SizePartitioning hold their two built children in their declared roles: index/content, backend/cas_store, fast/slow, lower/upper |
| FactoryProperties.ShardChildrenInDeclaredOrder | nativelink-store/src/default_store_factory.rs:92-100 | a built shard holds one store per entry, and store i is the build of entry i's configuration |
| FactoryProperties.SuccessConstructsEveryNode | nativelink-store/src/default_store_factory.rs:51-102 | a successful build calls the constructor of every node of the configuration tree, and makes exactly as many calls as there are nodes. With `ChildrenBeforeParent` (no call repeats), each node is constructed exactly once |
| FactoryProperties.NodeConstructed | nativelink-store/src/default_store_factory.rs:51-102 | on success the node at any path of the configuration was constructed |
| FactoryProperties.FirstFailingChildDecides | nativelink-store/src/default_store_factory.rs:57-99 | the first child in declared order whose build fails makes the node fail with that child's error |
| FactoryProperties.ShardReportsLowestFailingEntry | nativelink-store/src/default_store_factory.rs:93-99 | a shard fails with the error of its lowest-index failing entry |
| FactoryProperties.FailedChildStopsLaterSiblings | nativelink-store/src/default_store_factory.rs:63-99 | if child k fails, the node fails. Later siblings and the node's own constructor are never called. For two-child decorators, a failing first child means the second is never attempted |
| FactoryProperties.NestedFailureAbortsBuild | nativelink-store/src/default_store_factory.rs:51-102 | a failing build of any node at any depth fails the whole build |
| FactoryProperties.OwnStepCannotFail | nativelink-store/src/default_store_factory.rs:52-91 | Memory, Verify, ExistenceCache, CompletenessChecking, FastSlow, SizePartitioning, Ref and Noop succeed whenever all their children do |
| FactoryProperties.CompressionCanFailAfterBackend | nativelink-store/src/default_store_factory.rs:59-62 | there are constructors for which Compression fails although its backend was built |
| FactoryProperties.DedupCanFailAfterChildren | nativelink-store/src/default_store_factory.rs:63-67 | there are constructors for which Dedup fails although both its stores were built |
| FactoryProperties.ShardCanFailAfterEntries | nativelink-store/src/default_store_factory.rs:92-100 | there are constructors for which Shard fails although all its entries were built |
| FactoryProperties.LeafAndRefBuildNoChild | nativelink-store/src/default_store_factory.rs:52-91 | leaves and Ref make no nested build: their own constructor is the only call, and Ref always yields a store carrying its spec |
| FactoryProperties.TraceShape | nativelink-store/src/default_store_factory.rs:51-102 | every constructor call is for a node of the configuration, and the calls come in post-order |
| FactoryProperties.ChildrenBeforeParent | nativelink-store/src/default_store_factory.rs:51-102 | no node is constructed twice, and no node is constructed before any node below it |
| FactoryProperties.SiblingsInDeclaredOrder | nativelink-store/src/default_store_factory.rs:63-99 | everything under an earlier-declared child is constructed before anything under a later one |
| FactoryProperties.ConstructIgnoresName | nativelink-store/src/default_store_factory.rs:52-101 | a node's own constructor does not depend on its `name` |
| FactoryProperties.NameIsIgnored | nativelink-store/src/default_store_factory.rs:51-102 | blanking every `name` in the tree changes neither the result nor the constructor calls |
| FactoryProperties.SameUpToNamesBuildsSame | nativelink-store/src/default_store_factory.rs:51-102 | two configurations that differ only in names build the same store tree with the same calls |

## Left out

- Backend constructor internals are outside the model. Each constructor is a field of `Backends`. This covers:
  - S3 connectivity and its `SystemTime::now` clock;
  - the Redis and gRPC clients;
  - filesystem I/O;
  - how compression and dedup handle bytes;
  - the checks `ShardStore::new` makes.
- Each constructor's outcome is a function of its spec and its built children. Two identical sub-trees therefore build identically; a constructor whose outcome varies from call to call (clock, network) is not captured.
- Async execution is modelled as sequential evaluation in declared order. For Shard, `FuturesOrdered` may poll later entries before an earlier one fails. The result and the reported error are the same as in sequential order. The trace lists only the entries up to the first failure, so it does not capture later entries that started concurrently.
- `Arc` sharing, the weak reference a Ref store holds to the `StoreManager`, and the manager itself are outside the model. A Ref store records only its spec.
- What `register_health` does inside a store is outside the model. Registering appends the top-level store to the registry's list.
- The configuration's own parsing and defaults are outside the model. A node's `Spec` is opaque and does not include its child configurations, which are separate fields of the configuration node. A shard entry's settings are kept beside its configuration.
- Nested stores never register with the health registry: nested builds get no registry, and only the top-level store registers (`default_store_factory.rs` lines 57 and 104-106). The model does the same.
- NameIsIgnored, SameUpToNamesBuildsSame: the model assumes constructors do not read the child configurations. In the source, `VerifyStore::new`, `DedupStore::new`, `ShardStore::new` and the other decorator constructors receive the whole `spec`. That spec embeds the child `StoreConfig`s, names included. In the model a constructor sees only the node's `Spec` (which holds no child configuration) and the built child stores. So "names are ignored" is proved for the factory's own steps; it would fail for a constructor that reads a nested configuration's name.
- `nativelink-controller/src/controller.rs` is not part of this model. It holds Kubernetes resource declarations and a constant default replica count.
- `docs/astro.config.mjs` is not part of this model. It configures the documentation site.
