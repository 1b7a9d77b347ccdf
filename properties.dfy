/** What the store factory guarantees, for every choice of backend
    constructors: the built tree mirrors the configuration, children keep
    their declared roles and order, the first failure in declared order
    decides the error and stops everything after it, constructors run in
    post-order, and store names play no part in the build. */
module FactoryProperties {
  import opened StoreConfigs
  import opened Stores
  import opened DefaultStoreFactory

  /** Run `k` is the first of `runs[from..]` that failed. */
  predicate FirstFailure(runs: seq<Run>, from: nat, k: nat) {
    && from <= k < |runs|
    && runs[k].result.Err?
    && forall j :: from <= j < k ==> runs[j].result.Ok?
  }

  /** Child `k` of `c` is the first, in declared order, whose build fails. */
  predicate FirstFailingChild(env: Backends, c: StoreConfig, k: nat) {
    && k < |Children(c)|
    && Build(env, Children(c)[k]).result.Err?
    && forall j :: 0 <= j < k ==> Build(env, Children(c)[j]).result.Ok?
  }

  /** The store node `s` is of the variant of `c` and carries the spec the
      factory hands to that variant's constructor. */
  predicate NodeMirrors(c: StoreConfig, s: Store) {
    match c
    case Memory(_, _) => s.MemoryStore?
    case S3(_, _) => s.S3Store?
    case Redis(_, _) => s.RedisStore?
    case Verify(_, spec, _) => s.VerifyStore? && s.spec == spec
    case Compression(_, spec, _) => s.CompressionStore? && s.spec == spec
    case Dedup(_, spec, _, _) => s.DedupStore? && s.spec == spec
    case ExistenceCache(_, spec, _) => s.ExistenceCacheStore? && s.spec == spec
    case CompletenessChecking(_, _, _, _) => s.CompletenessCheckingStore?
    case FastSlow(_, spec, _, _) => s.FastSlowStore? && s.spec == spec
    case Filesystem(_, _) => s.FilesystemStore?
    case Ref(_, spec) => s == RefStore(spec)
    case SizePartitioning(_, spec, _, _) => s.SizePartitioningStore? && s.spec == spec
    case Grpc(_, _) => s.GrpcStore?
    case Noop(_, _) => s == NoopStore
    case Shard(_, spec, entries) =>
      && s.ShardStore? && s.spec == spec && |s.settings| == |entries|
      && forall k :: 0 <= k < |entries| ==> s.settings[k] == entries[k].settings
  }

  /** Variants whose own constructor step cannot fail. */
  predicate InfallibleOwnStep(c: StoreConfig) {
    c.Memory? || c.Verify? || c.ExistenceCache? || c.CompletenessChecking? || c.FastSlow?
    || c.SizePartitioning? || c.Ref? || c.Noop?
  }

  /** `p` comes before `q` in post-order: `p` lies below `q`, or `p` is in
      an earlier-declared branch than `q` where the two paths part. */
  predicate Before(p: Path, q: Path)
    decreases |p|
  {
    if q == [] then p != []
    else if p == [] then false
    else p[0] < q[0] || (p[0] == q[0] && Before(p[1..], q[1..]))
  }

  predicate InPostOrder(t: seq<Path>) {
    forall i, j :: 0 <= i < j < |t| ==> Before(t[i], t[j])
  }

  // ---------------------------------------------------------------------
  // Awaiting a list of child builds in order

  /** Awaiting the child builds in order succeeds exactly when every one of
      them succeeds. */
  lemma {:induction false} SequenceSucceedsIff(runs: seq<Run>, from: nat)
    requires from <= |runs|
    ensures Sequence(runs, from).result.Ok? <==> forall k :: from <= k < |runs| ==> runs[k].result.Ok?
    decreases |runs| - from
  {
    if from < |runs| && runs[from].result.Ok? {
      SequenceSucceedsIff(runs, from + 1);
    }
  }

  /** On success the k-th store collected is the k-th child's store. */
  lemma {:induction false} SequenceValueAt(runs: seq<Run>, from: nat, k: nat)
    requires from <= k < |runs|
    requires Sequence(runs, from).result.Ok?
    ensures runs[k].result == Ok(Sequence(runs, from).result.value[k - from])
    decreases |runs| - from
  {
    var r := Sequence(runs, from).result;
    var rest := Sequence(runs, from + 1).result;
    assert r.value == [runs[from].result.value] + rest.value;
    if k > from {
      SequenceValueAt(runs, from + 1, k);
      assert r.value[k - from] == rest.value[k - (from + 1)];
    }
  }

  /** On failure the error is that of the first failing child. */
  lemma {:induction false} SequenceFirstError(runs: seq<Run>, from: nat, k: nat)
    requires FirstFailure(runs, from, k)
    ensures Sequence(runs, from).result == Err(runs[k].result.error)
    decreases |runs| - from
  {
    if k > from {
      assert FirstFailure(runs, from + 1, k);
      SequenceFirstError(runs, from + 1, k);
    }
  }

  /** A failing child `k` ends the sequence: no child after it is started. */
  lemma {:induction false} SequenceStopsAt(runs: seq<Run>, from: nat, k: nat)
    requires from <= k < |runs|
    requires runs[k].result.Err?
    ensures var r := Sequence(runs, from);
      && r.result.Err?
      && forall i :: 0 <= i < |r.trace| ==> r.trace[i] != [] && r.trace[i][0] <= k
    decreases |runs| - from
  {
    if runs[from].result.Ok? {
      SequenceStopsAt(runs, from + 1, k);
    }
  }

  /** The constructor calls of the sequence are those of the children,
      each under its child's index, and in post-order if each child's are. */
  lemma {:induction false} SequenceTraceShape(runs: seq<Run>, from: nat)
    requires from <= |runs|
    requires forall k :: 0 <= k < |runs| ==> InPostOrder(runs[k].trace)
    ensures var t := Sequence(runs, from).trace;
      && InPostOrder(t)
      && forall i :: 0 <= i < |t| ==>
           t[i] != [] && from <= t[i][0] < |runs| && t[i][1..] in runs[t[i][0]].trace
    decreases |runs| - from
  {
    if from < |runs| {
      var first := runs[from].trace;
      var u := Under(from, first);
      forall i, j | 0 <= i < j < |u| ensures Before(u[i], u[j]) {
        UnderKeepsBefore(from, first[i], first[j]);
      }
      forall i | 0 <= i < |u| ensures u[i][1..] == first[i] {
        assert u[i] == [from] + first[i];
      }
      if runs[from].result.Ok? {
        SequenceTraceShape(runs, from + 1);
        ConcatInPostOrder(u, Sequence(runs, from + 1).trace);
      }
    }
  }

  /** The number of constructor calls each run made. */
  function TraceLengths(runs: seq<Run>): seq<nat> {
    seq(|runs|, k requires 0 <= k < |runs| => |runs[k].trace|)
  }

  /** A successful sequence records every constructor call of every child. */
  lemma {:induction false} SequenceTraceLength(runs: seq<Run>, from: nat)
    requires from <= |runs|
    requires Sequence(runs, from).result.Ok?
    ensures |Sequence(runs, from).trace| == Sum(TraceLengths(runs)[from..])
    decreases |runs| - from
  {
    if from < |runs| {
      SequenceTraceLength(runs, from + 1);
      var ls := TraceLengths(runs);
      assert ls[from..][1..] == ls[from + 1..];
    }
  }

  /** A successful sequence keeps every constructor call of every child,
      under that child's index. */
  lemma {:induction false} SequenceContainsAll(runs: seq<Run>, from: nat)
    requires from <= |runs|
    requires Sequence(runs, from).result.Ok?
    ensures forall k, i :: from <= k < |runs| && 0 <= i < |runs[k].trace| ==>
      [k] + runs[k].trace[i] in Sequence(runs, from).trace
    decreases |runs| - from
  {
    if from < |runs| {
      var u := Under(from, runs[from].trace);
      var rest := Sequence(runs, from + 1);
      SequenceContainsAll(runs, from + 1);
      assert Sequence(runs, from).trace == u + rest.trace;
      forall k, i | from <= k < |runs| && 0 <= i < |runs[k].trace|
        ensures [k] + runs[k].trace[i] in Sequence(runs, from).trace
      {
        if k == from {
          assert u[i] == [k] + runs[k].trace[i];
        }
      }
    }
  }

  // ---------------------------------------------------------------------
  // Shape of a successful build

  lemma ConstructMirrors(env: Backends, c: StoreConfig, kids: seq<Store>)
    requires |kids| == |Children(c)|
    requires Construct(env, c, kids).Ok?
    ensures NodeMirrors(c, Construct(env, c, kids).value)
    ensures Subs(Construct(env, c, kids).value) == kids
  {
  }

  /** On success the root store is of the configuration's variant, carries
      its spec, and its k-th child store is exactly what building the k-th
      declared child configuration yields. */
  lemma SuccessMirrorsConfig(env: Backends, c: StoreConfig)
    requires Build(env, c).result.Ok?
    ensures var s := Build(env, c).result.value;
      && NodeMirrors(c, s)
      && |Subs(s)| == |Children(c)|
      && forall k :: 0 <= k < |Children(c)| ==> Build(env, Children(c)[k]).result == Ok(Subs(s)[k])
  {
    var kids := BuiltChildren(env, c);
    ConstructMirrors(env, c, kids);
  }

  /** The stores collected from the children of a successful build: the
      k-th is what building the k-th child configuration yields, and the
      node's own constructor receives exactly them. */
  function BuiltChildren(env: Backends, c: StoreConfig): (kids: seq<Store>)
    requires Build(env, c).result.Ok?
    ensures |kids| == |Children(c)|
    ensures forall k :: 0 <= k < |Children(c)| ==> Build(env, Children(c)[k]).result == Ok(kids[k])
    ensures Build(env, c).result == Construct(env, c, kids)
  {
    ChildBuildsCollected(env, c);
    Sequence(BuildEach(env, c), 0).result.value
  }

  lemma ChildBuildsCollected(env: Backends, c: StoreConfig)
    requires Sequence(BuildEach(env, c), 0).result.Ok?
    ensures forall k :: 0 <= k < |Children(c)| ==>
      Build(env, Children(c)[k]).result == Ok(Sequence(BuildEach(env, c), 0).result.value[k])
  {
    var runs := BuildEach(env, c);
    var kids := Sequence(runs, 0).result.value;
    forall k | 0 <= k < |runs| ensures runs[k].result == Ok(kids[k]) {
      SequenceValueAt(runs, 0, k);
    }
  }

  /** Each single-child decorator holds the store built for its `backend`
      configuration as its backend. */
  lemma BackendRoleKept(env: Backends, c: StoreConfig)
    requires c.Verify? || c.Compression? || c.ExistenceCache?
    requires Build(env, c).result.Ok?
    ensures var s := Build(env, c).result.value;
      && (c.Verify? ==> s.VerifyStore?)
      && (c.Compression? ==> s.CompressionStore?)
      && (c.ExistenceCache? ==> s.ExistenceCacheStore?)
      && Build(env, c.backend).result == Ok(s.backend)
  {
    SuccessMirrorsConfig(env, c);
    assert Children(c)[0] == c.backend;
  }

  /** Each two-child decorator holds the stores built for its two child
      configurations in the roles they were declared in. */
  lemma PairRolesKept(env: Backends, c: StoreConfig)
    requires c.Dedup? || c.CompletenessChecking? || c.FastSlow? || c.SizePartitioning?
    requires Build(env, c).result.Ok?
    ensures var s := Build(env, c).result.value;
      && (c.Dedup? ==>
            && s.DedupStore?
            && Build(env, c.indexStore).result == Ok(s.indexStore)
            && Build(env, c.contentStore).result == Ok(s.contentStore))
      && (c.CompletenessChecking? ==>
            && s.CompletenessCheckingStore?
            && Build(env, c.backend).result == Ok(s.backend)
            && Build(env, c.casStore).result == Ok(s.casStore))
      && (c.FastSlow? ==>
            && s.FastSlowStore?
            && Build(env, c.fast).result == Ok(s.fast)
            && Build(env, c.slow).result == Ok(s.slow))
      && (c.SizePartitioning? ==>
            && s.SizePartitioningStore?
            && Build(env, c.lowerStore).result == Ok(s.lowerStore)
            && Build(env, c.upperStore).result == Ok(s.upperStore))
  {
    SuccessMirrorsConfig(env, c);
    var s, cs := Build(env, c).result.value, Children(c);
    assert Build(env, cs[0]).result == Ok(Subs(s)[0]);
    assert Build(env, cs[1]).result == Ok(Subs(s)[1]);
  }

  /** A built shard router holds one store per declared entry, the i-th
      being the build of the i-th entry's configuration. */
  lemma ShardChildrenInDeclaredOrder(env: Backends, c: StoreConfig)
    requires c.Shard? && Build(env, c).result.Ok?
    ensures var s := Build(env, c).result.value;
      && s.ShardStore? && s.spec == c.spec
      && |s.stores| == |c.stores|
      && forall i :: 0 <= i < |c.stores| ==> Build(env, c.stores[i].store).result == Ok(s.stores[i])
  {
    SuccessMirrorsConfig(env, c);
  }

  /** On success every node's constructor is called, and the trace has
      exactly one event per node of the configuration. */
  lemma {:induction false} SuccessConstructsEveryNode(env: Backends, c: StoreConfig)
    requires Build(env, c).result.Ok?
    ensures |Build(env, c).trace| == Size(c)
    ensures forall p :: IsNode(c, p) ==> p in Build(env, c).trace
    decreases c
  {
    var cs, runs := Children(c), BuildEach(env, c);
    SequenceSucceedsIff(runs, 0);
    SequenceTraceLength(runs, 0);
    var ls, sizes := TraceLengths(runs), seq(|cs|, k requires 0 <= k < |cs| => Size(cs[k]));
    forall k | 0 <= k < |cs| ensures ls[k] == sizes[k] {
      assert runs[k] == Build(env, cs[k]);
      SuccessConstructsEveryNode(env, cs[k]);
    }
    assert ls[0..] == ls == sizes;
    forall p | IsNode(c, p) ensures p in Build(env, c).trace {
      NodeConstructed(env, c, p);
    }
  }

  /** On success the node at path `p` is among the constructor calls. */
  lemma {:induction false} NodeConstructed(env: Backends, c: StoreConfig, p: Path)
    requires Build(env, c).result.Ok?
    requires IsNode(c, p)
    ensures p in Build(env, c).trace
    decreases |p|
  {
    if p != [] {
      var cs, runs := Children(c), BuildEach(env, c);
      var k, q := p[0], p[1..];
      assert IsNode(cs[k], q);
      assert runs[k] == Build(env, cs[k]);
      SequenceSucceedsIff(runs, 0);
      NodeConstructed(env, cs[k], q);
      var i :| 0 <= i < |runs[k].trace| && runs[k].trace[i] == q;
      SequenceContainsAll(runs, 0);
      assert p == [k] + runs[k].trace[i];
    }
  }

  // ---------------------------------------------------------------------
  // Failures

  /** The first failing child, in declared order, makes the whole node fail
      with that child's error. */
  lemma FirstFailingChildDecides(env: Backends, c: StoreConfig, k: nat)
    requires FirstFailingChild(env, c, k)
    ensures Build(env, c).result == Build(env, Children(c)[k]).result
  {
    SequenceFirstError(BuildEach(env, c), 0, k);
  }

  /** A shard reports the error of its lowest-index failing entry. */
  lemma ShardReportsLowestFailingEntry(env: Backends, c: StoreConfig, i: nat)
    requires c.Shard? && i < |c.stores|
    requires Build(env, c.stores[i].store).result.Err?
    requires forall j :: 0 <= j < i ==> Build(env, c.stores[j].store).result.Ok?
    ensures Build(env, c).result == Build(env, c.stores[i].store).result
  {
    FirstFailingChildDecides(env, c, i);
  }

  /** A failing child stops the node: no later sibling is attempted and the
      node's own constructor never runs. */
  lemma FailedChildStopsLaterSiblings(env: Backends, c: StoreConfig, k: nat)
    requires k < |Children(c)|
    requires Build(env, Children(c)[k]).result.Err?
    ensures Build(env, c).result.Err?
    ensures var t := Build(env, c).trace;
      forall i :: 0 <= i < |t| ==> t[i] != [] && t[i][0] <= k
  {
    SequenceStopsAt(BuildEach(env, c), 0, k);
  }

  /** A failure anywhere below the root fails the whole build. */
  lemma {:induction false} NestedFailureAbortsBuild(env: Backends, c: StoreConfig, p: Path)
    requires IsNode(c, p)
    requires Build(env, Node(c, p)).result.Err?
    ensures Build(env, c).result.Err?
    decreases |p|
  {
    if p != [] {
      NestedFailureAbortsBuild(env, Children(c)[p[0]], p[1..]);
      SequenceStopsAt(BuildEach(env, c), 0, p[0]);
    }
  }

  /** Once all children are built, these variants cannot fail; leaves and
      Ref have no children, so Memory, Noop and Ref always succeed. */
  lemma OwnStepCannotFail(env: Backends, c: StoreConfig)
    requires InfallibleOwnStep(c)
    requires forall k :: 0 <= k < |Children(c)| ==> Build(env, Children(c)[k]).result.Ok?
    ensures Build(env, c).result.Ok?
  {
    SequenceSucceedsIff(BuildEach(env, c), 0);
  }

  /** Compression can fail after its backend was built: CompressionStore::new
      may still reject its spec. */
  lemma CompressionCanFailAfterBackend(base: Backends, e: Error, name: string, spec: Spec, backend: StoreConfig)
    requires backend.Noop?
    ensures exists env: Backends ::
      Build(env, backend).result.Ok? && Build(env, Compression(name, spec, backend)).result == Err(e)
  {
    var env := base.(compression := (s: Spec, b: Store) => Fail(e));
    var c := Compression(name, spec, backend);
    OwnStepCannotFail(env, backend);
    assert BuildEach(env, c)[0] == Build(env, backend);
    SequenceSucceedsIff(BuildEach(env, c), 0);
    assert Build(env, c).result == Construct(env, c, Sequence(BuildEach(env, c), 0).result.value);
  }

  /** Dedup can fail after both its stores were built. */
  lemma DedupCanFailAfterChildren(base: Backends, e: Error, name: string, spec: Spec, child: StoreConfig)
    requires child.Noop?
    ensures exists env: Backends ::
      Build(env, child).result.Ok? && Build(env, Dedup(name, spec, child, child)).result == Err(e)
  {
    var env := base.(dedup := (s: Spec, a: Store, b: Store) => Fail(e));
    var c := Dedup(name, spec, child, child);
    OwnStepCannotFail(env, child);
    assert BuildEach(env, c)[0] == Build(env, child) && BuildEach(env, c)[1] == Build(env, child);
    SequenceSucceedsIff(BuildEach(env, c), 0);
    assert Build(env, c).result == Construct(env, c, Sequence(BuildEach(env, c), 0).result.value);
  }

  /** Shard can fail after all its entries were built. */
  lemma ShardCanFailAfterEntries(base: Backends, e: Error, name: string, spec: Spec, entry: ShardEntry)
    requires entry.store.Noop?
    ensures exists env: Backends ::
      Build(env, entry.store).result.Ok? && Build(env, Shard(name, spec, [entry])).result == Err(e)
  {
    var env := base.(shard := (s: Spec, w: seq<Spec>, b: seq<Store>) => Fail(e));
    var c := Shard(name, spec, [entry]);
    OwnStepCannotFail(env, entry.store);
    assert Children(c) == [entry.store];
    assert BuildEach(env, c)[0] == Build(env, entry.store);
    SequenceSucceedsIff(BuildEach(env, c), 0);
    assert Build(env, c).result == Construct(env, c, Sequence(BuildEach(env, c), 0).result.value);
  }

  /** Leaves and Ref make no nested build: their only constructor call is
      their own. */
  lemma LeafAndRefBuildNoChild(env: Backends, c: StoreConfig)
    requires IsLeaf(c) || c.Ref?
    ensures Build(env, c).trace == [[]]
    ensures c.Ref? ==> Build(env, c).result == Ok(RefStore(c.spec))
  {
  }

  // ---------------------------------------------------------------------
  // Order of construction

  lemma PrefixOfTails(p: Path, q: Path)
    requires p != [] && q != []
    ensures p < q ==> p[1..] < q[1..]
  {
  }

  lemma {:induction false} BeforeIsStrict(p: Path, q: Path)
    requires Before(p, q)
    ensures p != q && !(p < q)
    decreases |p|
  {
    if p != [] && q != [] && p[0] == q[0] {
      PrefixOfTails(p, q);
      BeforeIsStrict(p[1..], q[1..]);
    }
  }

  lemma UnderKeepsBefore(k: nat, p: Path, q: Path)
    ensures Before([k] + p, [k] + q) == Before(p, q)
  {
    assert ([k] + p)[1..] == p;
    assert ([k] + q)[1..] == q;
  }

  lemma ConcatInPostOrder(a: seq<Path>, b: seq<Path>)
    requires InPostOrder(a) && InPostOrder(b)
    requires forall i, j :: 0 <= i < |a| && 0 <= j < |b| ==> Before(a[i], b[j])
    ensures InPostOrder(a + b)
  {
    forall i, j | 0 <= i < j < |a + b| ensures Before((a + b)[i], (a + b)[j]) {
      if j < |a| {
      } else if i >= |a| {
        assert Before(b[i - |a|], b[j - |a|]);
      } else {
        assert Before(a[i], b[j - |a|]);
      }
    }
  }

  /** Every constructor call names a node of the configuration, and the
      calls come in post-order: each node after everything below it, and
      sibling subtrees in declared order. */
  lemma {:induction false} TraceShape(env: Backends, c: StoreConfig)
    ensures var t := Build(env, c).trace;
      InPostOrder(t) && forall i :: 0 <= i < |t| ==> IsNode(c, t[i])
    decreases c
  {
    var cs, runs := Children(c), BuildEach(env, c);
    forall k | 0 <= k < |cs|
      ensures InPostOrder(runs[k].trace)
      ensures forall i :: 0 <= i < |runs[k].trace| ==> IsNode(cs[k], runs[k].trace[i])
    {
      TraceShape(env, cs[k]);
    }
    SequenceTraceShape(runs, 0);
    var kids := Sequence(runs, 0);
    forall i | 0 <= i < |kids.trace| ensures IsNode(c, kids.trace[i]) {
      var p := kids.trace[i];
      assert p[1..] in runs[p[0]].trace;
    }
    if kids.result.Ok? {
      ConcatInPostOrder(kids.trace, [[]]);
    }
  }

  /** No node's constructor runs twice, and a node's constructor runs only
      after those of all nodes below it. */
  lemma ChildrenBeforeParent(env: Backends, c: StoreConfig)
    ensures var t := Build(env, c).trace;
      forall i, j :: 0 <= i < j < |t| ==> t[i] != t[j] && !(t[i] < t[j])
  {
    TraceShape(env, c);
    var t := Build(env, c).trace;
    forall i, j | 0 <= i < j < |t| ensures t[i] != t[j] && !(t[i] < t[j]) {
      BeforeIsStrict(t[i], t[j]);
    }
  }

  /** Sibling subtrees are built in declared order: everything under child
      `a` is constructed before anything under a later child `b`; in a
      two-child decorator the first child is built before the second. */
  lemma SiblingsInDeclaredOrder(env: Backends, c: StoreConfig)
    ensures var t := Build(env, c).trace;
      forall i, j :: 0 <= i < |t| && 0 <= j < |t| && t[i] != [] && t[j] != [] && t[i][0] < t[j][0] ==> i < j
  {
    TraceShape(env, c);
  }

  // ---------------------------------------------------------------------
  // Names are ignored

  lemma UnnamedChildren(c: StoreConfig)
    ensures |Children(Unnamed(c))| == |Children(c)|
    ensures forall k :: 0 <= k < |Children(c)| ==> Children(Unnamed(c))[k] == Unnamed(Children(c)[k])
  {
  }

  lemma ConstructIgnoresName(env: Backends, c: StoreConfig, kids: seq<Store>)
    requires |kids| == |Children(c)|
    ensures Construct(env, Unnamed(c), kids) == Construct(env, c, kids)
  {
    if c.Shard? {
      var u := Unnamed(c);
      assert seq(|u.stores|, k requires 0 <= k < |u.stores| => u.stores[k].settings)
          == seq(|c.stores|, k requires 0 <= k < |c.stores| => c.stores[k].settings);
    }
  }

  /** Building a configuration does not depend on any `name` field in it. */
  lemma {:induction false} NameIsIgnored(env: Backends, c: StoreConfig)
    ensures Build(env, Unnamed(c)) == Build(env, c)
    decreases c
  {
    var cs := Children(c);
    UnnamedChildren(c);
    forall k | 0 <= k < |cs| ensures Build(env, Children(Unnamed(c))[k]) == Build(env, cs[k]) {
      NameIsIgnored(env, cs[k]);
    }
    assert BuildEach(env, Unnamed(c)) == BuildEach(env, c);
    var kids := Sequence(BuildEach(env, c), 0);
    if kids.result.Ok? {
      ConstructIgnoresName(env, c, kids.result.value);
    }
  }

  /** Two configurations that differ only in their names build the same
      store tree with the same constructor calls. */
  lemma SameUpToNamesBuildsSame(env: Backends, c1: StoreConfig, c2: StoreConfig)
    requires Unnamed(c1) == Unnamed(c2)
    ensures Build(env, c1) == Build(env, c2)
  {
    NameIsIgnored(env, c1);
    NameIsIgnored(env, c2);
  }
}
