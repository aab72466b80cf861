// One execution of Query 4 from transaction batches to the batches of counts, behind deduplication:
// what every stage was given and did, with batches and messages in any order.
module Query4Execution {
  import opened Accounts
  import opened Query4
  import opened ScatterAndGather
  import opened PairSplits
  import opened PairCounts
  import opened HeavyMonitor
  import opened StringOrder
  import opened Query4Pipeline
  import DeltaLog
  import KeyedWorkers
  import Dedup
  import Positions
  import SealBarrier

  type Txs = seq<KeyedWorkers.Tx>

  /** One execution for one client. Per replica: its input queue, the history of its adjacency and where in
      it the heavy accounts are found and the cross product starts, and the order that takes; then what
      every accumulator was sent, in order of arrival, holds, and emits. */
  datatype Execution = Execution(
    txs: seq<Txs>,
    inputs: seq<seq<DeltaLog.Batch>>, graphs: seq<seq<DeltaLog.Replica>>, found: seq<nat>, ready: seq<nat>,
    local: seq<Heavy>, seal: seq<SealBarrier.State>, sealedAt: seq<nat>,
    walks: seq<seq<Path>>, sent: seq<seq<PairMessage>>,
    delivered: seq<seq<PairMessage>>, accs: seq<Counts>, orders: seq<seq<Pair>>)

  function EdgeOf(tx: KeyedWorkers.Tx): Edge {
    Edge(tx.from, tx.to)
  }

  function GraphOf(txs: seq<Txs>): Graph {
    set i, tx | 0 <= i < |txs| && tx in txs[i] :: EdgeOf(tx)
  }

  /** A bucket as the replica that owns its accounts receives it. */
  function BatchOf(role: Role, txs: Txs): DeltaLog.Batch {
    DeltaLog.Batch(role, seq(|txs|, i requires 0 <= i < |txs| => EdgeOf(txs[i])))
  }

  function BucketsOf(shards: KeyedWorkers.Shards, txs: Txs, role: Role, r: nat): Txs {
    KeyedWorkers.TxsOf(KeyedWorkers.SplitBuckets(shards, txs), (role, r))
  }

  /** Replica r's queue holds its buckets of every batch, in any order, perhaps repeatedly, and nothing else. */
  ghost predicate Delivers(shards: KeyedWorkers.Shards, txs: seq<Txs>, r: nat, input: seq<DeltaLog.Batch>) {
    && (forall i, role | 0 <= i < |txs| && BucketsOf(shards, txs[i], role, r) != [] ::
          BatchOf(role, BucketsOf(shards, txs[i], role, r)) in input)
    && (forall b <- input :: exists i :: 0 <= i < |txs| && b == BatchOf(b.role, BucketsOf(shards, txs[i], b.role, r)))
  }

  /** The replica has handled the EOF and not yet expanded its bridges. */
  ghost predicate HasShard(input: seq<DeltaLog.Batch>, run: seq<DeltaLog.Replica>, i: nat) {
    DeltaLog.IsRun(input, run) && i < |run| && run[i].flags.localDone && !run[i].flags.completed
  }

  function SealedHeavy(e: Execution, r: nat): Heavy
    requires r < |e.sealedAt| && e.sealedAt[r] < |e.seal| && r < |e.seal[e.sealedAt[r]].replicas|
  {
    e.seal[e.sealedAt[r]].replicas[r].mem.heavy
  }

  ghost predicate Sealed(e: Execution, r: nat) {
    && r < |e.sealedAt| && e.sealedAt[r] < |e.seal| && r < |e.seal[e.sealedAt[r]].replicas|
    && e.seal[e.sealedAt[r]].replicas[r].mem.sealed
  }

  function PathsOf(e: Execution, r: nat): set<Path>
    requires r < |e.graphs| && r < |e.ready| && e.ready[r] < |e.graphs[r]|
    requires r < |e.sealedAt| && e.sealedAt[r] < |e.seal| && r < |e.seal[e.sealedAt[r]].replicas|
  {
    var mem := e.graphs[r][e.ready[r]].mem;
    HeavyPaths(mem.scatter, mem.gather, SealedHeavy(e, r).sources, SealedHeavy(e, r).sinks)
  }

  /** Fewer pairs than the buffer holds, or no pair with two bridges: by NothingLostIff, just what keeps the
      loops from ever splitting a pair. */
  ghost predicate SplitsNoPair(max: nat, paths: set<Path>) {
    |PairsOf(paths)| < max || forall k :: |On(paths, k)| <= 1
  }

  ghost predicate Shaped(e: Execution) {
    && |e.inputs| == |e.graphs| == |e.found| == |e.ready| == |e.local| == |e.sealedAt| == |e.walks| == |e.sent|
    && |e.delivered| == |e.accs| == |e.orders|
  }

  /** What replica r of ScatterAndGather did. */
  ghost predicate ReplicaDid(shards: KeyedWorkers.Shards, t: nat, max: nat, e: Execution, r: nat)
    requires Shaped(e) && r < |e.inputs|
  {
    && Delivers(shards, e.txs, r, e.inputs[r])
    && HasShard(e.inputs[r], e.graphs[r], e.found[r]) && HasShard(e.inputs[r], e.graphs[r], e.ready[r])
    && (var mem := e.graphs[r][e.found[r]].mem; LocalHeavy(t, mem.scatter, mem.gather, e.local[r]))
    && Sealed(e, r)
    && IsWalk(e.walks[r], PathsOf(e, r)) && SplitsNoPair(max, PathsOf(e, r))
    && OnePerPair(FlushesOf(e.walks[r], max), e.sent[r])
  }

  /** What accumulator j did. */
  ghost predicate AccumulatorDid(route: Pair -> nat, e: Execution, j: nat)
    requires Shaped(e) && j < |e.accs|
  {
    && multiset(e.delivered[j]) == multiset(Routed(Flattened(e.sent), route, j))
    && e.accs[j] == AddedPairs(map[], e.delivered[j])
    && Elements(e.orders[j]) == e.accs[j].Keys && |e.orders[j]| == |e.accs[j]|
  }

  function Emitted(e: Execution, j: nat): seq<Batch>
    requires Shaped(e) && j < |e.accs|
  {
    Batches(EmitAll(e.orders[j], e.accs[j]))
  }

  ghost predicate Executed(shards: KeyedWorkers.Shards, route: Pair -> nat, t: nat, max: nat, e: Execution) {
    && Shaped(e) && SealBarrier.IsRun(e.local, e.seal)
    && (forall a :: shards.owner(a) < |e.inputs|) && (forall k :: route(k) < |e.accs|)
    && (forall r: nat :: r < |e.inputs| ==> ReplicaDid(shards, t, max, e, r))
    && (forall j: nat :: j < |e.accs| ==> AccumulatorDid(route, e, j))
  }

  // ---------------------------------------------------------------- from batches to shards

  lemma BatchEdges(role: Role, txs: Txs, x: Edge)
    ensures x in BatchOf(role, txs).edges <==> exists tx <- txs :: x == EdgeOf(tx)
  {
    var edges := BatchOf(role, txs).edges;
    if x in edges {
      var i :| 0 <= i < |edges| && edges[i] == x;
      assert txs[i] in txs;
    }
    if tx :| tx in txs && x == EdgeOf(tx) {
      var i :| 0 <= i < |txs| && txs[i] == tx;
      assert edges[i] == x;
    }
  }

  function EndOf(role: Role, x: Edge): Account {
    if role.Scatter? then x.from else x.to
  }

  lemma BucketMember(shards: KeyedWorkers.Shards, txs: Txs, role: Role, r: nat, tx: KeyedWorkers.Tx)
    requires !role.Unknown?
    ensures tx in BucketsOf(shards, txs, role, r) <==> tx in txs && shards.owner(EndOf(role, EdgeOf(tx))) == r
  {
    hide KeyedWorkers.TxsOf, KeyedWorkers.SplitBuckets;
    KeyedWorkers.SplitIsSharding(shards, txs, (role, r), tx);
  }

  /** What Spliter publishes under the replica's key and a role is the bucket the replica is taken to receive. */
  lemma BucketIsSent(naming: KeyedWorkers.Naming, shards: KeyedWorkers.Shards, parent: Dedup.MsgId, txs: Txs,
                     order: seq<KeyedWorkers.BucketKey>, sent: seq<KeyedWorkers.Message>, role: Role, r: nat)
    requires KeyedWorkers.IsShardSplit(naming, shards, parent, txs, order, sent) && shards.Named() && !role.Unknown?
    ensures BucketsOf(shards, txs, role, r) != [] <==> exists m <- sent :: m.key == shards.keyOf(r) && m.role == role
    ensures forall m <- sent :: m.key == shards.keyOf(r) && m.role == role ==> m.txs == BucketsOf(shards, txs, role, r)
  {
    hide KeyedWorkers.SplitBuckets, KeyedWorkers.ForShard, Positions.IsFiltered;
    var p := KeyedWorkers.ForShard(shards, (role, r));
    KeyedWorkers.SplitIsFiltered(shards, txs, (role, r));
    Positions.FilteredEmptyIff(txs, p, BucketsOf(shards, txs, role, r));
    forall i | 0 <= i < |sent| && sent[i].key == shards.keyOf(r) && sent[i].role == role
      ensures sent[i].txs == BucketsOf(shards, txs, role, r) && order[i] == (role, r) && (role, r) in order
    {
      assert KeyedWorkers.IsShardMessage(naming, shards, parent, txs, order[i], sent[i]);
      Positions.FilteredUnique(txs, p, sent[i].txs, BucketsOf(shards, txs, role, r));
    }
    if (role, r) in order {
      var i :| 0 <= i < |order| && order[i] == (role, r);
      assert KeyedWorkers.IsShardMessage(naming, shards, parent, txs, order[i], sent[i]);
      assert sent[i] in sent;
    }
  }

  lemma GraphEdge(txs: seq<Txs>, i: nat, tx: KeyedWorkers.Tx)
    requires i < |txs| && tx in txs[i]
    ensures EdgeOf(tx) in GraphOf(txs)
  {
  }

  lemma BatchInEdges(input: seq<DeltaLog.Batch>, b: DeltaLog.Batch, x: Edge)
    requires b in input && x in b.edges
    ensures x in DeltaLog.EdgesOf(input, b.role)
  {
    var i :| 0 <= i < |input| && input[i] == b;
  }

  /** So the queue of replica r carries exactly the edges whose end of that role it owns. */
  lemma ShardEdges(shards: KeyedWorkers.Shards, txs: seq<Txs>, r: nat, input: seq<DeltaLog.Batch>, role: Role)
    requires Delivers(shards, txs, r, input) && !role.Unknown?
    ensures DeltaLog.EdgesOf(input, role) == set x <- GraphOf(txs) | shards.owner(EndOf(role, x)) == r
  {
    hide BucketsOf, BatchOf, EdgeOf;
    forall x <- DeltaLog.EdgesOf(input, role) ensures x in GraphOf(txs) && shards.owner(EndOf(role, x)) == r {
      var k :| 0 <= k < |input| && input[k].role == role && x in input[k].edges;
      var i :| 0 <= i < |txs| && input[k] == BatchOf(role, BucketsOf(shards, txs[i], role, r));
      BatchEdges(role, BucketsOf(shards, txs[i], role, r), x);
      var tx :| tx in BucketsOf(shards, txs[i], role, r) && x == EdgeOf(tx);
      BucketMember(shards, txs[i], role, r, tx);
      GraphEdge(txs, i, tx);
    }
    forall x <- GraphOf(txs) | shards.owner(EndOf(role, x)) == r ensures x in DeltaLog.EdgesOf(input, role) {
      var i, tx :| 0 <= i < |txs| && tx in txs[i] && EdgeOf(tx) == x;
      BucketMember(shards, txs[i], role, r, tx);
      var b := BatchOf(role, BucketsOf(shards, txs[i], role, r));
      BatchEdges(role, BucketsOf(shards, txs[i], role, r), x);
      BatchRole(role, BucketsOf(shards, txs[i], role, r));
      BatchInEdges(input, b, x);
    }
  }

  lemma BatchRole(role: Role, txs: Txs)
    ensures BatchOf(role, txs).role == role
  {
  }

  /** Whoever has the local-done flag, over whatever crashes, holds its shard of the graph. */
  lemma ShardHeld(shards: KeyedWorkers.Shards, txs: seq<Txs>, r: nat, input: seq<DeltaLog.Batch>,
                  run: seq<DeltaLog.Replica>, i: nat)
    requires Delivers(shards, txs, r, input) && HasShard(input, run, i)
    ensures HoldsShard(GraphOf(txs), shards.owner, r, run[i].mem.scatter, run[i].mem.gather)
  {
    hide Delivers, DeltaLog.IsRun, DeltaLog.EdgesOf, DeltaLog.Invariant, HoldsShard, DeltaLog.Holds;
    DeltaLog.DoneMeansComplete(input, run, i);
    ShardEdges(shards, txs, r, input, Scatter);
    ShardEdges(shards, txs, r, input, Gather);
    var g := GraphOf(txs);
    assert (set x <- g | shards.owner(EndOf(Scatter, x)) == r) == set x <- g | shards.owner(x.from) == r;
    assert (set x <- g | shards.owner(EndOf(Gather, x)) == r) == set x <- g | shards.owner(x.to) == r;
    ShardFromBatches(g, shards.owner, r, input, run[i].mem.scatter, run[i].mem.gather);
  }

  /** Two replicas of one shard find the same heavy accounts. */
  lemma SameLocal(g: Graph, owner: Owner, r: nat, t: nat, s1: Adjacency, g1: Adjacency, s2: Adjacency, g2: Adjacency,
                  local: Heavy)
    requires HoldsShard(g, owner, r, s1, g1) && HoldsShard(g, owner, r, s2, g2) && t > 0 && LocalHeavy(t, s1, g1, local)
    ensures LocalHeavy(t, s2, g2, local)
  {
    forall a
      ensures Neighbors(s1, a) == Neighbors(s2, a) && Neighbors(g1, a) == Neighbors(g2, a)
      ensures a in local.sources <==> a in s2 && |s2[a]| >= t
      ensures a in local.sinks <==> a in g2 && |g2[a]| >= t
    {
      assert a in s1 && |s1[a]| >= t <==> |Neighbors(s1, a)| >= t;
      assert a in s2 && |s2[a]| >= t <==> |Neighbors(s2, a)| >= t;
      assert a in g1 && |g1[a]| >= t <==> |Neighbors(g1, a)| >= t;
      assert a in g2 && |g2[a]| >= t <==> |Neighbors(g2, a)| >= t;
    }
  }

  // ---------------------------------------------------------------- the parts of the pipeline

  function PartOf(max: nat, e: Execution, r: nat): Part
    requires Shaped(e) && r < |e.inputs| && e.ready[r] < |e.graphs[r]|
  {
    var mem := e.graphs[r][e.ready[r]].mem;
    Part(mem.scatter, mem.gather, e.local[r], FlushesOf(e.walks[r], max))
  }

  ghost function PartsOf(max: nat, e: Execution): seq<Part>
    requires Shaped(e) && forall r: nat :: r < |e.inputs| ==> e.ready[r] < |e.graphs[r]|
  {
    seq(|e.inputs|, r requires 0 <= r < |e.inputs| => PartOf(max, e, r))
  }

  lemma LocalsOfParts(max: nat, e: Execution)
    requires Shaped(e) && forall r: nat :: r < |e.inputs| ==> e.ready[r] < |e.graphs[r]|
    ensures Locals(PartsOf(max, e)) == e.local
  {
  }

  lemma PartShard(shards: KeyedWorkers.Shards, t: nat, max: nat, e: Execution, r: nat)
    requires Shaped(e) && r < |e.inputs| && ReplicaDid(shards, t, max, e, r) && t > 0
    ensures e.ready[r] < |e.graphs[r]|
    ensures var p := PartOf(max, e, r);
            HoldsShard(GraphOf(e.txs), shards.owner, r, p.scatter, p.gather)
                && LocalHeavy(t, p.scatter, p.gather, p.local)
  {
    hide Delivers, HoldsShard, LocalHeavy, IsWalk, SplitsNoPair, OnePerPair, GraphOf, DeltaLog.IsRun, PathsOf,
         FlushesOf;
    ShardHeld(shards, e.txs, r, e.inputs[r], e.graphs[r], e.found[r]);
    ShardHeld(shards, e.txs, r, e.inputs[r], e.graphs[r], e.ready[r]);
    var f, p := e.graphs[r][e.found[r]].mem, e.graphs[r][e.ready[r]].mem;
    SameLocal(GraphOf(e.txs), shards.owner, r, t, f.scatter, f.gather, p.scatter, p.gather, e.local[r]);
  }

  lemma SealedUnion(shards: KeyedWorkers.Shards, t: nat, max: nat, e: Execution, r: nat)
    requires Shaped(e) && r < |e.inputs| && ReplicaDid(shards, t, max, e, r) && SealBarrier.IsRun(e.local, e.seal)
    ensures Sealed(e, r) && SealedHeavy(e, r) == SealBarrier.Union(e.local)
  {
    hide Delivers, HasShard, LocalHeavy, IsWalk, SplitsNoPair, OnePerPair, PathsOf, SealBarrier.IsRun,
         SealBarrier.Union;
    SealBarrier.SealedIsUnion(e.local, e.seal, e.sealedAt[r], r);
  }

  lemma PartStreamed(shards: KeyedWorkers.Shards, t: nat, max: nat, e: Execution, r: nat)
    requires Shaped(e) && r < |e.inputs| && ReplicaDid(shards, t, max, e, r) && SealBarrier.IsRun(e.local, e.seal)
             && max > 0
    ensures e.ready[r] < |e.graphs[r]|
    ensures var (p, heavy) := (PartOf(max, e, r), SealBarrier.Union(e.local));
            var paths := HeavyPaths(p.scatter, p.gather, heavy.sources, heavy.sinks);
            Streamed(p.flushes, max, paths) && SplitsNoPair(max, paths)
  {
    SealedUnion(shards, t, max, e, r);
    hide Delivers, LocalHeavy, IsWalk, SplitsNoPair, OnePerPair, SealBarrier.IsRun, SealBarrier.Union, FlushesOf,
         HeavyPaths;
    WalkStreams(e.walks[r], max, PathsOf(e, r));
  }

  /** The execution is one of the pipeline's. */
  lemma ExecutionIsPipeline(shards: KeyedWorkers.Shards, route: Pair -> nat, t: nat, max: nat, e: Execution)
    requires Executed(shards, route, t, max, e) && t > 0 && max > 0
    ensures forall r: nat :: r < |e.inputs| ==> e.ready[r] < |e.graphs[r]|
    ensures ShardsComplete(GraphOf(e.txs), shards.owner, t, PartsOf(max, e)) && PartsStreamed(max, PartsOf(max, e))
    ensures Accumulated(PartsOf(max, e), route, e.accs)
  {
    hide ReplicaDid, HoldsShard, LocalHeavy, Streamed, HeavyPaths, SealBarrier.IsRun, SealBarrier.Union, GraphOf,
         FlushesOf,
         PairsOf, On, OnePerPair, Routed, Flattened, AddedPairs, PartCount;
    forall r: nat | r < |e.inputs|
      ensures e.ready[r] < |e.graphs[r]|
      ensures var p := PartOf(max, e, r);
              && HoldsShard(GraphOf(e.txs), shards.owner, r, p.scatter, p.gather)
                 && LocalHeavy(t, p.scatter, p.gather, p.local)
              && var heavy := SealBarrier.Union(e.local);
                 var paths := HeavyPaths(p.scatter, p.gather, heavy.sources, heavy.sinks);
                 Streamed(p.flushes, max, paths) && SplitsNoPair(max, paths)
      ensures OnePerPair(PartOf(max, e, r).flushes, e.sent[r])
    {
      PartShard(shards, t, max, e, r);
      PartStreamed(shards, t, max, e, r);
      PartSent(shards, t, max, e, r);
    }
    LocalsOfParts(max, e);
    forall j: nat | j < |e.accs|
      ensures multiset(e.delivered[j]) == multiset(Routed(Flattened(e.sent), route, j))
      ensures e.accs[j] == AddedPairs(map[], e.delivered[j])
    {
      assert AccumulatorDid(route, e, j);
    }
    DeliveriesAccumulate(PartsOf(max, e), e.sent, route, e.delivered, e.accs);
  }

  lemma PartSent(shards: KeyedWorkers.Shards, t: nat, max: nat, e: Execution, r: nat)
    requires Shaped(e) && r < |e.inputs| && ReplicaDid(shards, t, max, e, r)
    ensures e.ready[r] < |e.graphs[r]| && OnePerPair(PartOf(max, e, r).flushes, e.sent[r])
  {
    hide Delivers, LocalHeavy, IsWalk, SplitsNoPair, OnePerPair, FlushesOf, HeavyPaths;
  }

  // ---------------------------------------------------------------- from accumulators to the result

  lemma {:induction false} AddedFrom(msgs: seq<PairMessage>, k: Pair)
    requires k in AddedPairs(map[], msgs)
    ensures exists m <- msgs :: m.0 == k
  {
    var init, m := msgs[..|msgs| - 1], msgs[|msgs| - 1];
    assert msgs == init + [m];
    if m.0 != k {
      AddedFrom(init, k);
    }
  }

  lemma {:induction false} RoutedFrom(msgs: seq<PairMessage>, route: Pair -> nat, j: nat, m: PairMessage)
    requires m in Routed(msgs, route, j)
    ensures m in msgs
  {
    var init, last := msgs[..|msgs| - 1], msgs[|msgs| - 1];
    assert msgs == init + [last];
    if m in Routed(init, route, j) {
      RoutedFrom(init, route, j, m);
    }
  }

  lemma {:induction false} FlattenedFrom(sent: seq<seq<PairMessage>>, m: PairMessage) returns (r: nat)
    requires m in Flattened(sent)
    ensures r < |sent| && m in sent[r]
  {
    var n := |sent| - 1;
    if m in sent[n] {
      r := n;
    } else {
      r := FlattenedFrom(sent[..n], m);
    }
  }

  /** Whatever an accumulator counts is a pair of accounts of the graph. */
  lemma AccumulatedPair(shards: KeyedWorkers.Shards, route: Pair -> nat, t: nat, max: nat, e: Execution, j: nat,
                        k: Pair)
    returns (u: Account, v: Account)
    requires Executed(shards, route, t, max, e) && t > 0 && max > 0 && j < |e.accs| && k in e.accs[j]
    requires AllReadable(GraphOf(e.txs))
    ensures Readable(u) && k == PairOf(u, v)
  {
    hide Delivers, LocalHeavy, FlushesOf, HeavyPaths, Routed, Flattened, AddedPairs, FirstCount, On, PairsOf,
         AllReadable,
         Emitted, SealBarrier.IsRun, IsWalk, Streamed, GraphOf;
    assert AccumulatorDid(route, e, j);
    AddedFrom(e.delivered[j], k);
    var m :| m in e.delivered[j] && m.0 == k;
    assert m in multiset(e.delivered[j]);
    RoutedFrom(Flattened(e.sent), route, j, m);
    var r := FlattenedFrom(e.sent, m);
    assert ReplicaDid(shards, t, max, e, r);
    WalkStreams(e.walks[r], max, PathsOf(e, r));
    StreamLosesNothing(FlushesOf(e.walks[r], max), max, PathsOf(e, r));
    var p := StreamedPath(FlushesOf(e.walks[r], max), max, PathsOf(e, r), k);
    u, v := p.src, p.dst;
    PathReadable(shards, t, max, e, r, p);
  }

  lemma StreamedPath(flushes: seq<Counts>, max: nat, paths: set<Path>, k: Pair) returns (p: Path)
    requires Streamed(flushes, max, paths) && NothingLost(flushes) && FirstCount(flushes, k) > 0
    ensures p in paths && PairOf(p.src, p.dst) == k
  {
    hide FirstCount, TotalOf;
    assert |On(paths, k)| > 0;
    p := OnMember(paths, k);
  }

  lemma PathReadable(shards: KeyedWorkers.Shards, t: nat, max: nat, e: Execution, r: nat, p: Path)
    requires Shaped(e) && r < |e.inputs| && ReplicaDid(shards, t, max, e, r) && p in PathsOf(e, r)
    requires AllReadable(GraphOf(e.txs))
    ensures Readable(p.src)
  {
    hide Delivers, LocalHeavy, FlushesOf, HeavyPaths, IsWalk, SplitsNoPair, OnePerPair, GraphOf, HoldsShard,
         DeltaLog.IsRun;
    var mem, g := e.graphs[r][e.ready[r]].mem, GraphOf(e.txs);
    ShardHeld(shards, e.txs, r, e.inputs[r], e.graphs[r], e.ready[r]);
    var heavy := SealedHeavy(e, r);
    PathInShard(g, shards.owner, r, mem.scatter, mem.gather, heavy.sources, heavy.sinks, p);
    OwnedIsBridge(g, shards.owner, r, p.src, p.dst, p.bridge);
    BridgeReadable(g, p.src, p.bridge, p.dst);
  }

  lemma BridgeReadable(g: Graph, u: Account, b: Account, v: Account)
    requires AllReadable(g) && b in Bridges(g, u, v)
    ensures Readable(u)
  {
  }

  /** So the keys of what it counts tell the pairs apart. */
  lemma KeysApart(shards: KeyedWorkers.Shards, route: Pair -> nat, t: nat, max: nat, e: Execution, j: nat)
    requires Executed(shards, route, t, max, e) && t > 0 && max > 0 && j < |e.accs| && AllReadable(GraphOf(e.txs))
    ensures Distinct(e.accs[j].Keys, (p: Pair) => p.Key())
  {
    hide Distinct, Readable, AllReadable, GraphOf, ReplicaDid, Routed, Flattened, AddedPairs, SealBarrier.IsRun;
    forall k <- e.accs[j].Keys ensures exists u: Account, v: Account :: Readable(u) && k == PairOf(u, v) {
      var u, v := AccumulatedPair(shards, route, t, max, e, j, k);
    }
    ReadableKeysDistinct(e.accs[j].Keys);
  }

  lemma EmittedSelects(shards: KeyedWorkers.Shards, route: Pair -> nat, t: nat, max: nat, e: Execution, j: nat,
                       a: Account)
    requires Executed(shards, route, t, max, e) && t > 0 && max > 0 && j < |e.accs| && AllReadable(GraphOf(e.txs))
    ensures PassesThreshold(Emitted(e, j), t, a) <==> a in Selected(e.accs[j], t)
  {
    hide EmitAll, Batches, Selected, PassesThreshold, Distinct, Readable, AllReadable, GraphOf, ReplicaDid,
         Routed, Flattened, AddedPairs, SealBarrier.IsRun;
    KeysApart(shards, route, t, max, e, j);
    assert AccumulatorDid(route, e, j);
    BatchesSelect(e.accs[j], e.orders[j], t, a);
  }

  /** From any batches of transactions between readable accounts, split over any number of replicas, in any
      order: what the threshold lets through of the accumulators' batches is the centralised result. */
  lemma SelectedIsReference(shards: KeyedWorkers.Shards, route: Pair -> nat, t: nat, max: nat, e: Execution, a: Account)
    requires Executed(shards, route, t, max, e) && t > 0 && max > 0 && AllReadable(GraphOf(e.txs))
    ensures (exists j :: 0 <= j < |e.accs| && PassesThreshold(Emitted(e, j), t, a))
            <==> a in Reference(GraphOf(e.txs), t)
  {
    hide Reference, AllReadable, GraphOf, ReplicaDid, AccumulatorDid, Emitted, PassesThreshold, Selected,
         ShardsComplete, PartsStreamed, Accumulated, SealBarrier.IsRun;
    ExecutionIsPipeline(shards, route, t, max, e);
    PipelineRefinesReference(GraphOf(e.txs), shards.owner, t, max, PartsOf(max, e), route, e.accs, a);
    forall j: nat | j < |e.accs| ensures PassesThreshold(Emitted(e, j), t, a) <==> a in Selected(e.accs[j], t) {
      EmittedSelects(shards, route, t, max, e, j, a);
    }
  }
}
