// Query 4 end to end: sharded edges, exchanged heavy accounts, streamed partial counts,
// sharded accumulators, threshold and union give exactly the centralised result.
module Query4Pipeline {
  import opened Accounts
  import opened Query4
  import opened ScatterAndGather
  import opened PairCounts
  import opened PairSplits
  import opened HeavyMonitor
  import opened StringOrder
  import DeltaLog
  import SealBarrier

// ---------------------------------------------------------------- one replica's counts

  /** Replica r's complete adjacency: the out-edges and in-edges of the accounts it owns. */
  ghost predicate HoldsShard(g: Graph, owner: Owner, r: nat, scatter: Adjacency, gather: Adjacency) {
    && (forall a :: Neighbors(scatter, a) == if owner(a) == r then OutOf(g, a) else {})
    && (forall a :: Neighbors(gather, a) == if owner(a) == r then InTo(g, a) else {})
  }

  lemma {:induction false} BridgesCard(paths: set<Path>, bridges: set<Account>, u: Account, v: Account)
    requires forall p <- paths :: p.src == u && p.dst == v && p.bridge in bridges
    requires forall b <- bridges :: Path(u, b, v) in paths
    ensures |paths| == |bridges|
  {
    if bridges == {} {
      assert paths == {};
    } else {
      var b :| b in bridges;
      BridgesCard(paths - {Path(u, b, v)}, bridges - {b}, u, v);
    }
  }

  ghost predicate AllReadable(g: Graph) {
    forall e <- g :: Readable(e.from) && Readable(e.to)
  }

  lemma PathInShard(g: Graph, owner: Owner, r: nat, scatter: Adjacency, gather: Adjacency,
                    sources: set<Account>, sinks: set<Account>, p: Path)
    requires HoldsShard(g, owner, r, scatter, gather)
    ensures p in HeavyPaths(scatter, gather, sources, sinks) <==>
            p.bridge in OwnedBy(Bridges(g, p.src, p.dst), owner, r) && p.src in sources && p.dst in sinks
  {
    assert p.dst in Neighbors(scatter, p.bridge) ==> p.bridge in scatter;
    assert p.dst in OutOf(g, p.bridge) <==> p.bridge in InTo(g, p.dst);
    assert p.src in InTo(g, p.bridge) <==> p.bridge in OutOf(g, p.src);
  }

  /** A replica counts, for a heavy pair, the bridges it owns, and for any other pair of accounts nothing. */
  lemma ReplicaCounts(g: Graph, owner: Owner, r: nat, scatter: Adjacency, gather: Adjacency,
                      sources: set<Account>, sinks: set<Account>, u: Account, v: Account)
    requires HoldsShard(g, owner, r, scatter, gather) && AllReadable(g) && '-' !in u.bank && '-' !in v.bank
    ensures |On(HeavyPaths(scatter, gather, sources, sinks), PairOf(u, v))| ==
            if u in sources && v in sinks then |OwnedBy(Bridges(g, u, v), owner, r)| else 0
  {
    var paths := HeavyPaths(scatter, gather, sources, sinks);
    var on := On(paths, PairOf(u, v));
    var bridges := OwnedBy(Bridges(g, u, v), owner, r);
    forall p <- on ensures p.src == u && p.dst == v && p.bridge in bridges && u in sources && v in sinks {
      PathInShard(g, owner, r, scatter, gather, sources, sinks, p);
      PathAccounts(g, p.src, p.bridge, p.dst);
      PairInjective(p.src, p.dst, u, v);
    }
    if u in sources && v in sinks {
      forall b <- bridges ensures Path(u, b, v) in on {
        PathInShard(g, owner, r, scatter, gather, sources, sinks, Path(u, b, v));
      }
      hide HeavyPaths, On, OwnedBy, Bridges;
      BridgesCard(on, bridges, u, v);
    } else {
      assert on == {};
    }
  }

  lemma PathAccounts(g: Graph, u: Account, b: Account, v: Account)
    requires AllReadable(g) && b in Bridges(g, u, v)
    ensures '-' !in u.bank && '-' !in v.bank
  {
  }

  // ---------------------------------------------------------------- the exchanged heavy accounts

  /** The local heavy accounts, as FindHeavyAccounts takes them from complete adjacency. */
  ghost predicate LocalHeavy(t: nat, scatter: Adjacency, gather: Adjacency, local: Heavy) {
    && (forall a :: a in local.sources <==> a in scatter && |scatter[a]| >= t)
    && (forall a :: a in local.sinks <==> a in gather && |gather[a]| >= t)
  }

  lemma {:induction false} InUnion(local: seq<Heavy>, a: Account)
    ensures a in SealBarrier.Union(local).sources <==> exists r :: 0 <= r < |local| && a in local[r].sources
    ensures a in SealBarrier.Union(local).sinks <==> exists r :: 0 <= r < |local| && a in local[r].sinks
  {
    if local != [] {
      var n := |local| - 1;
      InUnion(local[..n], a);
      assert forall r :: 0 <= r < n ==> local[..n][r] == local[r];
    }
  }

  /** One replica and what it computed. */
  datatype Part = Part(scatter: Adjacency, gather: Adjacency, local: Heavy, flushes: seq<Counts>)

  function Locals(parts: seq<Part>): seq<Heavy> {
    seq(|parts|, i requires 0 <= i < |parts| => parts[i].local)
  }

  ghost predicate ShardsComplete(g: Graph, owner: Owner, t: nat, parts: seq<Part>) {
    && (forall a :: owner(a) < |parts|)
    && forall r :: 0 <= r < |parts| ==>
         && HoldsShard(g, owner, r, parts[r].scatter, parts[r].gather)
         && LocalHeavy(t, parts[r].scatter, parts[r].gather, parts[r].local)
  }

  /** The union the seal barrier delivers is the set of globally heavy accounts. */
  lemma SealedIsGlobal(g: Graph, owner: Owner, t: nat, parts: seq<Part>, a: Account)
    requires ShardsComplete(g, owner, t, parts) && t > 0
    ensures a in SealBarrier.Union(Locals(parts)).sources <==> HeavySource(g, t, a)
    ensures a in SealBarrier.Union(Locals(parts)).sinks <==> HeavySink(g, t, a)
  {
    InUnion(Locals(parts), a);
    var r := owner(a);
    LocalIsGlobal(g, owner, t, r, parts[r].scatter, parts[r].gather, parts[r].local, a);
    assert Locals(parts)[r] == parts[r].local;
    forall q | 0 <= q < |parts| && q != r ensures a !in Locals(parts)[q].sources && a !in Locals(parts)[q].sinks {
      LocalIsGlobal(g, owner, t, q, parts[q].scatter, parts[q].gather, parts[q].local, a);
    }
  }

  lemma LocalIsGlobal(g: Graph, owner: Owner, t: nat, r: nat, scatter: Adjacency, gather: Adjacency, local: Heavy,
                      a: Account)
    requires HoldsShard(g, owner, r, scatter, gather) && LocalHeavy(t, scatter, gather, local) && t > 0
    ensures a in local.sources <==> owner(a) == r && HeavySource(g, t, a)
    ensures a in local.sinks <==> owner(a) == r && HeavySink(g, t, a)
  {
    assert Neighbors(scatter, a) == if owner(a) == r then OutOf(g, a) else {};
    assert Neighbors(gather, a) == if owner(a) == r then InTo(g, a) else {};
  }

  // ---------------------------------------------------------------- end to end

  /** Every replica streamed its part, pruned by what the barrier sealed, and splits no pair. */
  ghost predicate PartsStreamed(max: nat, parts: seq<Part>) {
    var heavy := SealBarrier.Union(Locals(parts));
    forall r :: 0 <= r < |parts| ==>
      var paths := HeavyPaths(parts[r].scatter, parts[r].gather, heavy.sources, heavy.sinks);
      Streamed(parts[r].flushes, max, paths) && (|PairsOf(paths)| < max || forall k :: |On(paths, k)| <= 1)
  }

  ghost function PartCount(parts: seq<Part>, k: Pair): nat -> nat {
    (r: nat) => if r < |parts| then FirstCount(parts[r].flushes, k) else 0
  }

  lemma StreamedCount(max: nat, parts: seq<Part>, r: nat, k: Pair)
    requires PartsStreamed(max, parts) && r < |parts|
    ensures var heavy := SealBarrier.Union(Locals(parts));
            FirstCount(parts[r].flushes, k) == |On(HeavyPaths(parts[r].scatter, parts[r].gather, heavy.sources,
                heavy.sinks), k)|
  {
    hide On, HeavyPaths, FirstCount, TotalOf, PairsOf, SealBarrier.Union, Locals;
    var heavy := SealBarrier.Union(Locals(parts));
    var paths := HeavyPaths(parts[r].scatter, parts[r].gather, heavy.sources, heavy.sinks);
    StreamLosesNothing(parts[r].flushes, max, paths);
    assert TotalOf(parts[r].flushes, k) == |On(paths, k)|;
  }

  /** Adding up what survives deduplication gives every heavy pair its bridges, all of them, once. */
  lemma SummedCounts(g: Graph, owner: Owner, t: nat, max: nat, parts: seq<Part>, u: Account, v: Account)
    requires ShardsComplete(g, owner, t, parts) && PartsStreamed(max, parts) && t > 0
    requires AllReadable(g) && '-' !in u.bank && '-' !in v.bank
    ensures SumBelow(|parts|, PartCount(parts, PairOf(u, v))) ==
            if HeavySource(g, t, u) && HeavySink(g, t, v) then |Bridges(g, u, v)| else 0
  {
    hide FirstCount, HeavyPaths, On, Bridges, OwnedBy, PartsStreamed, SealBarrier.Union, HeavySource, HeavySink,
         HoldsShard;
    var heavy := SealBarrier.Union(Locals(parts));
    var f := PartCount(parts, PairOf(u, v));
    SealedIsGlobal(g, owner, t, parts, u);
    SealedIsGlobal(g, owner, t, parts, v);
    forall r: nat | r < |parts|
      ensures f(r) == if HeavySource(g, t, u) && HeavySink(g, t, v) then |OwnedBy(Bridges(g, u, v), owner, r)| else 0
    {
      StreamedCount(max, parts, r, PairOf(u, v));
      ReplicaCounts(g, owner, r, parts[r].scatter, parts[r].gather, heavy.sources, heavy.sinks, u, v);
    }
    if HeavySource(g, t, u) && HeavySink(g, t, v) {
      ShardsPartitionBridges(g, owner, |parts|, u, v, f);
    } else {
      SumOfZeros(|parts|, f);
    }
  }

  lemma {:induction false} SumOfZeros(n: nat, f: nat -> nat)
    requires forall r: nat :: r < n ==> f(r) == 0
    ensures SumBelow(n, f) == 0
  {
    if n > 0 {
      SumOfZeros(n - 1, f);
    }
  }

  lemma {:induction false} SumPositive(n: nat, f: nat -> nat) returns (r: nat)
    requires SumBelow(n, f) > 0
    ensures r < n && f(r) > 0
  {
    if f(n - 1) > 0 {
      r := n - 1;
    } else {
      r := SumPositive(n - 1, f);
    }
  }

  /** The accumulators: each pair is summed by the one its key is routed to. */
  ghost predicate Accumulated(parts: seq<Part>, route: Pair -> nat, accs: seq<Counts>) {
    && (forall k :: route(k) < |accs|)
    && forall j, k :: 0 <= j < |accs| ==>
         CountOf(accs[j], k) == if route(k) == j then SumBelow(|parts|, PartCount(parts, k)) else 0
  }

  ghost predicate InResult(accs: seq<Counts>, t: nat, a: Account) {
    exists j :: 0 <= j < |accs| && a in Selected(accs[j], t)
  }

  /** A selected pair is a pair of accounts of the graph with enough bridges. */
  lemma SelectedQualifies(g: Graph, owner: Owner, t: nat, max: nat, parts: seq<Part>, k: Pair)
    returns (u: Account, v: Account)
    requires ShardsComplete(g, owner, t, parts) && PartsStreamed(max, parts) && t > 0 && AllReadable(g)
    requires SumBelow(|parts|, PartCount(parts, k)) >= t
    ensures k == PairOf(u, v) && '-' !in u.bank && '-' !in v.bank && |Bridges(g, u, v)| >= t
  {
    hide FirstCount, HeavyPaths, On, Bridges, OwnedBy, PartsStreamed, SealBarrier.Union, SumBelow, HoldsShard;
    var heavy := SealBarrier.Union(Locals(parts));
    var r := SumPositive(|parts|, PartCount(parts, k));
    StreamedCount(max, parts, r, k);
    var p := OnMember(HeavyPaths(parts[r].scatter, parts[r].gather, heavy.sources, heavy.sinks), k);
    PathInShard(g, owner, r, parts[r].scatter, parts[r].gather, heavy.sources, heavy.sinks, p);
    OwnedIsBridge(g, owner, r, p.src, p.dst, p.bridge);
    PathAccounts(g, p.src, p.bridge, p.dst);
    u, v := p.src, p.dst;
    SummedCounts(g, owner, t, max, parts, u, v);
  }

  lemma OwnedIsBridge(g: Graph, owner: Owner, r: nat, u: Account, v: Account, b: Account)
    requires b in OwnedBy(Bridges(g, u, v), owner, r)
    ensures b in Bridges(g, u, v)
  {
  }

  lemma OnMember(paths: set<Path>, k: Pair) returns (p: Path)
    requires |On(paths, k)| > 0
    ensures p in paths && PairOf(p.src, p.dst) == k
  {
    p :| p in On(paths, k);
  }

  /** For every graph, sharding, replica count and flush history that splits no pair: the union of what the
      accumulators select is the centralised result. */
  lemma PipelineRefinesReference(g: Graph, owner: Owner, t: nat, max: nat, parts: seq<Part>, route: Pair -> nat,
                                 accs: seq<Counts>, a: Account)
    requires t > 0 && AllReadable(g)
    requires ShardsComplete(g, owner, t, parts) && PartsStreamed(max, parts) && Accumulated(parts, route, accs)
    ensures InResult(accs, t, a) <==> a in Reference(g, t)
  {
    hide ShardsComplete, PartsStreamed, SumBelow, PartCount, Bridges, Reference;
    ReferenceIff(g, t, a);
    if InResult(accs, t, a) {
      var j :| 0 <= j < |accs| && a in Selected(accs[j], t);
      var k := SelectedPair(accs[j], t, a);
      var u, v := SelectedQualifies(g, owner, t, max, parts, k);
      AccountRoundTripIff(u);
      AccountRoundTripIff(v);
    }
    if Qualifies(g, t, a) {
      var u: Account, v: Account :| |Bridges(g, u, v)| >= t && (a == u || a == v);
      PruneSound(g, t, u, v);
      BridgedAreReadable(g, t, u, v);
      SummedCounts(g, owner, t, max, parts, u, v);
      var k := PairOf(u, v);
      var j := route(k);
      assert CountOf(accs[j], k) >= t;
      SelectedEnds(accs[j], t, u, v);
    }
  }

  lemma SelectedPair(acc: Counts, t: nat, a: Account) returns (k: Pair)
    requires a in Selected(acc, t)
    ensures k in acc && acc[k] >= t && (a == AccountFromId(k.src) || a == AccountFromId(k.dst))
  {
    k :| k in acc && acc[k] >= t && (a == AccountFromId(k.src) || a == AccountFromId(k.dst));
  }

  lemma SelectedEnds(acc: Counts, t: nat, u: Account, v: Account)
    requires CountOf(acc, PairOf(u, v)) >= t && t > 0 && '-' !in u.bank && '-' !in v.bank
    ensures u in Selected(acc, t) && v in Selected(acc, t)
  {
    AccountRoundTripIff(u);
    AccountRoundTripIff(v);
    assert PairOf(u, v) in acc && acc[PairOf(u, v)] >= t;
  }

  lemma BridgedAreReadable(g: Graph, t: nat, u: Account, v: Account)
    requires AllReadable(g) && |Bridges(g, u, v)| >= t && t > 0
    ensures '-' !in u.bank && '-' !in v.bank
  {
    BridgeEdges(g, u, v);
  }

  // ---------------------------------------------------------------- what the stages in between contribute

  /** The batches a replica was sent carry exactly the edges it owns an end of. */
  lemma ShardFromBatches(g: Graph, owner: Owner, r: nat, batches: seq<DeltaLog.Batch>, scatter: Adjacency,
                         gather: Adjacency)
    requires DeltaLog.EdgesOf(batches, Scatter) == set e <- g | owner(e.from) == r
    requires DeltaLog.EdgesOf(batches, Gather) == set e <- g | owner(e.to) == r
    requires DeltaLog.Holds(scatter, gather, batches)
    ensures HoldsShard(g, owner, r, scatter, gather)
  {
    hide DeltaLog.EdgesOf;
    forall a ensures Neighbors(scatter, a) == if owner(a) == r then OutOf(g, a) else {} {
      forall n ensures n in Neighbors(scatter, a) <==> owner(a) == r && n in OutOf(g, a) {
        assert Edge(a, n) in g <==> n in OutOf(g, a);
      }
    }
    forall a ensures Neighbors(gather, a) == if owner(a) == r then InTo(g, a) else {} {
      forall n ensures n in Neighbors(gather, a) <==> owner(a) == r && n in InTo(g, a) {
        assert Edge(n, a) in g <==> n in InTo(g, a);
      }
    }
  }

  /** What is left of a replica's messages behind deduplication: one per pair, in any order. */
  ghost predicate OnePerPair(flushes: seq<Counts>, msgs: seq<PairMessage>) {
    && (forall m <- msgs :: m.1 == FirstCount(flushes, m.0) > 0)
    && (forall k :: FirstCount(flushes, k) > 0 ==> exists i :: 0 <= i < |msgs| && msgs[i].0 == k)
    && (forall i, j :: 0 <= i < j < |msgs| ==> msgs[i].0 != msgs[j].0)
  }

  lemma {:induction false} AbsentSum(msgs: seq<PairMessage>, k: Pair)
    requires forall m <- msgs :: m.0 != k
    ensures SumOn(msgs, k) == 0
  {
    if msgs != [] {
      AbsentSum(msgs[..|msgs| - 1], k);
    }
  }

  lemma OthersDiffer(msgs: seq<PairMessage>, i: nat)
    requires i < |msgs| && forall a, b :: 0 <= a < b < |msgs| ==> msgs[a].0 != msgs[b].0
    ensures forall m <- Without(msgs, i) :: m.0 != msgs[i].0
  {
  }

  lemma SentSum(flushes: seq<Counts>, msgs: seq<PairMessage>, k: Pair)
    requires OnePerPair(flushes, msgs)
    ensures SumOn(msgs, k) == FirstCount(flushes, k)
  {
    hide SumOn, FirstCount;
    if FirstCount(flushes, k) > 0 {
      var i :| 0 <= i < |msgs| && msgs[i].0 == k;
      WithoutCounts(msgs, i, k);
      OthersDiffer(msgs, i);
      hide Without;
      AbsentSum(Without(msgs, i), k);
    } else {
      AbsentSum(msgs, k);
    }
  }

  function Routed(msgs: seq<PairMessage>, route: Pair -> nat, j: nat): seq<PairMessage> {
    if msgs == [] then []
    else
      var m := msgs[|msgs| - 1];
      Routed(msgs[..|msgs| - 1], route, j) + if route(m.0) == j then [m] else []
  }

  lemma RoutedSnoc(msgs: seq<PairMessage>, m: PairMessage, route: Pair -> nat, j: nat)
    ensures Routed(msgs + [m], route, j) == if route(m.0) == j then Routed(msgs, route, j) + [m]
            else Routed(msgs, route, j)
  {
    assert (msgs + [m])[..|msgs|] == msgs;
  }

  lemma {:induction false} RoutedSum(msgs: seq<PairMessage>, route: Pair -> nat, j: nat, k: Pair)
    ensures SumOn(Routed(msgs, route, j), k) == if route(k) == j then SumOn(msgs, k) else 0
  {
    if msgs != [] {
      var init, m := msgs[..|msgs| - 1], msgs[|msgs| - 1];
      assert msgs == init + [m];
      RoutedSnoc(init, m, route, j);
      hide Routed, SumOn;
      RoutedSum(init, route, j, k);
      SumOnSnoc(init, m, k);
      SumOnSnoc(Routed(init, route, j), m, k);
    }
  }

  function Flattened(sent: seq<seq<PairMessage>>): seq<PairMessage> {
    if sent == [] then [] else Flattened(sent[..|sent| - 1]) + sent[|sent| - 1]
  }

  lemma {:induction false} FlattenedSum(sent: seq<seq<PairMessage>>, k: Pair, f: nat -> nat)
    requires forall r: nat :: r < |sent| ==> f(r) == SumOn(sent[r], k)
    ensures SumOn(Flattened(sent), k) == SumBelow(|sent|, f)
  {
    if sent != [] {
      var n := |sent| - 1;
      FlattenedSum(sent[..n], k, f);
      SumOnAppend(Flattened(sent[..n]), sent[n], k);
    }
  }

  /** Accumulators that each handled, in whatever order, once each, the messages routed to them. */
  lemma DeliveriesAccumulate(parts: seq<Part>, sent: seq<seq<PairMessage>>, route: Pair -> nat,
                             delivered: seq<seq<PairMessage>>, accs: seq<Counts>)
    requires |sent| == |parts|
    requires forall r :: 0 <= r < |parts| ==> OnePerPair(parts[r].flushes, sent[r])
    requires |accs| == |delivered| && forall k :: route(k) < |accs|
    requires forall j: nat :: j < |accs| ==>
               && multiset(delivered[j]) == multiset(Routed(Flattened(sent), route, j))
               && accs[j] == AddedPairs(map[], delivered[j])
    ensures Accumulated(parts, route, accs)
  {
    hide FirstCount, SumOn, SumBelow, OnePerPair, AddedPairs, Routed, Flattened;
    forall j: nat, k: Pair | j < |accs|
      ensures CountOf(accs[j], k) == if route(k) == j then SumBelow(|parts|, PartCount(parts, k)) else 0
    {
      var f := PartCount(parts, k);
      AddedPairsSum(map[], delivered[j], k);
      SumOnPermuted(delivered[j], Routed(Flattened(sent), route, j), k);
      RoutedSum(Flattened(sent), route, j, k);
      forall r: nat | r < |sent| ensures f(r) == SumOn(sent[r], k) {
        SentSum(parts[r].flushes, sent[r], k);
      }
      FlattenedSum(sent, k, f);
    }
  }

  /** Pairs of readable accounts have distinct keys: neither message ids nor batch entries collide. */
  lemma ReadableKeysDistinct(keys: set<Pair>)
    requires forall k <- keys :: exists u: Account, v: Account :: Readable(u) && k == PairOf(u, v)
    ensures Distinct(keys, (p: Pair) => p.Key())
  {
    var key := (p: Pair) => p.Key();
    forall x <- keys, y <- keys | key(x) == key(y) ensures x == y {
      KeyInjective(x, y);
    }
  }

  ghost predicate PassesThreshold(batches: seq<Batch>, t: nat, a: Account) {
    exists i, s :: 0 <= i < |batches| && s in batches[i] && batches[i][s].count >= t
        && (a == batches[i][s].src || a == batches[i][s].dst)
  }

  lemma CarriedPasses(batches: seq<Batch>, k: Pair, count: nat, t: nat, a: Account)
    requires Carries(batches, k, count) && count >= t && (a == AccountFromId(k.src) || a == AccountFromId(k.dst))
    ensures PassesThreshold(batches, t, a)
  {
    var i :| 0 <= i < |batches| && k.Key() in batches[i] && batches[i][k.Key()] == EntryOf(k, count);
    assert batches[i][k.Key()].count >= t;
  }

  lemma PassedIsSelected(b: Batch, keys: set<Pair>, acc: Counts, s: string, t: nat)
    requires FromKeys(b, keys, acc) && keys == acc.Keys && s in b && b[s].count >= t
    ensures b[s].src in Selected(acc, t) && b[s].dst in Selected(acc, t)
  {
    var k :| k in keys && k.Key() == s && b[s] == EntryOf(k, CountOf(acc, k));
    assert k in acc && acc[k] >= t;
  }

  /** What the threshold filter lets through of an accumulator's batches is what the accumulator selects. */
  lemma BatchesSelect(acc: Counts, keys: seq<Pair>, t: nat, a: Account)
    requires Elements(keys) == acc.Keys && |keys| == |acc| && Distinct(acc.Keys, (p: Pair) => p.Key())
    ensures PassesThreshold(Batches(EmitAll(keys, acc)), t, a) <==> a in Selected(acc, t)
  {
    hide EmitAll, Batches, Distinct, Selected, FromKeys, Carries, EntryOf, AccountFromId;
    EmitAllCarries(keys, acc);
    var batches := Batches(EmitAll(keys, acc));
    if a in Selected(acc, t) {
      var k := SelectedPair(acc, t, a);
      assert k in Elements(keys);
      CarriedPasses(batches, k, CountOf(acc, k), t, a);
    }
    if PassesThreshold(batches, t, a) {
      var i, s :| 0 <= i < |batches| && s in batches[i] && batches[i][s].count >= t
          && (a == batches[i][s].src || a == batches[i][s].dst);
      PassedIsSelected(batches[i], Elements(keys), acc, s, t);
    }
  }
}
