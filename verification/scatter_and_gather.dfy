// ScatterAndGather, one client on one replica: adjacency by source and by sink, the heavy
// accounts found in it, and the pruned cross product streamed out in bounded batches.
module ScatterAndGather {
  import opened Accounts
  import opened Query4
  import opened StringOrder

  type Adjacency = map<Account, set<Account>>

  function Neighbors(adj: Adjacency, a: Account): set<Account> {
    if a in adj then adj[a] else {}
  }

  function WithNeighbor(adj: Adjacency, a: Account, n: Account): Adjacency {
    adj[a := Neighbors(adj, a) + {n}]
  }

  /** The role a phase-one batch plays on this replica; a batch of any other role is refused. */
  datatype Role = Scatter | Gather | Unknown

  /** Both adjacencies, and what was added to them since the last checkpoint. */
  datatype Memory = Memory(scatter: Adjacency, gather: Adjacency, pendingScatter: Adjacency, pendingGather: Adjacency)

  const NO_MEMORY := Memory(map[], map[], map[], map[])

  /** handleScatterTx and handleGatherTx: a neighbour that is new is also buffered for the next delta. */
  function Added(m: Memory, role: Role, e: Edge): Memory {
    match role
    case Scatter =>
      if e.to in Neighbors(m.scatter, e.from) then m
      else m.(scatter := WithNeighbor(m.scatter, e.from, e.to),
          pendingScatter := WithNeighbor(m.pendingScatter, e.from, e.to))
    case Gather =>
      if e.from in Neighbors(m.gather, e.to) then m
      else m.(gather := WithNeighbor(m.gather, e.to, e.from),
          pendingGather := WithNeighbor(m.pendingGather, e.to, e.from))
    case Unknown => m
  }

  function AddedAll(m: Memory, role: Role, edges: seq<Edge>): Memory {
    if edges == [] then m else Added(AddedAll(m, role, edges[..|edges| - 1]), role, edges[|edges| - 1])
  }

  lemma AddedSnoc(m: Memory, role: Role, edges: seq<Edge>, e: Edge)
    ensures AddedAll(m, role, edges + [e]) == Added(AddedAll(m, role, edges), role, e)
  {
    assert (edges + [e])[..|edges|] == edges;
  }

  /** What a batch adds, neighbour by neighbour: each edge on the side of its role, and what was not yet known
      there also to the pending delta of that side. */
  ghost predicate Adds(m: Memory, role: Role, edges: seq<Edge>, m': Memory) {
    forall a, n ::
      && (n in Neighbors(m'.scatter, a) <==> n in Neighbors(m.scatter, a) || (role == Scatter && Edge(a, n) in edges))
      && (n in Neighbors(m'.gather, a) <==> n in Neighbors(m.gather, a) || (role == Gather && Edge(n, a) in edges))
      && (n in Neighbors(m'.pendingScatter, a) <==>
            n in Neighbors(m.pendingScatter, a)
            || (role == Scatter && Edge(a, n) in edges && n !in Neighbors(m.scatter, a)))
      && (n in Neighbors(m'.pendingGather, a) <==>
            n in Neighbors(m.pendingGather, a)
            || (role == Gather && Edge(n, a) in edges && n !in Neighbors(m.gather, a)))
  }

  lemma AddedAdds(m: Memory, role: Role, e: Edge)
    ensures Adds(m, role, [e], Added(m, role, e))
  {
    WithOneMore(m.scatter, e.from, e.to);
    WithOneMore(m.gather, e.to, e.from);
    WithOneMore(m.pendingScatter, e.from, e.to);
    WithOneMore(m.pendingGather, e.to, e.from);
    hide Neighbors, WithNeighbor;
  }

  lemma WithOneMore(adj: Adjacency, a: Account, n: Account)
    ensures forall x :: Neighbors(WithNeighbor(adj, a, n), x) == if x == a then Neighbors(adj, x) + {n}
                                                                 else Neighbors(adj, x)
  {
  }

  lemma AddsOn(m: Memory, role: Role, edges: seq<Edge>, m': Memory, e: Edge, m'': Memory)
    requires Adds(m, role, edges, m') && Adds(m', role, [e], m'')
    ensures Adds(m, role, edges + [e], m'')
  {
    hide Neighbors;
    forall x ensures x in edges + [e] <==> x in edges || x in [e] {
    }
  }

  lemma {:induction false} AddedAllAdds(m: Memory, role: Role, edges: seq<Edge>)
    ensures Adds(m, role, edges, AddedAll(m, role, edges))
  {
    if edges != [] {
      var init, e := edges[..|edges| - 1], edges[|edges| - 1];
      assert edges == init + [e];
      hide Adds, Added;
      AddedAllAdds(m, role, init);
      AddedAdds(AddedAll(m, role, init), role, e);
      AddsOn(m, role, init, AddedAll(m, role, init), e, AddedAll(m, role, edges));
    }
  }

  /** mergeAdjacency. */
  function Merged(adj: Adjacency, rec: Adjacency): Adjacency {
    map a | a in adj.Keys + rec.Keys :: Neighbors(adj, a) + Neighbors(rec, a)
  }

  // ---------------------------------------------------------------- paths and counts

  datatype Path = Path(src: Account, bridge: Account, dst: Account)

  /** One path per bridge of this replica and heavy pair. */
  function HeavyPaths(scatter: Adjacency, gather: Adjacency, sources: set<Account>, sinks: set<Account>): set<Path> {
    set b <- scatter, u <- Neighbors(gather, b), v <- scatter[b] | u in sources && v in sinks :: Path(u, b, v)
  }

  /** The paths counted under one pair. */
  function On(paths: set<Path>, k: Pair): set<Path> {
    set p <- paths | PairOf(p.src, p.dst) == k
  }

  type Counts = map<Pair, nat>

  function CountOf(counts: Counts, k: Pair): nat {
    if k in counts then counts[k] else 0
  }

  /** A pair's count over all flushes. */
  function TotalOf(flushes: seq<Counts>, k: Pair): nat {
    if flushes == [] then 0 else TotalOf(flushes[..|flushes| - 1], k) + CountOf(flushes[|flushes| - 1], k)
  }

  lemma TotalSnoc(flushes: seq<Counts>, c: Counts, k: Pair)
    ensures TotalOf(flushes + [c], k) == TotalOf(flushes, k) + CountOf(c, k)
  {
    assert (flushes + [c])[..|flushes|] == flushes;
  }

  ghost predicate Positive(counts: Counts) {
    forall k <- counts :: counts[k] > 0
  }

  /** Everything counted so far is in a flush, which is full, or in the open batch, which is not. */
  ghost predicate Counted(flushes: seq<Counts>, batch: Counts, max: nat, done: set<Path>) {
    && (forall f <- flushes :: |f| == max && Positive(f))
    && |batch| < max && Positive(batch)
    && forall k :: TotalOf(flushes, k) + CountOf(batch, k) == |On(done, k)|
  }

  lemma OnAdds(done: set<Path>, p: Path, k: Pair)
    requires p !in done
    ensures |On(done + {p}, k)| == |On(done, k)| + if PairOf(p.src, p.dst) == k then 1 else 0
  {
    if PairOf(p.src, p.dst) == k {
      assert On(done + {p}, k) == On(done, k) + {p} && p !in On(done, k);
    } else {
      assert On(done + {p}, k) == On(done, k);
    }
  }

  function Bumped(batch: Counts, k: Pair): Counts {
    batch[k := CountOf(batch, k) + 1]
  }

  lemma BumpedCounts(flushes: seq<Counts>, batch: Counts, done: set<Path>, p: Path, x: Pair)
    requires p !in done && TotalOf(flushes, x) + CountOf(batch, x) == |On(done, x)|
    ensures TotalOf(flushes, x) + CountOf(Bumped(batch, PairOf(p.src, p.dst)), x) == |On(done + {p}, x)|
  {
    OnAdds(done, p, x);
    hide On, TotalOf;
  }

  lemma BumpedSize(batch: Counts, k: Pair)
    ensures |Bumped(batch, k)| <= |batch| + 1
  {
    assert Bumped(batch, k).Keys == batch.Keys + {k};
  }

  lemma CountedAdds(flushes: seq<Counts>, batch: Counts, max: nat, done: set<Path>, p: Path)
    requires Counted(flushes, batch, max, done) && p !in done
    ensures var more := Bumped(batch, PairOf(p.src, p.dst));
            && |more| <= max
            && (|more| < max ==> Counted(flushes, more, max, done + {p}))
            && (|more| == max ==> Counted(flushes + [more], map[], max, done + {p}))
  {
    hide On, TotalOf;
    var more := Bumped(batch, PairOf(p.src, p.dst));
    BumpedSize(batch, PairOf(p.src, p.dst));
    assert Positive(more);
    forall x ensures TotalOf(flushes, x) + CountOf(more, x) == |On(done + {p}, x)| {
      BumpedCounts(flushes, batch, done, p, x);
    }
    hide Bumped, Positive;
    if |more| == max {
      forall x ensures TotalOf(flushes + [more], x) == |On(done + {p}, x)| {
        TotalSnoc(flushes, more, x);
      }
    }
  }

  // ---------------------------------------------------------------- walks

  /** The flushes so far and the batch being filled. */
  datatype Buffer = Buffer(flushes: seq<Counts>, batch: Counts)

  /** One path is counted; a full batch is flushed. */
  function Visit(b: Buffer, p: Path, max: nat): Buffer {
    var more := Bumped(b.batch, PairOf(p.src, p.dst));
    if |more| >= max then Buffer(b.flushes + [more], map[]) else Buffer(b.flushes, more)
  }

  function VisitAll(walk: seq<Path>, max: nat): Buffer {
    if walk == [] then Buffer([], map[]) else Visit(VisitAll(walk[..|walk| - 1], max), walk[|walk| - 1], max)
  }

  /** All flushes of a walk, with the last, open batch. */
  function FlushesOf(walk: seq<Path>, max: nat): seq<Counts> {
    var b := VisitAll(walk, max);
    if b.batch == map[] then b.flushes else b.flushes + [b.batch]
  }

  lemma VisitSnoc(walk: seq<Path>, p: Path, max: nat)
    ensures VisitAll(walk + [p], max) == Visit(VisitAll(walk, max), p, max)
  {
    assert (walk + [p])[..|walk|] == walk;
  }

  /** The nested loops have not left bridge `b`, or not come to it yet. */
  ghost predicate AtBridge(walk: seq<Path>, b: Account) {
    forall q <- walk :: q.bridge == b ==> walk[|walk| - 1].bridge == b
  }

  ghost predicate AtSource(walk: seq<Path>, b: Account, u: Account) {
    forall q <- walk :: q.bridge == b && q.src == u ==> walk[|walk| - 1].bridge == b && walk[|walk| - 1].src == u
  }

  ghost predicate Nested(walk: seq<Path>) {
    forall i :: 0 <= i < |walk| ==>
      AtBridge(walk[..i], walk[i].bridge) && AtSource(walk[..i], walk[i].bridge, walk[i].src)
  }

  /** An order in which the loops over bridges, sources and sinks may visit these paths. */
  ghost predicate IsWalk(walk: seq<Path>, paths: set<Path>) {
    Elements(walk) == paths && Unique(walk) && Nested(walk)
  }

  lemma NestedSnoc(walk: seq<Path>, p: Path)
    requires Nested(walk) && AtBridge(walk, p.bridge) && AtSource(walk, p.bridge, p.src)
    ensures Nested(walk + [p])
  {
    hide AtBridge, AtSource;
    var more := walk + [p];
    forall i | 0 <= i < |more|
      ensures AtBridge(more[..i], more[i].bridge) && AtSource(more[..i], more[i].bridge, more[i].src)
    {
      if i < |walk| {
        assert more[..i] == walk[..i] && more[i] == walk[i];
      } else {
        assert more[..i] == walk;
      }
    }
  }

  lemma IsWalkSnoc(walk: seq<Path>, paths: set<Path>, p: Path)
    requires IsWalk(walk, paths) && p !in paths && AtBridge(walk, p.bridge) && AtSource(walk, p.bridge, p.src)
    ensures IsWalk(walk + [p], paths + {p})
    ensures AtBridge(walk + [p], p.bridge) && AtSource(walk + [p], p.bridge, p.src)
  {
    NestedSnoc(walk, p);
    hide Nested;
    assert forall q <- walk :: q in Elements(walk);
    assert Elements(walk + [p]) == Elements(walk) + {p};
  }

  /** The walk so far accounts for the flushes and the open batch. */
  ghost predicate Walked(flushes: seq<Counts>, batch: Counts, max: nat, walk: seq<Path>, done: set<Path>) {
    Buffer(flushes, batch) == VisitAll(walk, max) && IsWalk(walk, done)
  }

  lemma WalkedAdds(flushes: seq<Counts>, batch: Counts, max: nat, walk: seq<Path>, done: set<Path>, p: Path)
    requires Walked(flushes, batch, max, walk, done) && p !in done
    requires AtBridge(walk, p.bridge) && AtSource(walk, p.bridge, p.src)
    ensures var more := Bumped(batch, PairOf(p.src, p.dst));
            if |more| >= max then Walked(flushes + [more], map[], max, walk + [p], done + {p})
            else Walked(flushes, more, max, walk + [p], done + {p})
    ensures AtBridge(walk + [p], p.bridge) && AtSource(walk + [p], p.bridge, p.src)
  {
    VisitSnoc(walk, p, max);
    IsWalkSnoc(walk, done, p);
    hide IsWalk, VisitAll, AtBridge, AtSource, Bumped;
  }

  lemma NothingWalked(max: nat)
    ensures Walked([], map[], max, [], {})
  {
  }

  /** What streaming promises: per pair the number of heavy paths, in flushes of which only the last is not full. */
  ghost predicate Streamed(flushes: seq<Counts>, max: nat, paths: set<Path>) {
    && (forall k :: TotalOf(flushes, k) == |On(paths, k)|)
    && (forall f <- flushes :: f != map[] && |f| <= max && Positive(f))
    && (forall i :: 0 <= i < |flushes| - 1 ==> |flushes[i]| == max)
  }

  lemma {:induction false} WalkCounts(walk: seq<Path>, max: nat)
    requires Unique(walk) && max > 0
    ensures var b := VisitAll(walk, max); Counted(b.flushes, b.batch, max, Elements(walk))
  {
    if walk == [] {
      NothingCounted(max);
    } else {
      var init, p := walk[..|walk| - 1], walk[|walk| - 1];
      assert walk == init + [p];
      WalkCounts(init, max);
      var b := VisitAll(init, max);
      assert p !in Elements(init) && Elements(walk) == Elements(init) + {p};
      CountedAdds(b.flushes, b.batch, max, Elements(init), p);
      hide Counted, Bumped;
    }
  }

  /** Whatever order the loops take, the flushes of the walk keep the promise. */
  lemma WalkStreams(walk: seq<Path>, max: nat, paths: set<Path>)
    requires IsWalk(walk, paths) && max > 0
    ensures Streamed(FlushesOf(walk, max), max, paths)
  {
    hide Counted, VisitAll, Nested;
    WalkCounts(walk, max);
    var b := VisitAll(walk, max);
    if b.batch == map[] {
      NoLastFlush(b.flushes, b.batch, max, paths);
    } else {
      LastFlush(b.flushes, b.batch, max, paths);
    }
  }

  class ClientGraph {
    var scatter: Adjacency
    var gather: Adjacency
    var heavySources: set<Account>
    var heavySinks: set<Account>
    var pendingScatter: Adjacency
    var pendingGather: Adjacency

    constructor ()
      ensures Contents() == NO_MEMORY && heavySources == heavySinks == {}
    {
      scatter, gather, heavySources, heavySinks := map[], map[], {}, {};
      pendingScatter, pendingGather := map[], map[];
    }

    function Contents(): Memory
      reads this
    {
      Memory(scatter, gather, pendingScatter, pendingGather)
    }

    method HandleScatterTx(e: Edge)
      modifies this`scatter, this`pendingScatter
      ensures Contents() == Added(old(Contents()), Scatter, e)
    {
      var known := Neighbors(scatter, e.from);
      if e.to !in known {
        scatter := scatter[e.from := known + {e.to}];
        pendingScatter := WithNeighbor(pendingScatter, e.from, e.to);
      }
    }

    method HandleGatherTx(e: Edge)
      modifies this`gather, this`pendingGather
      ensures Contents() == Added(old(Contents()), Gather, e)
    {
      var known := Neighbors(gather, e.to);
      if e.from !in known {
        gather := gather[e.to := known + {e.from}];
        pendingGather := WithNeighbor(pendingGather, e.to, e.from);
      }
    }

    /** handleTxQ4Message. */
    method HandleBatch(role: Role, edges: seq<Edge>) returns (ok: bool)
      modifies this`scatter, this`gather, this`pendingScatter, this`pendingGather
      ensures ok == !role.Unknown?
      ensures Contents() == if ok then AddedAll(old(Contents()), role, edges) else old(Contents())
      ensures ok ==> Adds(old(Contents()), role, edges, Contents())
    {
      AddedAllAdds(Contents(), role, edges);
      hide Adds;
      if role.Unknown? {
        return false;
      }
      for i := 0 to |edges|
        invariant Contents() == AddedAll(old(Contents()), role, edges[..i])
      {
        if role.Scatter? {
          HandleScatterTx(edges[i]);
        } else {
          HandleGatherTx(edges[i]);
        }
        AddedSnoc(old(Contents()), role, edges[..i], edges[i]);
        assert edges[..i + 1] == edges[..i] + [edges[i]];
      }
      assert edges[..|edges|] == edges;
      ok := true;
    }

    /** DrainClient and CommitClient: the delta a checkpoint appends. */
    method Drain() returns (scatterDelta: Adjacency, gatherDelta: Adjacency)
      modifies this`pendingScatter, this`pendingGather
      ensures scatterDelta == old(pendingScatter) && gatherDelta == old(pendingGather)
      ensures Contents() == old(Contents()).(pendingScatter := map[], pendingGather := map[])
    {
      scatterDelta, gatherDelta := pendingScatter, pendingGather;
      pendingScatter, pendingGather := map[], map[];
    }

    /** ReplayClient, for a client that is not completed. */
    method Replay(scatterDelta: Adjacency, gatherDelta: Adjacency)
      modifies this`scatter, this`gather
      ensures scatter == Merged(old(scatter), scatterDelta) && gather == Merged(old(gather), gatherDelta)
      ensures forall a ::
                && Neighbors(scatter, a) == Neighbors(old(scatter), a) + Neighbors(scatterDelta, a)
                && Neighbors(gather, a) == Neighbors(old(gather), a) + Neighbors(gatherDelta, a)
    {
      scatter := MergeAdjacency(scatter, scatterDelta);
      gather := MergeAdjacency(gather, gatherDelta);
    }

    /** FindHeavyAccountsForClient. */
    method FindHeavyAccounts(threshold: nat)
      modifies this`heavySources, this`heavySinks
      ensures heavySources == old(heavySources) + set a <- scatter | |scatter[a]| >= threshold
      ensures heavySinks == old(heavySinks) + set a <- gather | |gather[a]| >= threshold
    {
      var sources := HeavyIn(scatter, threshold);
      heavySources := heavySources + sources;
      var sinks := HeavyIn(gather, threshold);
      heavySinks := heavySinks + sinks;
    }

    /** streamScatterGatherPhaseTwo: walks the bridges in any order, dropping each one it has expanded. */
    method Stream(max: nat, sources: set<Account>, sinks: set<Account>)
      returns (flushes: seq<Counts>, ghost walk: seq<Path>)
      requires max > 0
      modifies this`scatter, this`gather
      ensures scatter == map[] && gather == old(gather) - old(scatter).Keys
      ensures IsWalk(walk, HeavyPaths(old(scatter), old(gather), sources, sinks)) && flushes == FlushesOf(walk, max)
      ensures Streamed(flushes, max, HeavyPaths(old(scatter), old(gather), sources, sinks))
    {
      hide *;
      ghost var s0, g0 := scatter, gather;
      ghost var done: set<Path>, gone: set<Account> := {}, {};
      flushes, walk := [], [];
      var batch: Counts := map[];
      NothingWalked(max);
      StreamStarts(s0, g0, sources, sinks);
      while scatter != map[]
        invariant StreamState(s0, g0, sources, sinks, gone, scatter, gather, done)
        invariant Walked(flushes, batch, max, walk, done)
        decreases scatter.Keys
      {
        var b :| b in scatter;
        ghost var before := done;
        if b in gather {
          NewBridge(s0, g0, sources, sinks, gone, scatter, gather, done, b);
          flushes, batch, walk, done := ExpandBridge(b, gather[b], scatter[b], sources, sinks, max, flushes, batch,
              walk, done);
        }
        StreamStep(s0, g0, sources, sinks, gone, scatter, gather, before, b, done);
        scatter := scatter - {b};
        gather := gather - {b};
        gone := gone + {b};
      }
      StreamEnds(s0, g0, sources, sinks, gone, scatter, gather, done);
      WalkEnds(flushes, batch, max, walk, done);
      if batch != map[] {
        flushes := flushes + [batch];
      }
    }
  }

  lemma WalkEnds(flushes: seq<Counts>, batch: Counts, max: nat, walk: seq<Path>, done: set<Path>)
    requires Walked(flushes, batch, max, walk, done) && max > 0
    ensures IsWalk(walk, done) && FlushesOf(walk, max) == (if batch == map[] then flushes else flushes + [batch])
    ensures Streamed(FlushesOf(walk, max), max, done)
  {
    WalkStreams(walk, max, done);
    hide IsWalk, VisitAll, Streamed;
  }

  /** The bridges already expanded are gone from both maps; what was done and what is left make up the whole. */
  ghost predicate StreamState(s0: Adjacency, g0: Adjacency, sources: set<Account>, sinks: set<Account>,
                              gone: set<Account>,
                              scatter: Adjacency, gather: Adjacency, done: set<Path>) {
    && scatter == s0 - gone && gather == g0 - gone && gone <= s0.Keys
    && done + HeavyPaths(scatter, gather, sources, sinks) == HeavyPaths(s0, g0, sources, sinks)
    && (forall p <- done :: p.bridge in gone)
  }

  lemma StreamStarts(s0: Adjacency, g0: Adjacency, sources: set<Account>, sinks: set<Account>)
    ensures StreamState(s0, g0, sources, sinks, {}, s0, g0, {})
  {
    hide HeavyPaths;
    assert s0 - {} == s0 && g0 - {} == g0;
  }

  lemma NewBridge(s0: Adjacency, g0: Adjacency, sources: set<Account>, sinks: set<Account>, gone: set<Account>,
                  scatter: Adjacency, gather: Adjacency, done: set<Path>, b: Account)
    requires StreamState(s0, g0, sources, sinks, gone, scatter, gather, done) && b in scatter
    ensures forall p <- done :: p.bridge != b
  {
    hide HeavyPaths;
  }

  lemma StreamStep(s0: Adjacency, g0: Adjacency, sources: set<Account>, sinks: set<Account>, gone: set<Account>,
                   scatter: Adjacency, gather: Adjacency, before: set<Path>, b: Account, done: set<Path>)
    requires StreamState(s0, g0, sources, sinks, gone, scatter, gather, before) && b in scatter
    requires done == if b in gather then before + BridgePaths(b, gather[b] * sources, scatter[b] * sinks) else before
    ensures StreamState(s0, g0, sources, sinks, gone + {b}, scatter - {b}, gather - {b}, done)
  {
    BridgeDone(scatter, gather, sources, sinks, b, before, done, HeavyPaths(s0, g0, sources, sinks));
    hide HeavyPaths;
    assert s0 - gone - {b} == s0 - (gone + {b}) && g0 - gone - {b} == g0 - (gone + {b});
  }

  lemma StreamEnds(s0: Adjacency, g0: Adjacency, sources: set<Account>, sinks: set<Account>, gone: set<Account>,
                   scatter: Adjacency, gather: Adjacency, done: set<Path>)
    requires StreamState(s0, g0, sources, sinks, gone, scatter, gather, done) && scatter == map[]
    ensures done == HeavyPaths(s0, g0, sources, sinks) && gather == g0 - s0.Keys
  {
    assert gone == s0.Keys by {
      forall a <- s0.Keys ensures a in gone {
        assert a !in s0 - gone;
      }
    }
  }

  lemma MergedStep(adj: Adjacency, done: Adjacency, a: Account, ns: set<Account>)
    requires a !in done
    ensures Merged(adj, done[a := ns]) == Merged(adj, done)[a := Neighbors(Merged(adj, done), a) + ns]
  {
    var l, r := Merged(adj, done[a := ns]), Merged(adj, done)[a := Neighbors(Merged(adj, done), a) + ns];
    assert l.Keys == r.Keys;
    forall x <- l ensures l[x] == r[x] {
      assert Neighbors(adj, x) + {} == Neighbors(adj, x);
    }
  }

  lemma MergedNothing(adj: Adjacency)
    ensures Merged(adj, map[]) == adj
  {
    forall x <- adj ensures Merged(adj, map[])[x] == adj[x] {
      assert adj[x] + {} == adj[x];
    }
  }

  method MergeAdjacency(adj: Adjacency, rec: Adjacency) returns (r: Adjacency)
    ensures r == Merged(adj, rec)
  {
    hide Merged, Neighbors;
    r := adj;
    var todo := rec.Keys;
    ghost var done: Adjacency := map[];
    MergedNothing(adj);
    while todo != {}
      invariant todo <= rec.Keys && done == rec - todo
      invariant r == Merged(adj, done)
      decreases todo
    {
      var a :| a in todo;
      MergedStep(adj, done, a, rec[a]);
      r := r[a := Neighbors(r, a) + rec[a]];
      done, todo := done[a := rec[a]], todo - {a};
    }
    assert done == rec;
  }

  method HeavyIn(adj: Adjacency, threshold: nat) returns (heavy: set<Account>)
    ensures heavy == set a <- adj | |adj[a]| >= threshold
  {
    heavy := {};
    var todo := adj.Keys;
    while todo != {}
      invariant todo <= adj.Keys
      invariant heavy == set a <- adj | a !in todo && |adj[a]| >= threshold
      decreases todo
    {
      var a :| a in todo;
      if |adj[a]| >= threshold {
        heavy := heavy + {a};
      }
      todo := todo - {a};
    }
  }

  lemma NothingCounted(max: nat)
    requires max > 0
    ensures Counted([], map[], max, {})
  {
    assert forall k :: On({}, k) == {};
  }

  function BridgePaths(b: Account, us: set<Account>, vs: set<Account>): set<Path> {
    set u <- us, v <- vs :: Path(u, b, v)
  }

  /** One bridge less to do, its paths done. */
  lemma BridgeDone(scatter: Adjacency, gather: Adjacency, sources: set<Account>, sinks: set<Account>, b: Account,
                   before: set<Path>, done: set<Path>, all: set<Path>)
    requires b in scatter && before + HeavyPaths(scatter, gather, sources, sinks) == all
    requires done == if b in gather then before + BridgePaths(b, gather[b] * sources, scatter[b] * sinks) else before
    ensures done + HeavyPaths(scatter - {b}, gather - {b}, sources, sinks) == all
  {
    var rest := HeavyPaths(scatter - {b}, gather - {b}, sources, sinks);
    forall p ensures p in done + rest <==> p in all {
      if p in HeavyPaths(scatter, gather, sources, sinks) && p.bridge == b {
        assert b in gather && p in BridgePaths(b, gather[b] * sources, scatter[b] * sinks);
      }
      if p in HeavyPaths(scatter, gather, sources, sinks) && p.bridge != b {
        assert p in rest;
      }
    }
  }

  lemma LastFlush(flushes: seq<Counts>, batch: Counts, max: nat, done: set<Path>)
    requires Counted(flushes, batch, max, done) && batch != map[] && max > 0
    ensures Streamed(flushes + [batch], max, done)
  {
    hide On;
    forall k ensures TotalOf(flushes + [batch], k) == |On(done, k)| {
      TotalSnoc(flushes, batch, k);
    }
    forall f <- flushes ensures f != map[] {
      assert |f| == max;
    }
  }

  lemma NoLastFlush(flushes: seq<Counts>, batch: Counts, max: nat, done: set<Path>)
    requires Counted(flushes, batch, max, done) && batch == map[] && max > 0
    ensures Streamed(flushes, max, done)
  {
    hide On;
    forall k ensures TotalOf(flushes, k) == |On(done, k)| {
      assert CountOf(batch, k) == 0;
    }
    forall f <- flushes ensures f != map[] {
      assert |f| == max;
    }
  }

  lemma NewAtBridge(max: nat, flushes: seq<Counts>, batch: Counts, walk: seq<Path>, done: set<Path>, b: Account)
    requires Walked(flushes, batch, max, walk, done) && forall p <- done :: p.bridge != b
    ensures AtBridge(walk, b)
  {
    assert forall q <- walk :: q in Elements(walk);
  }

  lemma NewAtSource(max: nat, flushes: seq<Counts>, batch: Counts, walk: seq<Path>, done: set<Path>, b: Account,
                    u: Account)
    requires Walked(flushes, batch, max, walk, done) && forall p <- done :: p.bridge != b || p.src != u
    ensures AtSource(walk, b, u)
  {
    assert forall q <- walk :: q in Elements(walk);
  }

  /** The two inner loops: every heavy source of the bridge with every heavy sink of it. */
  method ExpandBridge(b: Account, us: set<Account>, vs: set<Account>, sources: set<Account>, sinks: set<Account>,
                      max: nat,
                      flushes0: seq<Counts>, batch0: Counts, ghost walk0: seq<Path>, ghost done0: set<Path>)
    returns (flushes: seq<Counts>, batch: Counts, ghost walk: seq<Path>, ghost done: set<Path>)
    requires Walked(flushes0, batch0, max, walk0, done0) && forall p <- done0 :: p.bridge != b
    ensures done == done0 + BridgePaths(b, us * sources, vs * sinks)
    ensures exists w: seq<Path> :: Walked(flushes, batch, max, w, done0 + BridgePaths(b, us * sources, vs * sinks))
    ensures Walked(flushes, batch, max, walk, done)
  {
    hide Walked, AtBridge, AtSource;
    flushes, batch, walk, done := flushes0, batch0, walk0, done0;
    NewAtBridge(max, flushes, batch, walk, done, b);
    var todo := us;
    ghost var walked: set<Account> := {};
    while todo != {}
      invariant walked == us - todo && todo <= us
      invariant Walked(flushes, batch, max, walk, done) && AtBridge(walk, b)
      invariant done == done0 + BridgePaths(b, walked * sources, vs * sinks)
      decreases todo
    {
      var u :| u in todo;
      if u in sources {
        flushes, batch, walk, done := ExpandSource(b, u, vs, sinks, max, flushes, batch, walk, done);
      }
      assert (walked + {u}) * sources == walked * sources + if u in sources then {u} else {};
      assert BridgePaths(b, walked * sources + {u}, vs * sinks)
          == BridgePaths(b, walked * sources, vs * sinks) + BridgePaths(b, {u}, vs * sinks);
      todo, walked := todo - {u}, walked + {u};
    }
    assert walked == us;
  }

  lemma NoSinkYet(b: Account, u: Account, sinks: set<Account>)
    ensures BridgePaths(b, {u}, {} * sinks) == {}
  {
  }

  lemma OneMoreSink(b: Account, u: Account, walked: set<Account>, v: Account, sinks: set<Account>)
    ensures BridgePaths(b, {u}, (walked + {v}) * sinks) ==
            BridgePaths(b, {u}, walked * sinks) + if v in sinks then {Path(u, b, v)} else {}
    ensures v !in walked ==> Path(u, b, v) !in BridgePaths(b, {u}, walked * sinks)
  {
  }

  method ExpandSource(b: Account, u: Account, vs: set<Account>, sinks: set<Account>, max: nat,
                      flushes0: seq<Counts>, batch0: Counts, ghost walk0: seq<Path>, ghost done0: set<Path>)
    returns (flushes: seq<Counts>, batch: Counts, ghost walk: seq<Path>, ghost done: set<Path>)
    requires Walked(flushes0, batch0, max, walk0, done0) && AtBridge(walk0, b)
    requires forall p <- done0 :: p.bridge != b || p.src != u
    ensures done == done0 + BridgePaths(b, {u}, vs * sinks)
    ensures exists w: seq<Path> :: Walked(flushes, batch, max, w, done0 + BridgePaths(b, {u}, vs * sinks))
    ensures Walked(flushes, batch, max, walk, done) && AtBridge(walk, b)
  {
    hide Walked, AtBridge, AtSource, BridgePaths, Bumped;
    flushes, batch, walk, done := flushes0, batch0, walk0, done0;
    NoSinkYet(b, u, sinks);
    NewAtSource(max, flushes, batch, walk, done, b, u);
    var todo := vs;
    ghost var walked: set<Account> := {};
    while todo != {}
      invariant walked == vs - todo && todo <= vs
      invariant Walked(flushes, batch, max, walk, done) && AtBridge(walk, b) && AtSource(walk, b, u)
      invariant done == done0 + BridgePaths(b, {u}, walked * sinks)
      decreases todo
    {
      var v :| v in todo;
      OneMoreSink(b, u, walked, v, sinks);
      if v in sinks {
        WalkedAdds(flushes, batch, max, walk, done, Path(u, b, v));
        var k := PairOf(u, v);
        batch := Bumped(batch, k);
        if |batch| >= max {
          flushes, batch := flushes + [batch], map[];
        }
        walk, done := walk + [Path(u, b, v)], done + {Path(u, b, v)};
      }
      todo, walked := todo - {v}, walked + {v};
    }
    assert walked == vs;
  }
}
