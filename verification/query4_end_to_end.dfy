// Query 4 end to end, from transaction batches to the set the join holds: replicas that die in the middle
// of streaming and stream again, accumulators and a join that restart and are delivered messages repeatedly.
module Query4EndToEnd {
  import opened Bytes
  import opened Dedup
  import opened Publisher
  import opened Accounts
  import opened Query4
  import opened ScatterAndGather
  import opened PairSplits
  import opened PairCounts
  import opened HeavyMonitor
  import opened StringOrder
  import opened Query4Pipeline
  import opened Query4Execution
  import opened CrashFreeResults
  import Deliveries
  import ExactlyOnce
  import Checkpoint
  import DeltaLog
  import KeyedWorkers
  import SealBarrier

  /** One try of a replica to stream its pairs: where in its history and in that of the exchange it starts,
      the order the loops would take, and the messages it published before it ended or died. */
  datatype Try = Try(ready: nat, sealedAt: nat, walk: seq<Path>, said: set<PairMessage>)

  /** One emission of an accumulator: the state the last EOF found, and the order of the keys. */
  datatype Release = Release(at: nat, order: seq<Pair>)

  type Totals = Deliveries.Process<Sum<Counts>>
  type Results = Deliveries.Process<Sum<set<Account>>>

  /** One history for one client. */
  datatype History = History(
    txs: seq<Txs>, inputs: seq<seq<DeltaLog.Batch>>, graphs: seq<seq<DeltaLog.Replica>>, found: seq<nat>,
    local: seq<Heavy>, seal: seq<SealBarrier.State>,
    tries: seq<seq<Try>>, complete: seq<nat>,
    accs: seq<seq<Totals>>, releases: seq<seq<Release>>,
    listed: set<Envelope>, join: seq<Results>, done: nat)

  /** What a pair message's id stands for, and what that of a list of two accounts does. */
  datatype Origin = Origin(replica: nat, pair: Pair)
  datatype Slot = Slot(acc: nat, batch: nat, key: string)

  /** Ids and codecs of the messages, and the snapshots of the workers. */
  datatype Wire = Wire(
    client: ClientId, cfg: Checkpoint.Config,
    pairId: Origin -> MsgId, writePair: PairMessage -> Bytes, readPairs: Bytes -> Option<seq<PairMessage>>,
    pairSnap: PairSnap, pairLoad: PairLoad,
    listId: Slot -> MsgId, writeList: seq<Account> -> Bytes, readList: Bytes -> Option<seq<Account>>,
    setSnap: SetSnap, setLoad: SetLoad)

  /** Ids that are given, and tell these apart. */
  ghost predicate Apart<T(!new)>(id: T -> MsgId, used: set<T>) {
    && (forall a <- used :: id(a) != ZERO_ID)
    && forall a <- used, b <- used :: id(a) == id(b) ==> a == b
  }

  // ---------------------------------------------------------------- replicas

  function SaidBy(tries: seq<Try>): set<PairMessage> {
    set x <- tries, m <- x.said :: m
  }

  ghost predicate Shaped(w: Wire, h: History) {
    && |h.inputs| == |h.graphs| == |h.found| == |h.local| == |h.tries| == |h.complete|
    && (forall r :: 0 <= r < |h.tries| ==> h.complete[r] < |h.tries[r]|)
    && |h.accs| == |h.releases|
    && (forall j :: 0 <= j < |h.accs| ==> h.releases[j] != [])
    && (forall j, i :: 0 <= j < |h.accs| && 0 <= i < |h.releases[j]| ==> ReleaseShaped(w, h, j, h.releases[j][i]))
    && h.done < |h.join|
  }

  ghost predicate ReleaseShaped(w: Wire, h: History, j: nat, x: Release) {
    j < |h.accs| && x.at < |h.accs[j]| && w.client in h.accs[j][x.at].clients
  }

  ghost predicate TryShaped(h: History, r: nat, x: Try) {
    && r < |h.graphs| && x.ready < |h.graphs[r]|
    && x.sealedAt < |h.seal| && r < |h.seal[x.sealedAt].replicas|
  }

  function TryPaths(h: History, r: nat, x: Try): set<Path>
    requires TryShaped(h, r, x)
  {
    var mem, heavy := h.graphs[r][x.ready].mem, h.seal[x.sealedAt].replicas[r].mem.heavy;
    HeavyPaths(mem.scatter, mem.gather, heavy.sources, heavy.sinks)
  }

  ghost predicate IsCount(flushes: seq<Counts>, m: PairMessage) {
    exists f <- flushes :: m.0 in f && f[m.0] == m.1
  }

  /** A try starts with a complete shard and sealed sets; what it published, in whatever part of its loops it
      died, is of the flushes those loops would make. */
  ghost predicate Tried(max: nat, h: History, r: nat, x: Try)
    requires r < |h.inputs|
  {
    && TryShaped(h, r, x)
    && HasShard(h.inputs[r], h.graphs[r], x.ready) && h.seal[x.sealedAt].replicas[r].mem.sealed
    && IsWalk(x.walk, TryPaths(h, r, x)) && SplitsNoPair(max, TryPaths(h, r, x))
    && forall m <- x.said :: IsCount(FlushesOf(x.walk, max), m)
  }

  /** It published all its flushes. */
  ghost predicate Completed(max: nat, x: Try) {
    forall f <- FlushesOf(x.walk, max) :: forall k <- f :: (k, f[k]) in x.said
  }

  /** What replica r of ScatterAndGather did, over all its tries, one of which came to its end. */
  ghost predicate ReplicaDid(shards: KeyedWorkers.Shards, t: nat, max: nat, w: Wire, h: History, r: nat)
    requires Shaped(w, h) && r < |h.inputs|
  {
    && Delivers(shards, h.txs, r, h.inputs[r]) && HasShard(h.inputs[r], h.graphs[r], h.found[r])
    && (var mem := h.graphs[r][h.found[r]].mem; LocalHeavy(t, mem.scatter, mem.gather, h.local[r]))
    && (forall i :: 0 <= i < |h.tries[r]| ==> Tried(max, h, r, h.tries[r][i]))
    && Completed(max, h.tries[r][h.complete[r]])
  }

  // ---------------------------------------------------------------- accumulators

  function PairEnvelope(w: Wire, r: nat, m: PairMessage): Envelope {
    Envelope(ADD, w.client, w.pairId(Origin(r, m.0)), w.writePair(m))
  }

  /** All pair messages for accumulator j. */
  function Posted(w: Wire, route: Pair -> nat, h: History, j: nat): set<Envelope> {
    set r, m | 0 <= r < |h.tries| && m in SaidBy(h.tries[r]) && route(m.0) == j :: PairEnvelope(w, r, m)
  }

  function Origins(h: History): set<Origin> {
    set r, m | 0 <= r < |h.tries| && m in SaidBy(h.tries[r]) :: Origin(r, m.0)
  }

  /** The ids of pair messages tell replica and pair apart, and their payloads are read as written. */
  ghost predicate PairsTravel(w: Wire, h: History) {
    && Apart(w.pairId, Origins(h))
    && forall r :: 0 <= r < |h.tries| ==> forall m <- SaidBy(h.tries[r]) :: w.readPairs(w.writePair(m)) == Some([m])
  }

  function HeldAt(w: Wire, h: History, j: nat, x: Release): Counts
    requires ReleaseShaped(w, h, j, x)
  {
    h.accs[j][x.at].clients[w.client].w.w
  }

  function BatchesAt(w: Wire, h: History, j: nat, x: Release): seq<Batch>
    requires ReleaseShaped(w, h, j, x)
  {
    Batches(EmitAll(x.order, HeldAt(w, h, j, x)))
  }

  /** The last EOF finds the pair messages in memory; the results leave in ascending order. */
  ghost predicate Releases(w: Wire, route: Pair -> nat, h: History, j: nat, x: Release)
    requires ReleaseShaped(w, h, j, x)
  {
    && Served(h.accs[j][x.at], w.client, Posted(w, route, h, j))
    && var acc := HeldAt(w, h, j, x);
       && Elements(x.order) == acc.Keys && |x.order| == |acc|
       && (Distinct(acc.Keys, (p: Pair) => p.Key()) ==> Ascending(x.order, (p: Pair) => p.Key()))
  }

  /** What accumulator j did, over all its restarts. */
  ghost predicate AccumulatorDid(w: Wire, route: Pair -> nat, h: History, j: nat)
    requires Shaped(w, h) && j < |h.accs|
  {
    && Deliveries.IsRun(w.cfg, PairWorker(w.readPairs, w.pairSnap, w.pairLoad), h.accs[j])
    && forall i :: 0 <= i < |h.releases[j]| ==> Releases(w, route, h, j, h.releases[j][i])
  }

  // ---------------------------------------------------------------- threshold and join

  function ListOf(e: Entry): seq<Account> {
    [e.src, e.dst]
  }

  function ListEnvelope(w: Wire, s: Slot, e: Entry): Envelope {
    Envelope(ADD, w.client, w.listId(s), w.writeList(ListOf(e)))
  }

  /** The entries of accumulator j's batches that reach the threshold. */
  function SlotsOf(t: nat, j: nat, batches: seq<Batch>): set<Slot> {
    set i, s | 0 <= i < |batches| && s in batches[i] && batches[i][s].count >= t :: Slot(j, i, s)
  }

  function ListsOf(w: Wire, t: nat, j: nat, batches: seq<Batch>): set<Envelope> {
    set i, s | 0 <= i < |batches| && s in batches[i] && batches[i][s].count >= t ::
      ListEnvelope(w, Slot(j, i, s), batches[i][s])
  }

  /** What the threshold filter made of the batches: of each as often as it came, nothing else, and at least
      of all batches of one release. */
  ghost predicate ThresholdDid(w: Wire, t: nat, h: History)
    requires Shaped(w, h)
  {
    && (forall env <- h.listed :: exists j, i :: 0 <= j < |h.accs| && 0 <= i < |h.releases[j]|
                                                 && env in ListsOf(w, t, j, BatchesAt(w, h, j, h.releases[j][i])))
    && forall j :: 0 <= j < |h.accs| ==>
         exists i :: 0 <= i < |h.releases[j]| && ListsOf(w, t, j, BatchesAt(w, h, j, h.releases[j][i])) <= h.listed
  }

  function Slots(w: Wire, t: nat, h: History): set<Slot>
    requires Shaped(w, h)
  {
    set j, i, s | 0 <= j < |h.accs| && 0 <= i < |h.releases[j]|
                  && s in SlotsOf(t, j, BatchesAt(w, h, j, h.releases[j][i])) :: s
  }

  ghost predicate Readback(w: Wire, t: nat, batches: seq<Batch>) {
    forall i, s :: 0 <= i < |batches| && s in batches[i] && batches[i][s].count >= t ==>
      w.readList(w.writeList(ListOf(batches[i][s]))) == Some(ListOf(batches[i][s]))
  }

  /** The ids of lists tell the entries apart, and lists are read as written. */
  ghost predicate ListsTravel(w: Wire, t: nat, h: History)
    requires Shaped(w, h)
  {
    && Apart(w.listId, Slots(w, t, h))
    && forall j, i :: 0 <= j < |h.accs| && 0 <= i < |h.releases[j]| ==>
         Readback(w, t, BatchesAt(w, h, j, h.releases[j][i]))
  }

  /** The last EOF finds the lists in the join's memory. */
  ghost predicate JoinDid(w: Wire, h: History)
    requires Shaped(w, h)
  {
    && Deliveries.IsRun(w.cfg, AccountWorker(w.readList, w.setSnap, w.setLoad), h.join)
    && Served(h.join[h.done], w.client, h.listed)
  }

  /** The workers save state, and load what they saved. */
  ghost predicate Saves(w: Wire) {
    w.cfg.hasState && !w.cfg.hasEof && Reloads(w.pairSnap, w.pairLoad) && Reloads(w.setSnap, w.setLoad)
  }

  ghost predicate Happened(shards: KeyedWorkers.Shards, route: Pair -> nat, t: nat, max: nat, w: Wire, h: History) {
    && Shaped(w, h) && Saves(w) && SealBarrier.IsRun(h.local, h.seal)
    && (forall a :: shards.owner(a) < |h.inputs|) && (forall k :: route(k) < |h.accs|)
    && (forall r: nat :: r < |h.inputs| ==> ReplicaDid(shards, t, max, w, h, r))
    && PairsTravel(w, h)
    && (forall j: nat :: j < |h.accs| ==> AccumulatorDid(w, route, h, j))
    && ListsTravel(w, t, h) && ThresholdDid(w, t, h) && JoinDid(w, h)
  }

  // ---------------------------------------------------------------- all tries say the same

  lemma {:induction false} FirstOfOne(flushes: seq<Counts>, k: Pair, i: nat)
    requires i < |flushes| && k in flushes[i] && forall j :: 0 <= j < i ==> k !in flushes[j]
    ensures FirstCount(flushes, k) == flushes[i][k]
  {
    if i > 0 {
      FirstOfOne(flushes[1..], k, i - 1);
    }
  }

  lemma {:induction false} FirstIsFlushed(flushes: seq<Counts>, k: Pair)
    requires FirstCount(flushes, k) > 0
    ensures exists f <- flushes :: k in f && f[k] == FirstCount(flushes, k)
  {
    if k in flushes[0] {
      assert flushes[0] in flushes;
    } else {
      FirstIsFlushed(flushes[1..], k);
    }
  }

  lemma CountIsFirst(flushes: seq<Counts>, m: PairMessage)
    requires AllPositive(flushes) && NothingLost(flushes) && IsCount(flushes, m)
    ensures m.1 == FirstCount(flushes, m.0) > 0
  {
    hide FirstCount, TotalOf;
    DedupLosesNothingIff(flushes);
    var f :| f in flushes && m.0 in f && f[m.0] == m.1;
    var i :| 0 <= i < |flushes| && flushes[i] == f;
    assert OneFlushAtMost(flushes, m.0);
    FirstOfOne(flushes, m.0, i);
    assert Positive(f);
  }

  /** What a try says of a pair is the pair's count, and a complete try says it of every pair. */
  lemma TryCounts(max: nat, h: History, r: nat, x: Try)
    requires r < |h.inputs| && Tried(max, h, r, x) && max > 0
    ensures TryShaped(h, r, x) && forall m <- x.said :: m.1 == |On(TryPaths(h, r, x), m.0)| > 0
    ensures forall k :: FirstCount(FlushesOf(x.walk, max), k) == |On(TryPaths(h, r, x), k)|
    ensures Completed(max, x) ==>
              forall k :: |On(TryPaths(h, r, x), k)| > 0 ==> (k, |On(TryPaths(h, r, x), k)|) in x.said
  {
    hide HasShard, IsWalk, FlushesOf, TryPaths, On, PairsOf, FirstCount, TotalOf, IsCount;
    var flushes, paths := FlushesOf(x.walk, max), TryPaths(h, r, x);
    WalkStreams(x.walk, max, paths);
    StreamLosesNothing(flushes, max, paths);
    assert AllPositive(flushes);
    forall m <- x.said ensures m.1 == FirstCount(flushes, m.0) > 0 {
      CountIsFirst(flushes, m);
    }
    forall k ensures FirstCount(flushes, k) == |On(paths, k)| {
      assert TotalOf(flushes, k) == |On(paths, k)|;
    }
    if Completed(max, x) {
      forall k | |On(paths, k)| > 0 ensures (k, |On(paths, k)|) in x.said {
        assert FirstCount(flushes, k) > 0;
        FirstIsFlushed(flushes, k);
      }
    }
  }

  /** The paths of every try: those over the bridges the replica owns, between globally heavy accounts. */
  lemma PathsTold(shards: KeyedWorkers.Shards, max: nat, h: History, r: nat, x: Try, p: Path)
    requires r < |h.inputs| && r < |h.local| && Tried(max, h, r, x)
    requires Delivers(shards, h.txs, r, h.inputs[r]) && SealBarrier.IsRun(h.local, h.seal)
    ensures p in TryPaths(h, r, x) <==>
            p.bridge in OwnedBy(Bridges(GraphOf(h.txs), p.src, p.dst), shards.owner, r)
            && p.src in SealBarrier.Union(h.local).sources && p.dst in SealBarrier.Union(h.local).sinks
  {
    hide Delivers, HasShard, HoldsShard, IsWalk, SplitsNoPair, FlushesOf, HeavyPaths, GraphOf, OwnedBy, Bridges,
         SealBarrier.IsRun, SealBarrier.Union;
    var mem := h.graphs[r][x.ready].mem;
    ShardHeld(shards, h.txs, r, h.inputs[r], h.graphs[r], x.ready);
    SealBarrier.SealedIsUnion(h.local, h.seal, x.sealedAt, r);
    var heavy := h.seal[x.sealedAt].replicas[r].mem.heavy;
    PathInShard(GraphOf(h.txs), shards.owner, r, mem.scatter, mem.gather, heavy.sources, heavy.sinks, p);
  }

  lemma SamePaths(shards: KeyedWorkers.Shards, max: nat, h: History, r: nat, x: Try, y: Try)
    requires r < |h.inputs| && r < |h.local| && Tried(max, h, r, x) && Tried(max, h, r, y)
    requires Delivers(shards, h.txs, r, h.inputs[r]) && SealBarrier.IsRun(h.local, h.seal)
    ensures TryShaped(h, r, x) && TryShaped(h, r, y) && TryPaths(h, r, x) == TryPaths(h, r, y)
  {
    hide HasShard, IsWalk, SplitsNoPair, IsCount, TryPaths, Delivers, SealBarrier.IsRun, OwnedBy, Bridges,
         SealBarrier.Union;
    forall p ensures p in TryPaths(h, r, x) <==> p in TryPaths(h, r, y) {
      PathsTold(shards, max, h, r, x, p);
      PathsTold(shards, max, h, r, y, p);
    }
  }

  /** Whatever any try of the replica published, the complete one did, and it is the pair's count. */
  lemma SaidIsComplete(shards: KeyedWorkers.Shards, t: nat, max: nat, w: Wire, h: History, r: nat, m: PairMessage)
    requires Shaped(w, h) && r < |h.inputs| && ReplicaDid(shards, t, max, w, h, r) && max > 0
    requires SealBarrier.IsRun(h.local, h.seal) && m in SaidBy(h.tries[r])
    ensures var last := h.tries[r][h.complete[r]];
            m in last.said && m.1 == FirstCount(FlushesOf(last.walk, max), m.0) > 0
  {
    hide Tried, Delivers, HasShard, LocalHeavy, FlushesOf, TryPaths, On, FirstCount, SealBarrier.IsRun, Completed;
    var last := h.tries[r][h.complete[r]];
    var x :| x in h.tries[r] && m in x.said;
    SamePaths(shards, max, h, r, x, last);
    TryCounts(max, h, r, x);
    TryCounts(max, h, r, last);
    assert m.1 == |On(TryPaths(h, r, last), m.0)|;
  }

  /** So behind deduplication there is one message for each pair. */
  lemma SentOnce(shards: KeyedWorkers.Shards, t: nat, max: nat, w: Wire, h: History, r: nat, l: seq<PairMessage>)
    requires Shaped(w, h) && r < |h.inputs| && ReplicaDid(shards, t, max, w, h, r) && max > 0
    requires SealBarrier.IsRun(h.local, h.seal) && Elements(l) == SaidBy(h.tries[r]) && Unique(l)
    ensures OnePerPair(FlushesOf(h.tries[r][h.complete[r]].walk, max), l)
  {
    var last := h.tries[r][h.complete[r]];
    assert last in h.tries[r];
    TryCounts(max, h, r, last);
    hide Tried, Delivers, HasShard, LocalHeavy, FlushesOf, TryPaths, On, FirstCount, SealBarrier.IsRun, ReplicaDid;
    forall m <- l ensures m.1 == FirstCount(FlushesOf(last.walk, max), m.0) > 0 {
      assert m in Elements(l);
      SaidIsComplete(shards, t, max, w, h, r, m);
    }
    forall k | FirstCount(FlushesOf(last.walk, max), k) > 0 ensures exists i :: 0 <= i < |l| && l[i].0 == k {
      var m := (k, FirstCount(FlushesOf(last.walk, max), k));
      CompleteSays(shards, t, max, w, h, r, k);
      assert m in SaidBy(h.tries[r]);
      assert m in Elements(l);
    }
  }

  lemma CompleteSays(shards: KeyedWorkers.Shards, t: nat, max: nat, w: Wire, h: History, r: nat, k: Pair)
    requires Shaped(w, h) && r < |h.inputs| && ReplicaDid(shards, t, max, w, h, r) && max > 0
    requires FirstCount(FlushesOf(h.tries[r][h.complete[r]].walk, max), k) > 0
    ensures (k, FirstCount(FlushesOf(h.tries[r][h.complete[r]].walk, max), k)) in h.tries[r][h.complete[r]].said
  {
    hide Tried, Delivers, HasShard, LocalHeavy, FlushesOf, TryPaths, On, FirstCount, Completed;
    TryCounts(max, h, r, h.tries[r][h.complete[r]]);
  }

  // ---------------------------------------------------------------- one accumulator's input, listed

  function Enveloped(w: Wire, r: nat, msgs: seq<PairMessage>): seq<Envelope> {
    seq(|msgs|, i requires 0 <= i < |msgs| => PairEnvelope(w, r, msgs[i]))
  }

  function Boxed(w: Wire, sent: seq<seq<PairMessage>>, route: Pair -> nat, j: nat): seq<Envelope> {
    if sent == [] then []
    else
      var n := |sent| - 1;
      Boxed(w, sent[..n], route, j) + Enveloped(w, n, Routed(sent[n], route, j))
  }

  lemma {:induction false} RoutedIff(msgs: seq<PairMessage>, route: Pair -> nat, j: nat, m: PairMessage)
    ensures m in Routed(msgs, route, j) <==> m in msgs && route(m.0) == j
  {
    if msgs != [] {
      var n := |msgs| - 1;
      assert msgs == msgs[..n] + [msgs[n]];
      RoutedIff(msgs[..n], route, j, m);
    }
  }

  ghost predicate NoPairAgain(msgs: seq<PairMessage>) {
    forall i, k :: 0 <= i < k < |msgs| ==> msgs[i].0 != msgs[k].0
  }

  lemma {:induction false} RoutedUnique(msgs: seq<PairMessage>, route: Pair -> nat, j: nat)
    requires NoPairAgain(msgs)
    ensures NoPairAgain(Routed(msgs, route, j))
  {
    if msgs != [] {
      var n := |msgs| - 1;
      RoutedUnique(msgs[..n], route, j);
      var front := Routed(msgs[..n], route, j);
      forall m <- front ensures m.0 != msgs[n].0 {
        RoutedIff(msgs[..n], route, j, m);
      }
    }
  }

  lemma {:induction false} RoutedAppend(a: seq<PairMessage>, b: seq<PairMessage>, route: Pair -> nat, j: nat)
    ensures Routed(a + b, route, j) == Routed(a, route, j) + Routed(b, route, j)
    decreases |b|
  {
    if b == [] {
      assert a + b == a;
    } else {
      var n := |b| - 1;
      assert a + b == (a + b[..n]) + [b[n]] && b == b[..n] + [b[n]];
      RoutedSnoc(a + b[..n], b[n], route, j);
      RoutedSnoc(b[..n], b[n], route, j);
      RoutedAppend(a, b[..n], route, j);
    }
  }

  lemma {:induction false} BoxedFrom(w: Wire, sent: seq<seq<PairMessage>>, route: Pair -> nat, j: nat, env: Envelope)
    returns (r: nat, m: PairMessage)
    requires env in Boxed(w, sent, route, j)
    ensures r < |sent| && m in sent[r] && route(m.0) == j && env == PairEnvelope(w, r, m)
  {
    var n := |sent| - 1;
    if env in Boxed(w, sent[..n], route, j) {
      r, m := BoxedFrom(w, sent[..n], route, j, env);
    } else {
      var l := Routed(sent[n], route, j);
      var i :| 0 <= i < |l| && env == PairEnvelope(w, n, l[i]);
      RoutedIff(sent[n], route, j, l[i]);
      r, m := n, l[i];
    }
  }

  lemma {:induction false} BoxedHas(w: Wire, sent: seq<seq<PairMessage>>, route: Pair -> nat, j: nat, r: nat,
                                    m: PairMessage)
    requires r < |sent| && m in sent[r] && route(m.0) == j
    ensures PairEnvelope(w, r, m) in Boxed(w, sent, route, j)
  {
    hide PairEnvelope;
    var n := |sent| - 1;
    if r < n {
      BoxedHas(w, sent[..n], route, j, r, m);
    } else {
      RoutedIff(sent[n], route, j, m);
      var l := Routed(sent[n], route, j);
      var i :| 0 <= i < |l| && l[i] == m;
      assert Enveloped(w, n, l)[i] == PairEnvelope(w, n, m);
    }
  }

  /** Replicas and pairs listed once have ids of their own. */
  lemma {:induction false} BoxedIsInput(w: Wire, sent: seq<seq<PairMessage>>, route: Pair -> nat, j: nat,
                                        used: set<Origin>)
    requires Apart(w.pairId, used)
    requires forall r :: 0 <= r < |sent| ==> forall m <- sent[r] :: Origin(r, m.0) in used
    requires forall r :: 0 <= r < |sent| ==> NoPairAgain(sent[r])
    ensures Deliveries.Input(Boxed(w, sent, route, j))
  {
    if sent != [] {
      var n := |sent| - 1;
      BoxedIsInput(w, sent[..n], route, j, used);
      var front, l := Boxed(w, sent[..n], route, j), Routed(sent[n], route, j);
      RoutedUnique(sent[n], route, j);
      forall m <- l ensures Origin(n, m.0) in used {
        RoutedIff(sent[n], route, j, m);
      }
      forall env <- front, m <- l ensures env.id != PairEnvelope(w, n, m).id {
        var r, o := BoxedFrom(w, sent[..n], route, j, env);
        assert Origin(r, o.0) in used && Origin(n, m.0) in used;
      }
      var all := Boxed(w, sent, route, j);
      forall a, b | 0 <= a < b < |all| ensures all[a].id != all[b].id {
        assert a < |front| ==> all[a] == front[a] && front[a] in front;
        if b >= |front| {
          var y := b - |front|;
          assert all[b] == PairEnvelope(w, n, l[y]) && l[y] in l;
          if a >= |front| {
            var x := a - |front|;
            assert all[a] == PairEnvelope(w, n, l[x]) && l[x] in l && l[x].0 != l[y].0;
          }
        }
      }
    }
  }

  lemma {:induction false} EnvelopedPairs(w: Wire, r: nat, msgs: seq<PairMessage>)
    requires forall m <- msgs :: w.readPairs(w.writePair(m)) == Some([m])
    ensures AllPairs(w.readPairs, Enveloped(w, r, msgs)) == msgs
  {
    if msgs != [] {
      var n := |msgs| - 1;
      EnvelopedPairs(w, r, msgs[..n]);
      assert Enveloped(w, r, msgs)[..n] == Enveloped(w, r, msgs[..n]);
      assert msgs == msgs[..n] + [msgs[n]];
    }
  }

  lemma {:induction false} AllPairsAppend(decode: Bytes -> Option<seq<PairMessage>>, a: seq<Envelope>,
                                          b: seq<Envelope>)
    ensures AllPairs(decode, a + b) == AllPairs(decode, a) + AllPairs(decode, b)
    decreases |b|
  {
    if b == [] {
      assert a + b == a;
    } else {
      var n := |b| - 1;
      assert (a + b)[..|a + b| - 1] == a + b[..n];
      AllPairsAppend(decode, a, b[..n]);
    }
  }

  /** Read back, this is the list of messages the accumulator was to be sent. */
  lemma {:induction false} BoxedPairs(w: Wire, sent: seq<seq<PairMessage>>, route: Pair -> nat, j: nat)
    requires forall r :: 0 <= r < |sent| ==> forall m <- sent[r] :: w.readPairs(w.writePair(m)) == Some([m])
    ensures AllPairs(w.readPairs, Boxed(w, sent, route, j)) == Routed(Flattened(sent), route, j)
  {
    if sent != [] {
      var n := |sent| - 1;
      BoxedPairs(w, sent[..n], route, j);
      var l := Routed(sent[n], route, j);
      forall m <- l ensures w.readPairs(w.writePair(m)) == Some([m]) {
        RoutedIff(sent[n], route, j, m);
      }
      EnvelopedPairs(w, n, l);
      hide Routed, Enveloped, AllPairs;
      AllPairsAppend(w.readPairs, Boxed(w, sent[..n], route, j), Enveloped(w, n, l));
      RoutedAppend(Flattened(sent[..n]), sent[n], route, j);
    }
  }

  // ---------------------------------------------------------------- the execution behind deduplication

  /** Each replica's messages, each listed once. */
  ghost predicate Lists(h: History, sent: seq<seq<PairMessage>>) {
    |sent| == |h.tries| && forall r :: 0 <= r < |sent| ==> Elements(sent[r]) == SaidBy(h.tries[r]) && Unique(sent[r])
  }

  lemma {:induction false} SomeLists(h: History, n: nat) returns (sent: seq<seq<PairMessage>>)
    requires n <= |h.tries|
    ensures Lists(h.(tries := h.tries[..n]), sent)
  {
    if n == 0 {
      sent := [];
    } else {
      var front := SomeLists(h, n - 1);
      var last := SomeOrder(SaidBy(h.tries[n - 1]));
      sent := front + [last];
      assert h.tries[..n - 1] == h.tries[..n][..n - 1];
      forall r | 0 <= r < n - 1 ensures Elements(sent[r]) == SaidBy(h.tries[r]) && Unique(sent[r]) {
        assert h.tries[..n - 1][r] == h.tries[r];
      }
    }
  }

  function Behind(w: Wire, route: Pair -> nat, h: History, sent: seq<seq<PairMessage>>): (e: Execution)
    requires Shaped(w, h)
    ensures |sent| == |h.tries| ==> Query4Execution.Shaped(e)
    ensures |e.accs| == |h.accs|
  {
    var n, a := |h.tries|, |h.accs|;
    var last := r requires 0 <= r < n => h.tries[r][h.complete[r]];
    var delivered := seq(a, j requires 0 <= j < a => Routed(Flattened(sent), route, j));
    Execution(h.txs, h.inputs, h.graphs, h.found, seq<nat>(n, r requires 0 <= r < n => last(r).ready),
              h.local, h.seal, seq<nat>(n, r requires 0 <= r < n => last(r).sealedAt),
              seq(n, r requires 0 <= r < n => last(r).walk), sent,
              delivered, seq(a, j requires 0 <= j < a => AddedPairs(map[], delivered[j])),
              seq(a, j requires 0 <= j < a => h.releases[j][0].order))
  }

  lemma PostedIsBoxed(w: Wire, route: Pair -> nat, h: History, sent: seq<seq<PairMessage>>, j: nat)
    requires Lists(h, sent)
    ensures Elements(Boxed(w, sent, route, j)) == Posted(w, route, h, j)
  {
    hide PairEnvelope, Boxed, SaidBy;
    forall r: nat, m | r < |sent| ensures m in sent[r] <==> m in SaidBy(h.tries[r]) {
      assert m in sent[r] <==> m in Elements(sent[r]);
    }
    forall env <- Posted(w, route, h, j) ensures env in Boxed(w, sent, route, j) {
      var r, m :| 0 <= r < |h.tries| && m in SaidBy(h.tries[r]) && route(m.0) == j && env == PairEnvelope(w, r, m);
      BoxedHas(w, sent, route, j, r, m);
    }
    forall env <- Boxed(w, sent, route, j) ensures env in Posted(w, route, h, j) {
      var r, m := BoxedFrom(w, sent, route, j, env);
    }
  }

  lemma ListsTravelToo(w: Wire, h: History, sent: seq<seq<PairMessage>>)
    requires PairsTravel(w, h) && Lists(h, sent)
    ensures forall r :: 0 <= r < |sent| ==>
              forall m <- sent[r] :: Origin(r, m.0) in Origins(h) && w.readPairs(w.writePair(m)) == Some([m])
  {
    hide SaidBy, Apart;
    forall r: nat, m | r < |sent| && m in sent[r]
      ensures Origin(r, m.0) in Origins(h) && w.readPairs(w.writePair(m)) == Some([m])
    {
      assert m in Elements(sent[r]);
      assert m in SaidBy(h.tries[r]);
    }
  }

  lemma BoxedForClient(w: Wire, sent: seq<seq<PairMessage>>, route: Pair -> nat, j: nat)
    ensures forall m <- Boxed(w, sent, route, j) :: m.client == w.client
  {
    hide Boxed;
    forall m <- Boxed(w, sent, route, j) ensures m.client == w.client {
      var r, p := BoxedFrom(w, sent, route, j, m);
    }
  }

  /** Whatever state the last EOF finds: the sums of the messages, each once. */
  lemma HeldIsAdded(w: Wire, route: Pair -> nat, h: History, sent: seq<seq<PairMessage>>, j: nat, x: Release)
    requires Shaped(w, h) && Saves(w) && PairsTravel(w, h) && j < |h.accs| && AccumulatorDid(w, route, h, j)
    requires x in h.releases[j] && ReleaseShaped(w, h, j, x)
    requires Lists(h, sent) && forall r :: 0 <= r < |sent| ==> NoPairAgain(sent[r])
    ensures HeldAt(w, h, j, x) == AddedPairs(map[], Routed(Flattened(sent), route, j))
  {
    assert Releases(w, route, h, j, x);
    hide Boxed, Posted, Served, Deliveries.IsRun, Apart, Deliveries.Input, SaidBy, ExactlyOnce.Fold, AllPairs,
         AddedPairs, PairWorker, Reloads, Releases, Shaped, Lists, NoPairAgain, Origins, Routed, Flattened, Saves;
    ListsTravelToo(w, h, sent);
    PostedIsBoxed(w, route, h, sent, j);
    var adds := Boxed(w, sent, route, j);
    BoxedIsInput(w, sent, route, j, Origins(h));
    BoxedPairs(w, sent, route, j);
    BoxedForClient(w, sent, route, j);
    ReleaseServed(w, route, h, j, x);
    PairServed(w, h.accs[j], x.at, adds);
    PairFoldIs(w.readPairs, w.pairSnap, w.pairLoad, adds);
  }

  lemma ReleaseServed(w: Wire, route: Pair -> nat, h: History, j: nat, x: Release)
    requires ReleaseShaped(w, h, j, x) && Releases(w, route, h, j, x)
    ensures Served(h.accs[j][x.at], w.client, Posted(w, route, h, j))
  {
    hide Served, Posted;
  }

  lemma PairServed(w: Wire, run: seq<Totals>, i: nat, adds: seq<Envelope>)
    requires Saves(w) && Deliveries.Input(adds) && i < |run| && Served(run[i], w.client, Elements(adds))
    requires forall m <- adds :: m.client == w.client
    requires Deliveries.IsRun(w.cfg, PairWorker(w.readPairs, w.pairSnap, w.pairLoad), run)
    ensures run[i].clients[w.client].w.w == ExactlyOnce.Fold(PairWorker(w.readPairs, w.pairSnap, w.pairLoad), adds).w
  {
    hide Deliveries.IsRun, Reloads, Deliveries.Input, ExactlyOnce.Fold, AddedPairs, Adder;
    forall acc, a, b ensures AddedPairs(AddedPairs(acc, a), b) == AddedPairs(AddedPairs(acc, b), a) {
      ListsCommute(acc, a, b);
    }
    ServedIsSum(w.cfg, map[], w.readPairs, AddedPairs, w.pairSnap, w.pairLoad, run, i, w.client, adds);
  }

  lemma OnceIsNoPairAgain(flushes: seq<Counts>, msgs: seq<PairMessage>)
    requires OnePerPair(flushes, msgs)
    ensures NoPairAgain(msgs)
  {
  }

  lemma ListsSentOnce(shards: KeyedWorkers.Shards, route: Pair -> nat, t: nat, max: nat, w: Wire, h: History,
                      sent: seq<seq<PairMessage>>)
    requires Happened(shards, route, t, max, w, h) && Lists(h, sent) && max > 0
    ensures forall r :: 0 <= r < |sent| ==>
              && OnePerPair(FlushesOf(h.tries[r][h.complete[r]].walk, max), sent[r])
              && NoPairAgain(sent[r])
  {
    hide ReplicaDid, AccumulatorDid, ThresholdDid, JoinDid, PairsTravel, ListsTravel, SealBarrier.IsRun, OnePerPair,
         NoPairAgain, FlushesOf, SaidBy;
    forall r: nat | r < |sent|
      ensures OnePerPair(FlushesOf(h.tries[r][h.complete[r]].walk, max), sent[r]) && NoPairAgain(sent[r])
    {
      SentOnce(shards, t, max, w, h, r, sent[r]);
      OnceIsNoPairAgain(FlushesOf(h.tries[r][h.complete[r]].walk, max), sent[r]);
    }
  }

  lemma ReplicaBehind(shards: KeyedWorkers.Shards, route: Pair -> nat, t: nat, max: nat, w: Wire, h: History,
                      sent: seq<seq<PairMessage>>, r: nat)
    requires Shaped(w, h) && r < |h.inputs| && ReplicaDid(shards, t, max, w, h, r) && |sent| == |h.tries|
    requires OnePerPair(FlushesOf(h.tries[r][h.complete[r]].walk, max), sent[r])
    ensures Query4Execution.Shaped(Behind(w, route, h, sent))
    ensures Query4Execution.ReplicaDid(shards, t, max, Behind(w, route, h, sent), r)
  {
    hide Delivers, HasShard, LocalHeavy, HeavyPaths, IsWalk, SplitsNoPair, OnePerPair, FlushesOf, Completed, IsCount,
         Routed, Flattened, AddedPairs;
    var last := h.tries[r][h.complete[r]];
    assert Tried(max, h, r, last);
    var e := Behind(w, route, h, sent);
    assert e.ready[r] == last.ready && e.sealedAt[r] == last.sealedAt && e.walks[r] == last.walk;
    assert PathsOf(e, r) == TryPaths(h, r, last);
  }

  /** What is left of a history behind deduplication is an execution. */
  lemma BehindIsExecuted(shards: KeyedWorkers.Shards, route: Pair -> nat, t: nat, max: nat, w: Wire, h: History,
                         sent: seq<seq<PairMessage>>)
    requires Shaped(w, h) && Happened(shards, route, t, max, w, h) && Lists(h, sent) && max > 0
    ensures Executed(shards, route, t, max, Behind(w, route, h, sent))
    ensures forall j, i :: 0 <= j < |h.accs| && 0 <= i < |h.releases[j]| ==>
              HeldAt(w, h, j, h.releases[j][i]) == Behind(w, route, h, sent).accs[j]
  {
    hide ReplicaDid, AccumulatorDid, ThresholdDid, JoinDid, PairsTravel, ListsTravel, SealBarrier.IsRun, OnePerPair,
         NoPairAgain, FlushesOf, SaidBy, Query4Execution.ReplicaDid, Lists, Routed, Flattened, AddedPairs, Saves;
    assert |sent| == |h.tries| by {
      ListsSize(h, sent);
    }
    ListsSentOnce(shards, route, t, max, w, h, sent);
    var e := Behind(w, route, h, sent);
    forall r: nat | r < |h.inputs| ensures Query4Execution.ReplicaDid(shards, t, max, e, r) {
      ReplicaBehind(shards, route, t, max, w, h, sent, r);
    }
    forall j: nat, i: nat | j < |h.accs| && i < |h.releases[j]|
      ensures HeldAt(w, h, j, h.releases[j][i]) == e.accs[j]
    {
      HeldIsAdded(w, route, h, sent, j, h.releases[j][i]);
    }
    forall j: nat | j < |h.accs| ensures Query4Execution.AccumulatorDid(route, e, j) {
      ReleaseOrder(w, route, h, j, 0);
    }
  }

  lemma ListsSize(h: History, sent: seq<seq<PairMessage>>)
    requires Lists(h, sent)
    ensures |sent| == |h.tries|
  {
  }

  lemma ReleaseOrder(w: Wire, route: Pair -> nat, h: History, j: nat, i: nat)
    requires Shaped(w, h) && j < |h.accs| && AccumulatorDid(w, route, h, j) && i < |h.releases[j]|
    ensures var (x, acc) := (h.releases[j][i], HeldAt(w, h, j, h.releases[j][i]));
            && Elements(x.order) == acc.Keys && |x.order| == |acc|
            && (Distinct(acc.Keys, (p: Pair) => p.Key()) ==> Ascending(x.order, (p: Pair) => p.Key()))
  {
    hide Served, Posted, Distinct, Ascending, Deliveries.IsRun;
    assert Releases(w, route, h, j, h.releases[j][i]);
  }

  /** An accumulator that dies in the middle of its results sends the same batches again. */
  lemma SameBatches(shards: KeyedWorkers.Shards, route: Pair -> nat, t: nat, max: nat, w: Wire, h: History,
                    sent: seq<seq<PairMessage>>, j: nat, i: nat)
    requires Shaped(w, h) && Happened(shards, route, t, max, w, h) && t > 0 && max > 0
    requires |sent| == |h.tries| && Lists(h, sent)
    requires AllReadable(GraphOf(h.txs)) && j < |h.accs| && i < |h.releases[j]|
    ensures ReleaseShaped(w, h, j, h.releases[j][i])
    ensures BatchesAt(w, h, j, h.releases[j][i]) == Emitted(Behind(w, route, h, sent), j)
  {
    var e := Behind(w, route, h, sent);
    BehindIsExecuted(shards, route, t, max, w, h, sent);
    hide ReplicaDid, AccumulatorDid, ThresholdDid, JoinDid, PairsTravel, ListsTravel, SealBarrier.IsRun, Lists,
         Executed, Distinct, Ascending, AllReadable, GraphOf, Routed, Flattened, AddedPairs, EmitAll;
    KeysApart(shards, route, t, max, e, j);
    ReleaseOrder(w, route, h, j, 0);
    ReleaseOrder(w, route, h, j, i);
    BatchesReproducible(e.accs[j], h.releases[j][0].order, h.releases[j][i].order);
  }

  // ---------------------------------------------------------------- the join

  /** The slot holds an entry that reaches the threshold. */
  ghost predicate Fills(t: nat, e: Execution, s: Slot)
    requires Query4Execution.Shaped(e)
  {
    && s.acc < |e.accs| && s.batch < |Emitted(e, s.acc)| && s.key in Emitted(e, s.acc)[s.batch]
    && Emitted(e, s.acc)[s.batch][s.key].count >= t
  }

  function EntryAt(t: nat, e: Execution, s: Slot): Entry
    requires Query4Execution.Shaped(e) && Fills(t, e, s)
  {
    Emitted(e, s.acc)[s.batch][s.key]
  }

  /** What the join is sent is one list for each such entry, whatever was repeated. */
  ghost predicate ListsFilled(w: Wire, t: nat, h: History, e: Execution)
    requires Query4Execution.Shaped(e) && Shaped(w, h)
  {
    && (forall env <- h.listed ::
          exists s <- Slots(w, t, h) :: Fills(t, e, s) && env == ListEnvelope(w, s, EntryAt(t, e, s)))
    && (forall s: Slot :: Fills(t, e, s) ==>
          ListEnvelope(w, s, EntryAt(t, e, s)) in h.listed
          && w.readList(w.writeList(ListOf(EntryAt(t, e, s)))) == Some(ListOf(EntryAt(t, e, s))))
  }

  lemma ThresholdFills(w: Wire, t: nat, h: History, e: Execution)
    requires Query4Execution.Shaped(e) && Shaped(w, h) && |e.accs| == |h.accs|
    requires ThresholdDid(w, t, h) && ListsTravel(w, t, h)
    requires forall j, i :: 0 <= j < |h.accs| && 0 <= i < |h.releases[j]| ==>
               BatchesAt(w, h, j, h.releases[j][i]) == Emitted(e, j)
    ensures ListsFilled(w, t, h, e)
  {
    hide Emitted, ListEnvelope, ListOf, BatchesAt, Apart, ReleaseShaped;
    forall env <- h.listed
      ensures exists s <- Slots(w, t, h) :: Fills(t, e, s) && env == ListEnvelope(w, s, EntryAt(t, e, s))
    {
      var j, i :| 0 <= j < |h.accs| && 0 <= i < |h.releases[j]|
                  && env in ListsOf(w, t, j, BatchesAt(w, h, j, h.releases[j][i]));
      var n, k :| 0 <= n < |Emitted(e, j)| && k in Emitted(e, j)[n] && Emitted(e, j)[n][k].count >= t
                  && env == ListEnvelope(w, Slot(j, n, k), Emitted(e, j)[n][k]);
      var s := Slot(j, n, k);
      assert s in SlotsOf(t, j, Emitted(e, j));
      assert s in Slots(w, t, h);
      assert Fills(t, e, s) && env == ListEnvelope(w, s, EntryAt(t, e, s));
    }
    forall s: Slot | Fills(t, e, s)
      ensures ListEnvelope(w, s, EntryAt(t, e, s)) in h.listed
      ensures w.readList(w.writeList(ListOf(EntryAt(t, e, s)))) == Some(ListOf(EntryAt(t, e, s)))
    {
      var i :| 0 <= i < |h.releases[s.acc]|
               && ListsOf(w, t, s.acc, BatchesAt(w, h, s.acc, h.releases[s.acc][i])) <= h.listed;
      assert ListEnvelope(w, Slot(s.acc, s.batch, s.key), Emitted(e, s.acc)[s.batch][s.key])
          in ListsOf(w, t, s.acc, Emitted(e, s.acc));
      assert Readback(w, t, Emitted(e, s.acc));
    }
  }

  lemma ListedIsInput(w: Wire, t: nat, h: History, e: Execution, l: seq<Envelope>)
    requires Query4Execution.Shaped(e) && Shaped(w, h) && ListsFilled(w, t, h, e) && ListsTravel(w, t, h)
    requires Elements(l) == h.listed && Unique(l)
    ensures Deliveries.Input(l)
  {
    hide Fills, EntryAt, Slots, Readback, Emitted;
    forall env <- l ensures env.id != ZERO_ID {
      assert env in Elements(l);
    }
    forall i, j | 0 <= i < j < |l| ensures l[i].id != l[j].id {
      assert l[i] in Elements(l) && l[j] in Elements(l);
      var a :| a in Slots(w, t, h) && Fills(t, e, a) && l[i] == ListEnvelope(w, a, EntryAt(t, e, a));
      var b :| b in Slots(w, t, h) && Fills(t, e, b) && l[j] == ListEnvelope(w, b, EntryAt(t, e, b));
    }
  }

  lemma ListedIffPasses(w: Wire, t: nat, h: History, e: Execution, l: seq<Envelope>, a: Account)
    requires Query4Execution.Shaped(e) && Shaped(w, h) && ListsFilled(w, t, h, e) && Elements(l) == h.listed
    ensures Listed(w.readList, l, a) <==> exists j :: 0 <= j < |e.accs| && PassesThreshold(Emitted(e, j), t, a)
  {
    hide Emitted, Slots;
    if m :| m in l && m.msgType == ADD && a in w.readList(m.payload).GetOr([]) {
      assert m in Elements(l);
      var s :| s in Slots(w, t, h) && Fills(t, e, s) && m == ListEnvelope(w, s, EntryAt(t, e, s));
      assert PassesThreshold(Emitted(e, s.acc), t, a);
    }
    if j :| 0 <= j < |e.accs| && PassesThreshold(Emitted(e, j), t, a) {
      var n, k :| 0 <= n < |Emitted(e, j)| && k in Emitted(e, j)[n] && Emitted(e, j)[n][k].count >= t
                  && (a == Emitted(e, j)[n][k].src || a == Emitted(e, j)[n][k].dst);
      var s := Slot(j, n, k);
      assert Fills(t, e, s);
      var m := ListEnvelope(w, s, EntryAt(t, e, s));
      assert m in Elements(l);
    }
  }

  lemma ListServed(w: Wire, h: History, adds: seq<Envelope>, a: Account)
    requires Shaped(w, h) && Saves(w) && JoinDid(w, h) && Deliveries.Input(adds) && Elements(adds) == h.listed
    requires forall m <- adds :: m.client == w.client
    ensures w.client in h.join[h.done].clients
    ensures a in h.join[h.done].clients[w.client].w.w <==> Listed(w.readList, adds, a)
  {
    hide Deliveries.IsRun, Reloads, Deliveries.Input, ExactlyOnce.Fold, Adder, Listed;
    forall all, p, q ensures AddedAccounts(AddedAccounts(all, p), q) == AddedAccounts(AddedAccounts(all, q), p) {
    }
    ServedIsSum(w.cfg, {}, w.readList, AddedAccounts, w.setSnap, w.setLoad, h.join, h.done, w.client, adds);
    AccountFold(w.readList, w.setSnap, w.setLoad, adds, a);
  }

  lemma JoinKnowsClient(w: Wire, h: History)
    requires Shaped(w, h) && JoinDid(w, h)
    ensures w.client in h.join[h.done].clients
  {
    hide Deliveries.IsRun;
  }

  lemma ListedForClient(w: Wire, t: nat, h: History, e: Execution, l: seq<Envelope>)
    requires Query4Execution.Shaped(e) && Shaped(w, h) && ListsFilled(w, t, h, e) && Elements(l) == h.listed
    ensures forall m <- l :: m.client == w.client
  {
    hide Slots, Fills, EntryAt;
    forall m <- l ensures m.client == w.client {
      assert m in Elements(l);
    }
  }

  /** For any batches of transactions between readable accounts, any number of replicas and any history of
      deliveries, repetitions, deaths and restarts of all workers: when the last EOF comes to the join, the set
      it holds is the centralised result. */
  lemma ResultIsReference(shards: KeyedWorkers.Shards, route: Pair -> nat, t: nat, max: nat, w: Wire, h: History)
    requires Happened(shards, route, t, max, w, h) && t > 0 && max > 0 && AllReadable(GraphOf(h.txs))
    ensures w.client in h.join[h.done].clients
    ensures h.join[h.done].clients[w.client].w.w == Reference(GraphOf(h.txs), t)
  {
    hide ReplicaDid, AccumulatorDid, ThresholdDid, JoinDid, PairsTravel, ListsTravel, SealBarrier.IsRun, Lists,
         Executed, AllReadable, GraphOf, Reference, PassesThreshold, Emitted, ListsFilled, Saves, Listed,
         Deliveries.Input;
    assert h.tries[..|h.tries|] == h.tries;
    var sent := SomeLists(h, |h.tries|);
    var e := Behind(w, route, h, sent);
    BehindIsExecuted(shards, route, t, max, w, h, sent);
    forall j: nat, i: nat | j < |h.accs| && i < |h.releases[j]|
      ensures BatchesAt(w, h, j, h.releases[j][i]) == Emitted(e, j)
    {
      SameBatches(shards, route, t, max, w, h, sent, j, i);
    }
    ThresholdFills(w, t, h, e);
    var l := SomeOrder(h.listed);
    ListedIsInput(w, t, h, e, l);
    ListedForClient(w, t, h, e, l);
    JoinKnowsClient(w, h);
    forall a
      ensures a in h.join[h.done].clients[w.client].w.w <==> a in Reference(GraphOf(h.txs), t)
    {
      ListServed(w, h, l, a);
      ListedIffPasses(w, t, h, e, l, a);
      SelectedIsReference(shards, route, t, max, e, a);
    }
  }
}
