// One history of Query 4 with a bridged pair in it: what the end-to-end theorem asks of a history can be had.
module Query4Example {
  import opened Bytes
  import opened Dedup
  import opened Publisher
  import opened Accounts
  import opened Query4
  import opened ScatterAndGather
  import opened PairSplits
  import opened PairCounts
  import opened HeavyMonitor
  import opened StringOrder
  import opened Query4Pipeline
  import opened Query4Execution
  import opened CrashFreeResults
  import opened Query4EndToEnd
  import Coordinators
  import Deliveries
  import ExactlyOnce
  import Checkpoint
  import DeltaLog
  import KeyedWorkers
  import SealBarrier

  const SOURCE := Account("1", "a")
  const BRIDGE := Account("1", "b")
  const SINK := Account("1", "c")
  const PATH := Path(SOURCE, BRIDGE, SINK)
  const PAIR := PairOf(SOURCE, SINK)

  const TXS: seq<Txs> :=
    [[KeyedWorkers.Tx("", SOURCE, BRIDGE, ""), KeyedWorkers.Tx("", BRIDGE, SINK, "")]]

  const SHARDS := KeyedWorkers.Shards((a: Account) => 0, (i: nat) => "")

  lemma ExampleGraph()
    ensures GraphOf(TXS) == {Edge(SOURCE, BRIDGE), Edge(BRIDGE, SINK)} && AllReadable(GraphOf(TXS))
  {
    var g := GraphOf(TXS);
    assert TXS[0][0] in TXS[0] && TXS[0][1] in TXS[0];
    GraphEdge(TXS, 0, TXS[0][0]);
    GraphEdge(TXS, 0, TXS[0][1]);
    assert SOURCE.GetId() == "1-a" && BRIDGE.GetId() == "1-b" && SINK.GetId() == "1-c";
    assert Readable(SOURCE) && Readable(BRIDGE) && Readable(SINK);
  }

  // ---------------------------------------------------------------- the replica

  lemma ExampleShard() returns (input: seq<DeltaLog.Batch>, run: seq<DeltaLog.Replica>)
    ensures Delivers(SHARDS, TXS, 0, input) && |run| == 4 && HasShard(input, run, 3)
  {
    hide BucketsOf, BatchOf, AddedAll;
    var s, g := BatchFor(Scatter), BatchFor(Gather);
    input := [s, g];
    ExampleDelivers();
    var r0 := DeltaLog.START;
    var r1 := r0.(mem := AddedAll(r0.mem, s.role, s.edges), next := 1, reached := 1);
    var r2 := r1.(mem := AddedAll(r1.mem, g.role, g.edges), next := 2, reached := 2);
    var r3 := r2.(flags := r2.flags.(localDone := true));
    run := [r0, r1, r2, r3];
    assert DeltaLog.Deliver(input, r0, r1) && DeltaLog.Deliver(input, r1, r2) && DeltaLog.HandleEof(input, r2, r3);
  }

  function BatchFor(role: Role): DeltaLog.Batch {
    BatchOf(role, BucketsOf(SHARDS, TXS[0], role, 0))
  }

  lemma ExampleDelivers()
    ensures Delivers(SHARDS, TXS, 0, [BatchFor(Scatter), BatchFor(Gather)])
  {
    hide BucketsOf;
    var input := [BatchFor(Scatter), BatchFor(Gather)];
    NoUnknown(TXS[0]);
    forall i, role | 0 <= i < |TXS| && BucketsOf(SHARDS, TXS[i], role, 0) != []
      ensures BatchOf(role, BucketsOf(SHARDS, TXS[i], role, 0)) in input
    {
      assert i == 0 && (role == Scatter || role == Gather);
      assert input[if role == Scatter then 0 else 1] == BatchFor(role);
    }
    forall b <- input
      ensures exists i :: 0 <= i < |TXS| && b == BatchOf(b.role, BucketsOf(SHARDS, TXS[i], b.role, 0))
    {
      assert b == BatchOf(b.role, BucketsOf(SHARDS, TXS[0], b.role, 0));
    }
  }

  lemma NoUnknown(txs: Txs)
    ensures BucketsOf(SHARDS, txs, Unknown, 0) == []
  {
    var b := BucketsOf(SHARDS, txs, Unknown, 0);
    if b != [] {
      KeyedWorkers.SplitIsSharding(SHARDS, txs, (Unknown, 0), b[0]);
    }
  }

  /** Any accounts can be published, one at a time. */
  lemma {:induction false} OneByOne(side: Side, accounts: set<Account>) returns (msgs: seq<PeerMessage>)
    ensures Carried(msgs) == NO_HEAVY.Add(side, accounts)
    ensures forall m <- msgs :: m.HeavyBatch? && |m.accounts| == 1
  {
    if accounts == {} {
      msgs := [];
    } else {
      var a :| a in accounts;
      var rest := OneByOne(side, accounts - {a});
      msgs := rest + [HeavyBatch(side, [a])];
      CarriedSnoc(rest, HeavyBatch(side, [a]));
      assert SetOf([a]) == {a};
    }
  }

  lemma SomePublication(heavy: Heavy) returns (msgs: seq<PeerMessage>)
    ensures Publication(msgs, heavy)
  {
    var sources := OneByOne(Source, heavy.sources);
    var sinks := OneByOne(Sink, heavy.sinks);
    CarriedAppend(sources, sinks);
    CarriedSnoc(sources + sinks, Done);
    msgs := sources + sinks + [Done];
  }

  /** The only replica behind its i-th message. */
  function Published(msgs: seq<PeerMessage>, i: nat): SealBarrier.State
    requires i <= |msgs|
  {
    SealBarrier.State([SealBarrier.Fresh(1).(publishing := Some(msgs[i..]))], [msgs[..i]])
  }

  lemma PublishNext(local: Heavy, msgs: seq<PeerMessage>, i: nat)
    requires i < |msgs|
    ensures SealBarrier.Next([local], Published(msgs, i), Published(msgs, i + 1))
  {
    var s, s' := Published(msgs, i), Published(msgs, i + 1);
    assert msgs[i..][1..] == msgs[i + 1..] && msgs[..i] + [msgs[i..][0]] == msgs[..i + 1];
    assert s'.replicas == s.replicas[0 := s'.replicas[0]] && s'.sent == s.sent[0 := s'.sent[0]];
    assert SealBarrier.Publish([local], s, 0, s');
  }

  function Alone(local: Heavy, msgs: seq<PeerMessage>): SealBarrier.State {
    SealBarrier.State([SealBarrier.Answered(SealBarrier.Fresh(1), MergedLocal(NO_DEGREE, local, 0))], [msgs])
  }

  lemma PublishLast(local: Heavy, msgs: seq<PeerMessage>)
    ensures SealBarrier.Next([local], Published(msgs, |msgs|), Alone(local, msgs))
    ensures Alone(local, msgs).replicas[0].mem.sealed && Alone(local, msgs).replicas[0].mem.heavy == local
  {
    var s, s' := Published(msgs, |msgs|), Alone(local, msgs);
    assert msgs[|msgs|..] == [] && msgs[..|msgs|] == msgs;
    assert s'.replicas == s.replicas[0 := s'.replicas[0]];
    assert SealBarrier.FinishLocal([local], s, 0, s');
  }

  lemma PublishFirst(local: Heavy, msgs: seq<PeerMessage>)
    requires Publication(msgs, local)
    ensures SealBarrier.Init([local], SealBarrier.State([SealBarrier.Fresh(1)], [[]]))
    ensures SealBarrier.Next([local], SealBarrier.State([SealBarrier.Fresh(1)], [[]]), Published(msgs, 0))
  {
    hide Publication;
    var s, s' := SealBarrier.State([SealBarrier.Fresh(1)], [[]]), Published(msgs, 0);
    assert msgs[0..] == msgs;
    assert s'.replicas == s.replicas[0 := s'.replicas[0]];
    assert SealBarrier.StartPublishing([local], s, 0, msgs, s');
  }

  /** A replica without peers seals its own heavy accounts. */
  lemma ExampleSeal(local: Heavy) returns (run: seq<SealBarrier.State>, last: nat)
    ensures SealBarrier.IsRun([local], run) && last < |run| && |run[last].replicas| == 1
    ensures run[last].replicas[0].mem.sealed && run[last].replicas[0].mem.heavy == local
  {
    hide SealBarrier.Next, Published, Alone, Publication, SealBarrier.Init, SealBarrier.Fresh;
    var msgs := SomePublication(local);
    var n, first := |msgs|, SealBarrier.State([SealBarrier.Fresh(1)], [[]]);
    PublishFirst(local, msgs);
    PublishLast(local, msgs);
    forall i: nat | i < n ensures SealBarrier.Next([local], Published(msgs, i), Published(msgs, i + 1)) {
      PublishNext(local, msgs, i);
    }
    var publishing := seq(n + 1, i requires 0 <= i <= n => Published(msgs, i));
    run, last := [first] + publishing + [Alone(local, msgs)], n + 2;
    forall i | 0 <= i < |run| - 1 ensures SealBarrier.Next([local], run[i], run[i + 1]) {
      assert 0 < i <= n ==> run[i] == Published(msgs, i - 1) && run[i + 1] == Published(msgs, i);
    }
    AloneSize(local, msgs);
  }

  lemma AloneSize(local: Heavy, msgs: seq<PeerMessage>)
    ensures |Alone(local, msgs).replicas| == 1
  {
  }

  // ---------------------------------------------------------------- the workers behind it

  /** A worker that is delivered one message. */
  lemma OneDelivery<W(!new), P(!new)>(cfg: Checkpoint.Config, init: W, decode: Bytes -> Option<P>, add: (W, P) -> W,
                                      snap: Sum<W> -> Bytes, load: Bytes -> Sum<W>, env: Envelope, p: P)
    returns (run: seq<Deliveries.Process<Sum<W>>>)
    requires env.msgType == ADD && env.id != ZERO_ID && decode(env.payload) == Some(p)
    ensures |run| == 2 && Deliveries.IsRun(cfg, Adder(init, decode, add, snap, load), run)
    ensures env.client in run[1].clients && Served(run[1], env.client, {env})
    ensures run[1].clients[env.client].w.w == add(init, p)
  {
    var wk := Adder(init, decode, add, snap, load);
    var k := ExactlyOnce.FreshClient(wk);
    var k' := k.(w := Sum(add(init, p), 0), seen := {env.id}, pending := [env.id], order := [env]);
    var s := Deliveries.Process(map[env.client := k], Deliveries.Working, {}, [], [], 0, {});
    var o := Track(Some(env.client), ADD);
    assert ExactlyOnce.Receive(wk, k, env, k', o) by {
      assert ADD in wk.handlers && wk.handlers[ADD](k.w, env) == Handled(k'.w, true);
      assert {} + {env.id} == {env.id};
      assert Deliver(wk.handlers, View(k.w, k.seen), env) == (View(k'.w, k'.seen), o);
      assert [] + [env.id] == [env.id] && [] + [env] == [env];
    }
    var s' := s.(clients := s.clients[env.client := k'], delivered := {env}, acks := [Deliveries.Ack(0, env)],
                 nextTag := 1, dirty := if env.client != Coordinators.NIL_CLIENT then {env.client} else {});
    hide ExactlyOnce.Receive;
    assert Deliveries.Arrive(wk, s, env, o, s');
    run := [s, s'];
  }

  lemma ExamplePaths(scatter: Adjacency, gather: Adjacency, local: Heavy)
    requires HoldsShard(GraphOf(TXS), SHARDS.owner, 0, scatter, gather) && LocalHeavy(1, scatter, gather, local)
    ensures HeavyPaths(scatter, gather, local.sources, local.sinks) == {PATH}
  {
    hide GraphOf, HeavyPaths, LocalHeavy, HoldsShard;
    ExampleGraph();
    var g := GraphOf(TXS);
    assert OutOf(g, SOURCE) == {BRIDGE} && InTo(g, SINK) == {BRIDGE};
    LocalIsGlobal(g, SHARDS.owner, 1, 0, scatter, gather, local, SOURCE);
    LocalIsGlobal(g, SHARDS.owner, 1, 0, scatter, gather, local, SINK);
    forall p ensures p in HeavyPaths(scatter, gather, local.sources, local.sinks) <==> p == PATH {
      PathInShard(g, SHARDS.owner, 0, scatter, gather, local.sources, local.sinks, p);
    }
  }

  // ---------------------------------------------------------------- put together

  const ONE: MsgId := [1, 0, 0, 0, 0, 0, 0, 0, 0, 0, 0, 0, 0, 0, 0, 0]
  const BATCH: Batch := map[PAIR.Key() := Entry(1, SOURCE, SINK)]
  const SLOT := Slot(0, 0, PAIR.Key())

  /** One pair and one list are sent, so one id for each kind will do. */
  function ExampleWire(cfg: Checkpoint.Config, pairSnap: PairSnap, pairLoad: PairLoad, setSnap: SetSnap,
                       setLoad: SetLoad): Wire
  {
    Wire("client", cfg, (o: Origin) => ONE, (m: PairMessage) => [], (b: Bytes) => Some([(PAIR, 1)]), pairSnap, pairLoad,
         (s: Slot) => ONE, (l: seq<Account>) => [], (b: Bytes) => Some([SOURCE, SINK]), setSnap, setLoad)
  }

  lemma ExampleBatch()
    ensures Batches(EmitAll([PAIR], map[PAIR := 1])) == [BATCH]
  {
    AccountRoundTripIff(SOURCE);
    AccountRoundTripIff(SINK);
    assert EmitAll([], map[PAIR := 1]) == Emission([], map[]);
    assert [PAIR][..0] == [];
    assert EmitAll([PAIR], map[PAIR := 1]) == Emit(Emission([], map[]), PAIR, 1);
    assert EntryOf(PAIR, 1) == Entry(1, SOURCE, SINK);
    assert |BATCH| == 1;
  }

  /** What a complete walk of the one path says. */
  lemma ExampleTry(h: History, walk: seq<Path>, said: set<PairMessage>, x: Try)
    requires |h.inputs| == |h.graphs| == 1 && TryShaped(h, 0, x) && TryPaths(h, 0, x) == {PATH}
    requires HasShard(h.inputs[0], h.graphs[0], x.ready) && h.seal[x.sealedAt].replicas[0].mem.sealed
    requires x.walk == walk && IsWalk(walk, {PATH}) && x.said == said
    requires said == set f <- FlushesOf(walk, 2), k <- f :: (k, f[k])
    ensures Tried(2, h, 0, x) && Completed(2, x) && said == {(PAIR, 1)}
  {
    hide TryShaped, HasShard, IsWalk, FlushesOf, TryPaths;
    assert PairsOf({PATH}) == {PAIR};
    assert SplitsNoPair(2, {PATH});
    assert Tried(2, h, 0, x);
    assert Completed(2, x);
    TryCounts(2, h, 0, x);
    assert On({PATH}, PAIR) == {PATH};
    forall m <- said ensures m == (PAIR, 1) {
      assert |On({PATH}, m.0)| > 0;
      var p := OnMember({PATH}, m.0);
    }
  }

  /** One replica, one accumulator, one try, one release. */
  ghost predicate Small(w: Wire, h: History) {
    && |h.inputs| == |h.graphs| == |h.found| == |h.local| == |h.tries| == |h.complete| == 1
    && |h.accs| == |h.releases| == 1 && |h.tries[0]| == 1 && h.complete[0] == 0
    && SaidBy(h.tries[0]) == {(PAIR, 1)}
    && h.releases[0] == [Release(1, [PAIR])] && |h.accs[0]| == 2 && w.client in h.accs[0][1].clients
    && h.accs[0][1].clients[w.client].w.w == map[PAIR := 1]
    && h.listed == {ListEnvelope(w, SLOT, Entry(1, SOURCE, SINK))} && h.done < |h.join|
  }

  lemma SmallPairs(cfg: Checkpoint.Config, pairSnap: PairSnap, pairLoad: PairLoad, setSnap: SetSnap,
                   setLoad: SetLoad, h: History)
    requires Small(ExampleWire(cfg, pairSnap, pairLoad, setSnap, setLoad), h)
    ensures var w := ExampleWire(cfg, pairSnap, pairLoad, setSnap, setLoad);
            && Query4EndToEnd.Shaped(w, h) && PairsTravel(w, h)
            && Posted(w, (k: Pair) => 0, h, 0) == {PairEnvelope(w, 0, (PAIR, 1))}
  {
    hide SaidBy;
    var w := ExampleWire(cfg, pairSnap, pairLoad, setSnap, setLoad);
    assert Origins(h) == {Origin(0, PAIR)};
    assert (PAIR, 1) in SaidBy(h.tries[0]);
  }

  lemma SmallLists(cfg: Checkpoint.Config, pairSnap: PairSnap, pairLoad: PairLoad, setSnap: SetSnap,
                   setLoad: SetLoad, h: History)
    requires var w := ExampleWire(cfg, pairSnap, pairLoad, setSnap, setLoad); Small(w, h) && Query4EndToEnd.Shaped(w, h)
    ensures var w := ExampleWire(cfg, pairSnap, pairLoad, setSnap, setLoad);
            ListsTravel(w, 1, h) && ThresholdDid(w, 1, h)
  {
    hide SaidBy, EmitAll, Batches;
    var w := ExampleWire(cfg, pairSnap, pairLoad, setSnap, setLoad);
    ExampleBatch();
    var x := h.releases[0][0];
    assert BatchesAt(w, h, 0, x) == [BATCH];
    assert SlotsOf(1, 0, [BATCH]) == {SLOT} by {
      assert [BATCH][0][PAIR.Key()].count >= 1;
    }
    assert Slots(w, 1, h) == {SLOT};
    assert ListsOf(w, 1, 0, [BATCH]) == h.listed;
  }

  lemma SomeReplica()
    returns (input: seq<DeltaLog.Batch>, graph: seq<DeltaLog.Replica>, local: Heavy, seal: seq<SealBarrier.State>,
             last: nat)
    ensures Delivers(SHARDS, TXS, 0, input) && HasShard(input, graph, 3)
    ensures LocalHeavy(1, graph[3].mem.scatter, graph[3].mem.gather, local)
    ensures HeavyPaths(graph[3].mem.scatter, graph[3].mem.gather, local.sources, local.sinks) == {PATH}
    ensures SealBarrier.IsRun([local], seal) && last < |seal| && |seal[last].replicas| == 1
    ensures seal[last].replicas[0].mem.sealed && seal[last].replicas[0].mem.heavy == local
  {
    hide HasShard, Delivers, GraphOf, HoldsShard, HeavyPaths, SealBarrier.IsRun;
    input, graph := ExampleShard();
    assert |graph| == 4;
    ShardHeld(SHARDS, TXS, 0, input, graph, 3);
    var mem := graph[3].mem;
    local := Heavy(set a | a in mem.scatter && |mem.scatter[a]| >= 1, set a | a in mem.gather && |mem.gather[a]| >= 1);
    hide LocalHeavy;
    LocalOf(mem.scatter, mem.gather);
    ExamplePaths(mem.scatter, mem.gather, local);
    seal, last := ExampleSeal(local);
  }

  lemma SmallReplica(w: Wire, h: History)
    requires Query4EndToEnd.Shaped(w, h) && |h.inputs| == 1 && |h.tries[0]| == 1 && h.txs == TXS
    requires Delivers(SHARDS, TXS, 0, h.inputs[0]) && HasShard(h.inputs[0], h.graphs[0], h.found[0])
    requires var mem := h.graphs[0][h.found[0]].mem; LocalHeavy(1, mem.scatter, mem.gather, h.local[0])
    requires Tried(2, h, 0, h.tries[0][0]) && Completed(2, h.tries[0][0])
    ensures Query4EndToEnd.ReplicaDid(SHARDS, 1, 2, w, h, 0)
  {
    hide HasShard, Delivers, LocalHeavy, Tried, Completed;
  }

  lemma SmallAccumulator(w: Wire, h: History)
    requires Query4EndToEnd.Shaped(w, h) && Small(w, h)
    requires Posted(w, (k: Pair) => 0, h, 0) == {PairEnvelope(w, 0, (PAIR, 1))}
    requires Deliveries.IsRun(w.cfg, PairWorker(w.readPairs, w.pairSnap, w.pairLoad), h.accs[0])
    requires Served(h.accs[0][1], w.client, {PairEnvelope(w, 0, (PAIR, 1))})
    ensures Query4EndToEnd.AccumulatorDid(w, (k: Pair) => 0, h, 0)
  {
    hide Posted, PairEnvelope, Served, Deliveries.IsRun, PairWorker, SaidBy;
    var x := h.releases[0][0];
    assert HeldAt(w, h, 0, x) == map[PAIR := 1];
    assert Elements(x.order) == {PAIR};
    assert Ascending(x.order, (p: Pair) => p.Key());
    assert Releases(w, (k: Pair) => 0, h, 0, x);
  }

  lemma SomeWorkers(cfg: Checkpoint.Config, pairSnap: PairSnap, pairLoad: PairLoad, setSnap: SetSnap, setLoad: SetLoad)
    returns (accs: seq<Totals>, join: seq<Results>)
    ensures var w := ExampleWire(cfg, pairSnap, pairLoad, setSnap, setLoad);
            && |accs| == |join| == 2 && w.client in accs[1].clients && w.client in join[1].clients
            && Deliveries.IsRun(cfg, PairWorker(w.readPairs, pairSnap, pairLoad), accs)
            && Served(accs[1], w.client, {PairEnvelope(w, 0, (PAIR, 1))})
            && accs[1].clients[w.client].w.w == map[PAIR := 1]
            && Deliveries.IsRun(cfg, AccountWorker(w.readList, setSnap, setLoad), join)
            && Served(join[1], w.client, {ListEnvelope(w, SLOT, Entry(1, SOURCE, SINK))})
            && join[1].clients[w.client].w.w == {SOURCE, SINK}
  {
    hide Deliveries.IsRun, Served, AddedPairs, Adder;
    var w := ExampleWire(cfg, pairSnap, pairLoad, setSnap, setLoad);
    accs := OneDelivery(cfg, map[], w.readPairs, AddedPairs, pairSnap, pairLoad, PairEnvelope(w, 0, (PAIR, 1)),
                        [(PAIR, 1)]);
    OnePairAdded();
    join := OneDelivery(cfg, {}, w.readList, AddedAccounts, setSnap, setLoad,
                        ListEnvelope(w, SLOT, Entry(1, SOURCE, SINK)), [SOURCE, SINK]);
    assert Elements([SOURCE, SINK]) == {SOURCE, SINK};
  }

  /** Whatever the snapshots, some history has a result that is not empty. */
  lemma SomeHistory(cfg: Checkpoint.Config, pairSnap: PairSnap, pairLoad: PairLoad, setSnap: SetSnap, setLoad: SetLoad)
    returns (route: Pair -> nat, w: Wire, h: History)
    requires cfg.hasState && !cfg.hasEof && Reloads(pairSnap, pairLoad) && Reloads(setSnap, setLoad)
    ensures Happened(SHARDS, route, 1, 2, w, h) && AllReadable(GraphOf(h.txs))
    ensures w.client in h.join[h.done].clients && h.join[h.done].clients[w.client].w.w == {SOURCE, SINK}
  {
    hide HasShard, Delivers, GraphOf, AllReadable, LocalHeavy, HeavyPaths, IsWalk, FlushesOf, Deliveries.IsRun,
         SealBarrier.IsRun, Served, Reloads, AddedPairs, PairsTravel, ThresholdDid, ListsTravel, Tried, Completed,
         Posted, Query4EndToEnd.ReplicaDid, Query4EndToEnd.AccumulatorDid, PairWorker, AccountWorker, Readable;
    w := ExampleWire(cfg, pairSnap, pairLoad, setSnap, setLoad);
    route := (k: Pair) => 0;
    var input, graph, local, seal, last := SomeReplica();
    var walk := AnyWalk({PATH});
    var x := Try(3, last, walk, set f <- FlushesOf(walk, 2), k <- f :: (k, f[k]));
    var accs, join := SomeWorkers(cfg, pairSnap, pairLoad, setSnap, setLoad);
    var env := ListEnvelope(w, SLOT, Entry(1, SOURCE, SINK));
    h := History(TXS, [input], [graph], [3], [local], seal, [[x]], [0], [accs], [[Release(1, [PAIR])]], {env}, join, 1);
    GraphSize(input, graph, 3);
    ExampleTry(h, walk, x.said, x);
    assert SaidBy([x]) == x.said;
    assert Small(w, h);
    SmallPairs(cfg, pairSnap, pairLoad, setSnap, setLoad, h);
    SmallLists(cfg, pairSnap, pairLoad, setSnap, setLoad, h);
    SmallReplica(w, h);
    SmallAccumulator(w, h);
    ExampleGraph();
  }

  lemma GraphSize(input: seq<DeltaLog.Batch>, run: seq<DeltaLog.Replica>, i: nat)
    requires HasShard(input, run, i)
    ensures i < |run|
  {
  }

  lemma OnePairAdded()
    ensures AddedPairs(map[], [(PAIR, 1)]) == map[PAIR := 1]
  {
    assert [(PAIR, 1)][..0] == [];
  }

  lemma LocalOf(scatter: Adjacency, gather: Adjacency)
    ensures LocalHeavy(1, scatter, gather, Heavy(set a | a in scatter && |scatter[a]| >= 1,
                                                 set a | a in gather && |gather[a]| >= 1))
  {
  }
}
