// One replica's adjacency over crashes: batches and then the EOF arrive in queue order,
// unacked ones arrive again, a checkpoint stores the barrier flags together with the edges
// added since the last one, and the cross product consumes the adjacency in memory before
// the tombstone is saved.
module DeltaLog {
  import opened Accounts
  import opened Query4
  import opened ScatterAndGather

  datatype Delta = Delta(scatter: Adjacency, gather: Adjacency)

  datatype Batch = Batch(role: Role, edges: seq<Edge>)

  /** The adjacency as a relation. */
  ghost predicate Says(adj: Adjacency, edges: set<Edge>, role: Role) {
    forall a, n :: n in Neighbors(adj, a) <==> (if role.Gather? then Edge(n, a) else Edge(a, n)) in edges
  }

  function EdgesOf(batches: seq<Batch>, role: Role): set<Edge> {
    set i, e | 0 <= i < |batches| && batches[i].role == role && e in batches[i].edges :: e
  }

  /** Exactly the edges of these batches. */
  ghost predicate Holds(scatter: Adjacency, gather: Adjacency, batches: seq<Batch>) {
    Says(scatter, EdgesOf(batches, Scatter), Scatter) && Says(gather, EdgesOf(batches, Gather), Gather)
  }

  function ReplayedScatter(log: seq<Delta>): Adjacency {
    if log == [] then map[] else Merged(ReplayedScatter(log[..|log| - 1]), log[|log| - 1].scatter)
  }

  function ReplayedGather(log: seq<Delta>): Adjacency {
    if log == [] then map[] else Merged(ReplayedGather(log[..|log| - 1]), log[|log| - 1].gather)
  }

  /** The flags of the state slot. */
  datatype Flags = Flags(localDone: bool, completed: bool)

  /** `next` is what the queue delivers next, `acked` what it will not deliver again. `reached` and
      `saved` are bookkeeping: how many batches memory has seen and the disk holds. */
  datatype Replica = Replica(
    mem: Memory, flags: Flags, log: seq<Delta>, savedFlags: Flags, next: nat, acked: nat, reached: nat, saved: nat)

  const START := Replica(NO_MEMORY, Flags(false, false), [], Flags(false, false), 0, 0, 0, 0)

  ghost predicate Deliver(input: seq<Batch>, s: Replica, s': Replica) {
    && s.next < |input|
    && s' == s.(mem := AddedAll(s.mem, input[s.next].role, input[s.next].edges), next := s.next + 1,
                reached := if s.next < s.reached then s.reached else s.next + 1)
  }

  /** The EOF is behind the last batch; handling it looks at memory and sets the flag, unless completed. */
  ghost predicate HandleEof(input: seq<Batch>, s: Replica, s': Replica) {
    && s.next == |input|
    && s' == if s.flags.completed then s else s.(flags := s.flags.(localDone := true))
  }

  /** The cross product empties the adjacency in memory and marks the client completed. */
  ghost predicate StreamOut(s: Replica, s': Replica) {
    && s.flags.localDone && !s.flags.completed
    && s' == s.(mem := s.mem.(scatter := map[], gather := s.mem.gather - s.mem.scatter.Keys),
       flags := s.flags.(completed := true))
  }

  /** One committed checkpoint: flags and delta in the same generation; a completed client's snapshot is its
      tombstone. */
  ghost predicate Save(s: Replica, s': Replica) {
    s' == s.(log := s.log + [Delta(s.mem.pendingScatter, s.mem.pendingGather)],
             savedFlags := if s.flags.completed then Flags(false, true) else s.flags, saved := s.reached,
             mem := s.mem.(pendingScatter := map[], pendingGather := map[]))
  }

  /** Behind the saved tombstone the client's state is dropped. */
  ghost predicate Drop(s: Replica, s': Replica) {
    && s.savedFlags.completed && s.flags.completed && s.mem.pendingScatter == s.mem.pendingGather == map[]
    && s' == s.(mem := NO_MEMORY)
  }

  /** Acks fire only behind a checkpoint. */
  ghost predicate Ack(s: Replica, upTo: nat, s': Replica) {
    s.acked <= upTo <= s.next && upTo <= s.saved && s' == s.(acked := upTo)
  }

  /** A restart: the flags first; behind a tombstone the log is not replayed. */
  ghost predicate Crash(s: Replica, s': Replica) {
    s' == s.(mem := if s.savedFlags.completed then NO_MEMORY
                    else Memory(ReplayedScatter(s.log), ReplayedGather(s.log), map[], map[]),
             flags := s.savedFlags, next := s.acked, reached := s.saved)
  }

  ghost predicate Next(input: seq<Batch>, s: Replica, s': Replica) {
    || Deliver(input, s, s') || HandleEof(input, s, s') || StreamOut(s, s') || Save(s, s') || Drop(s, s')
    || (exists k :: Ack(s, k, s')) || Crash(s, s')
  }

  ghost predicate IsRun(input: seq<Batch>, run: seq<Replica>) {
    && |run| > 0 && run[0] == START
    && forall i :: 0 <= i < |run| - 1 ==> Next(input, run[i], run[i + 1])
  }

  // ---------------------------------------------------------------- invariant

  /** Log and pending delta together say these edges; memory says no others and, if exact, just them. */
  ghost predicate Tracks(base: Adjacency, pending: Adjacency, adj: Adjacency, edges: set<Edge>, role: Role,
                         exact: bool) {
    && Says(Merged(base, pending), edges, role)
    && (forall a :: Neighbors(adj, a) <= Neighbors(Merged(base, pending), a))
    && (exact ==> forall a :: Neighbors(adj, a) == Neighbors(Merged(base, pending), a))
  }

  ghost predicate Invariant(input: seq<Batch>, s: Replica) {
    && s.acked <= s.saved <= s.reached <= |input| && s.acked <= s.next <= s.reached
    && Tracks(ReplayedScatter(s.log), s.mem.pendingScatter, s.mem.scatter, EdgesOf(input[..s.reached], Scatter),
       Scatter, !s.flags.completed)
    && Tracks(ReplayedGather(s.log), s.mem.pendingGather, s.mem.gather, EdgesOf(input[..s.reached], Gather), Gather,
       !s.flags.completed)
    && Holds(ReplayedScatter(s.log), ReplayedGather(s.log), input[..s.saved])
    && (s.flags.localDone ==> s.reached == |input|) && (s.savedFlags.localDone ==> s.saved == |input|)
  }

  lemma MergedNeighbors(adj: Adjacency, rec: Adjacency, a: Account)
    ensures Neighbors(Merged(adj, rec), a) == Neighbors(adj, a) + Neighbors(rec, a)
  {
  }

  lemma NeighborsWith(adj: Adjacency, a: Account, n: Account, x: Account)
    ensures Neighbors(WithNeighbor(adj, a, n), x) == Neighbors(adj, x) + if x == a then {n} else {}
  {
  }

  function EdgeAt(role: Role, a: Account, n: Account): Edge {
    if role.Gather? then Edge(n, a) else Edge(a, n)
  }

  /** One edge more on its own side: new in memory, or there already. */
  lemma TracksAdded(base: Adjacency, pending: Adjacency, adj: Adjacency, edges: set<Edge>, role: Role, exact: bool,
                    a: Account, n: Account)
    requires Tracks(base, pending, adj, edges, role, exact)
    ensures n in Neighbors(adj, a) ==> edges + {EdgeAt(role, a, n)} == edges
    ensures n !in Neighbors(adj, a) ==>
              Tracks(base, WithNeighbor(pending, a, n), WithNeighbor(adj, a, n), edges + {EdgeAt(role, a, n)}, role,
                  exact)
  {
    hide Merged, WithNeighbor, Neighbors;
    if n in Neighbors(adj, a) {
      assert n in Neighbors(Merged(base, pending), a);
    } else {
      forall x
        ensures Neighbors(Merged(base, WithNeighbor(pending, a, n)), x)
                == Neighbors(Merged(base, pending), x) + if x == a then {n} else {}
        ensures Neighbors(WithNeighbor(adj, a, n), x) == Neighbors(adj, x) + if x == a then {n} else {}
      {
        MergedNeighbors(base, WithNeighbor(pending, a, n), x);
        MergedNeighbors(base, pending, x);
        NeighborsWith(pending, a, n, x);
        NeighborsWith(adj, a, n, x);
      }
    }
  }

  function EdgeOn(e: Edge, role: Role, played: Role): set<Edge> {
    if role == played then {e} else {}
  }

  ghost predicate TracksBoth(log: seq<Delta>, m: Memory, ss: set<Edge>, gs: set<Edge>, exact: bool) {
    && Tracks(ReplayedScatter(log), m.pendingScatter, m.scatter, ss, Scatter, exact)
    && Tracks(ReplayedGather(log), m.pendingGather, m.gather, gs, Gather, exact)
  }

  lemma AddedTracks(log: seq<Delta>, m: Memory, role: Role, e: Edge, ss: set<Edge>, gs: set<Edge>, exact: bool)
    requires TracksBoth(log, m, ss, gs, exact)
    ensures TracksBoth(log, Added(m, role, e), ss + EdgeOn(e, role, Scatter), gs + EdgeOn(e, role, Gather), exact)
  {
    hide Tracks, Neighbors, WithNeighbor, ReplayedScatter, ReplayedGather;
    assert ss + {} == ss && gs + {} == gs;
    match role {
      case Scatter => TracksAdded(ReplayedScatter(log), m.pendingScatter, m.scatter, ss, Scatter, exact, e.from, e.to);
      case Gather => TracksAdded(ReplayedGather(log), m.pendingGather, m.gather, gs, Gather, exact, e.to, e.from);
      case Unknown =>
    }
  }

  function Listed(edges: seq<Edge>, role: Role, played: Role): set<Edge> {
    if role == played then set e <- edges else {}
  }

  lemma {:induction false} AddedAllTracks(log: seq<Delta>, m: Memory, role: Role, edges: seq<Edge>,
                                          ss: set<Edge>, gs: set<Edge>, exact: bool)
    requires TracksBoth(log, m, ss, gs, exact)
    ensures TracksBoth(log, AddedAll(m, role, edges), ss + Listed(edges, role, Scatter),
            gs + Listed(edges, role, Gather), exact)
    decreases |edges|
  {
    hide TracksBoth, Added;
    if edges == [] {
      assert ss + Listed(edges, role, Scatter) == ss && gs + Listed(edges, role, Gather) == gs;
    } else {
      var init, e := edges[..|edges| - 1], edges[|edges| - 1];
      assert edges == init + [e];
      AddedAllTracks(log, m, role, init, ss, gs, exact);
      AddedTracks(log, AddedAll(m, role, init), role, e, ss + Listed(init, role, Scatter),
          gs + Listed(init, role, Gather), exact);
      assert ss + Listed(init, role, Scatter) + EdgeOn(e, role, Scatter) == ss + Listed(edges, role, Scatter);
      assert gs + Listed(init, role, Gather) + EdgeOn(e, role, Gather) == gs + Listed(edges, role, Gather);
    }
  }

  lemma EdgesOfSnoc(batches: seq<Batch>, b: Batch, role: Role)
    ensures EdgesOf(batches + [b], role) == EdgesOf(batches, role) + Listed(b.edges, b.role, role)
  {
    var more := batches + [b];
    forall e <- EdgesOf(batches, role) ensures e in EdgesOf(more, role) {
      var i :| 0 <= i < |batches| && batches[i].role == role && e in batches[i].edges;
      assert more[i] == batches[i];
    }
    forall e <- Listed(b.edges, b.role, role) ensures e in EdgesOf(more, role) {
      assert more[|batches|] == b;
    }
  }

  lemma EdgesOfPrefix(batches: seq<Batch>, i: nat, role: Role)
    requires i < |batches|
    ensures Listed(batches[i].edges, batches[i].role, role) <= EdgesOf(batches, role)
  {
  }

  lemma DeliverKeeps(input: seq<Batch>, s: Replica, s': Replica)
    requires Invariant(input, s) && Deliver(input, s, s')
    ensures Invariant(input, s')
  {
    hide Says, Tracks, AddedAll, EdgesOf, ReplayedScatter, ReplayedGather;
    var b := input[s.next];
    var have := input[..s.reached];
    AddedAllTracks(s.log, s.mem, b.role, b.edges, EdgesOf(have, Scatter), EdgesOf(have, Gather), !s.flags.completed);
    forall role | role == Scatter || role == Gather
      ensures EdgesOf(have, role) + Listed(b.edges, b.role, role) == EdgesOf(input[..s'.reached], role)
    {
      if s.next < s.reached {
        assert have[s.next] == b;
        EdgesOfPrefix(have, s.next, role);
      } else {
        assert input[..s'.reached] == have + [b];
        EdgesOfSnoc(have, b, role);
      }
    }
  }

  /** Behind a checkpoint the log says all, memory is unchanged and nothing is pending. */
  lemma TracksSaved(base: Adjacency, pending: Adjacency, adj: Adjacency, edges: set<Edge>, role: Role, exact: bool)
    requires Tracks(base, pending, adj, edges, role, exact)
    ensures Tracks(Merged(base, pending), map[], adj, edges, role, exact) && Says(Merged(base, pending), edges, role)
  {
    MergedNothing(Merged(base, pending));
    hide Merged, Neighbors, Says;
  }

  lemma SaveKeeps(input: seq<Batch>, s: Replica, s': Replica)
    requires Invariant(input, s) && Save(s, s')
    ensures Invariant(input, s')
  {
    hide EdgesOf, Says, Tracks, Merged;
    assert s'.log[..|s.log|] == s.log;
    TracksSaved(ReplayedScatter(s.log), s.mem.pendingScatter, s.mem.scatter, EdgesOf(input[..s.reached], Scatter),
        Scatter, !s.flags.completed);
    TracksSaved(ReplayedGather(s.log), s.mem.pendingGather, s.mem.gather, EdgesOf(input[..s.reached], Gather), Gather,
        !s.flags.completed);
  }

  /** Memory may shrink once it need not be exact. */
  lemma TracksLess(base: Adjacency, pending: Adjacency, adj: Adjacency, less: Adjacency, edges: set<Edge>, role: Role,
                   exact: bool)
    requires Tracks(base, pending, adj, edges, role, exact) && forall a :: Neighbors(less, a) <= Neighbors(adj, a)
    ensures Tracks(base, pending, less, edges, role, false)
  {
    hide Merged, Neighbors, Says;
  }

  lemma ShrinkKeeps(input: seq<Batch>, s: Replica, s': Replica)
    requires Invariant(input, s) && (StreamOut(s, s') || Drop(s, s'))
    ensures Invariant(input, s')
  {
    hide EdgesOf, Says, Tracks, Merged, ReplayedScatter, ReplayedGather;
    forall a
      ensures Neighbors(s'.mem.scatter, a) <= Neighbors(s.mem.scatter, a)
      ensures Neighbors(s'.mem.gather, a) <= Neighbors(s.mem.gather, a)
    {
    }
    TracksLess(ReplayedScatter(s.log), s.mem.pendingScatter, s.mem.scatter, s'.mem.scatter,
               EdgesOf(input[..s.reached], Scatter), Scatter, !s.flags.completed);
    TracksLess(ReplayedGather(s.log), s.mem.pendingGather, s.mem.gather, s'.mem.gather,
               EdgesOf(input[..s.reached], Gather), Gather, !s.flags.completed);
  }

  /** Replayed memory tracks the log exactly; no memory tracks it loosely. */
  lemma TracksReplayed(base: Adjacency, edges: set<Edge>, role: Role)
    requires Says(base, edges, role)
    ensures Tracks(base, map[], base, edges, role, true) && Tracks(base, map[], map[], edges, role, false)
  {
    MergedNothing(base);
    hide Merged, Says;
  }

  lemma CrashKeeps(input: seq<Batch>, s: Replica, s': Replica)
    requires Invariant(input, s) && Crash(s, s')
    ensures Invariant(input, s')
  {
    hide EdgesOf, Says, Tracks, ReplayedScatter, ReplayedGather;
    TracksReplayed(ReplayedScatter(s.log), EdgesOf(input[..s.saved], Scatter), Scatter);
    TracksReplayed(ReplayedGather(s.log), EdgesOf(input[..s.saved], Gather), Gather);
  }

  lemma NextKeeps(input: seq<Batch>, s: Replica, s': Replica)
    requires Invariant(input, s) && Next(input, s, s')
    ensures Invariant(input, s')
  {
    hide Tracks, Says, AddedAll, EdgesOf, ReplayedScatter, ReplayedGather;
    if Deliver(input, s, s') {
      DeliverKeeps(input, s, s');
    } else if Save(s, s') {
      SaveKeeps(input, s, s');
    } else if StreamOut(s, s') || Drop(s, s') {
      ShrinkKeeps(input, s, s');
    } else if Crash(s, s') {
      CrashKeeps(input, s, s');
    }
  }

  /** Over all crashes and redeliveries: unless completed, memory is exactly the replayed log and the pending
      delta; and a replica whose local part of the barrier is done but which is not completed has the complete
      adjacency of its shard, also when it has just recovered the flag or lost an unsaved completion. */
  lemma {:induction false} DoneMeansComplete(input: seq<Batch>, run: seq<Replica>, i: nat)
    requires IsRun(input, run) && i < |run|
    ensures Invariant(input, run[i])
    ensures run[i].flags.localDone && !run[i].flags.completed ==> Holds(run[i].mem.scatter, run[i].mem.gather, input)
    ensures run[i].savedFlags.localDone ==> Holds(ReplayedScatter(run[i].log), ReplayedGather(run[i].log), input)
  {
    if i > 0 {
      DoneMeansComplete(input, run, i - 1);
      hide Next, Invariant;
      NextKeeps(input, run[i - 1], run[i]);
    } else {
      assert EdgesOf([], Scatter) == EdgesOf([], Gather) == {};
      TracksReplayed(map[], {}, Scatter);
      TracksReplayed(map[], {}, Gather);
    }
    CompleteWhenDone(input, run[i]);
  }

  lemma SaysExact(base: Adjacency, pending: Adjacency, adj: Adjacency, edges: set<Edge>, role: Role)
    requires Tracks(base, pending, adj, edges, role, true)
    ensures Says(adj, edges, role)
  {
    hide Merged, Neighbors;
  }

  lemma CompleteWhenDone(input: seq<Batch>, s: Replica)
    requires Invariant(input, s)
    ensures s.flags.localDone && !s.flags.completed ==> Holds(s.mem.scatter, s.mem.gather, input)
    ensures s.savedFlags.localDone ==> Holds(ReplayedScatter(s.log), ReplayedGather(s.log), input)
  {
    hide Tracks, Says, EdgesOf, ReplayedScatter, ReplayedGather;
    assert input[..|input|] == input;
    if s.flags.localDone && !s.flags.completed {
      SaysExact(ReplayedScatter(s.log), s.mem.pendingScatter, s.mem.scatter, EdgesOf(input, Scatter), Scatter);
      SaysExact(ReplayedGather(s.log), s.mem.pendingGather, s.mem.gather, EdgesOf(input, Gather), Gather);
    }
  }
}
