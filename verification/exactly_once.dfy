// A worker process over many clients: at-least-once deliveries, deduplication,
// flushes whose checkpoints advance one disk operation at a time, acks, crashes
// at any point and recovery. Every delivery may be repeated at any time.
module ExactlyOnce {
  import opened Bytes
  import opened Store
  import opened Dedup
  import opened Publisher
  import opened Coordinators
  import C = Checkpoint

  /** A stage's logic for one client: its handlers and the two snapshots taken of its state. */
  datatype Worker<!W> = Worker(
    init: W,
    handlers: Handlers<W>,
    snapState: W -> Bytes,
    snapEof: W -> Bytes,
    restore: (Option<Bytes>, Option<Bytes>) -> W)

  ghost predicate Faithful<W>(cfg: C.Config, wk: Worker<W>, w: W) {
    wk.restore(if cfg.hasState then Some(wk.snapState(w)) else None, if cfg.hasEof then Some(wk.snapEof(w)) else None)
        == w
  }

  /** Restoring what was captured gives the state back, and a failing handler changes nothing. */
  ghost predicate Sound<W(!new)>(cfg: C.Config, wk: Worker<W>) {
    && wk.restore(None, None) == wk.init
    && (forall w :: Faithful(cfg, wk, w))
    && (forall t <- wk.handlers :: FailsClean(wk.handlers[t]))
  }

  function Effect<W>(wk: Worker<W>, w: W, env: Envelope): W {
    if env.msgType in wk.handlers then wk.handlers[env.msgType](w, env).w else w
  }

  /** The crash-free meaning: handle these messages, in this order, once each. */
  function Fold<W>(wk: Worker<W>, msgs: seq<Envelope>): W {
    if msgs == [] then wk.init else Effect(wk, Fold(wk, msgs[..|msgs| - 1]), msgs[|msgs| - 1])
  }

  /** The ids dedup keeps: zero ids are not recorded. */
  function Ids(msgs: seq<Envelope>): (ids: seq<MsgId>)
    ensures forall m <- msgs :: m.id != ZERO_ID ==> m.id in ids
  {
    if msgs == [] then []
    else
      var last := msgs[|msgs| - 1];
      assert msgs == msgs[..|msgs| - 1] + [last];
      var ids := Ids(msgs[..|msgs| - 1]);
      if last.id == ZERO_ID then ids else ids + [last.id]
  }

  ghost predicate NoRepeat<T>(s: seq<T>) {
    forall i, j :: 0 <= i < j < |s| ==> s[i] != s[j]
  }

  // ---------------------------------------------------------------- one client

  /** `order` lists the messages whose effect memory (or, when down, the disk) holds; the first
      `durable` of them are committed. Both are bookkeeping: no step's outcome depends on them. */
  datatype Client<W> = Client(
    w: W, seen: set<MsgId>, pending: seq<MsgId>, ckpt: C.State, order: seq<Envelope>, durable: nat)

  function FreshClient<W>(wk: Worker<W>): Client<W> {
    Client(wk.init, {}, [], C.INIT, [], 0)
  }

  function Capture<W>(cfg: C.Config, wk: Worker<W>, c: Client<W>): C.Commit {
    Captured(cfg, ClientView(c.ckpt.disk, c.ckpt.gen, c.pending), wk.snapState(c.w), wk.snapEof(c.w))
  }

  /** Dispatch of one message; the outcome says whether it was handled, dropped as seen, or refused. */
  ghost predicate Receive<W>(wk: Worker<W>, c: Client<W>, env: Envelope, c': Client<W>, outcome: Outcome) {
    && c.ckpt.phase.Idle?
    && var (v, o) := Deliver(wk.handlers, View(c.w, c.seen), env);
       && outcome == o
       && c' == c.(w := v.w, seen := v.seen,
                   pending := c.pending + (if v.seen == c.seen then [] else [env.id]),
                   order := if o.Track? && o.client.Some? then c.order + [env] else c.order)
  }

  ghost predicate BeginSave<W>(cfg: C.Config, wk: Worker<W>, c: Client<W>, c': Client<W>) {
    C.Begin(c.ckpt, Capture(cfg, wk, c), c'.ckpt) && c' == c.(ckpt := c'.ckpt)
  }

  /** The next disk operation of the checkpoint; behind the append the delta is no longer pending. */
  ghost predicate AdvanceSave<W>(cfg: C.Config, c: Client<W>, c': Client<W>) {
    && C.Advance(cfg, c.ckpt, c'.ckpt)
    && c' == if c.ckpt.phase.next == C.APPEND_INDEX
             then c.(ckpt := c'.ckpt, pending := [], durable := |c.order|)
             else c.(ckpt := c'.ckpt)
  }

  /** Memory is gone; the disk keeps what was committed. */
  ghost predicate Die<W>(cfg: C.Config, wk: Worker<W>, c: Client<W>, c': Client<W>) {
    && (C.Crash(cfg, c.ckpt, c'.ckpt) || (c.ckpt.phase.Down? && c'.ckpt == c.ckpt))
    && var kept := if |c'.ckpt.hist| > |c.ckpt.hist| then |c.order| else c.durable;
       && kept <= |c.order|
       && c' == Client(wk.init, {}, [], c'.ckpt, c.order[..kept], kept)
  }

  /** Memory rebuilt from the files. */
  ghost predicate Loaded<W>(cfg: C.Config, wk: Worker<W>, c: Client<W>) {
    && C.Recover(cfg, c.ckpt.disk).Ok?
    && var mem := C.Recover(cfg, c.ckpt.disk).value.0;
       c.w == wk.restore(mem.state, mem.eof) && c.seen == ReplayAll(mem.deltas) && c.pending == []
  }

  ghost predicate Restore<W>(cfg: C.Config, wk: Worker<W>, c: Client<W>, c': Client<W>) {
    && (C.StartRecovery(cfg, c.ckpt, c'.ckpt) || C.AdvanceRecovery(cfg, c.ckpt, c'.ckpt))
    && c' == c.(w := c'.w, seen := c'.seen, pending := c'.pending, ckpt := c'.ckpt)
    && if c'.ckpt.phase.Idle? then Loaded(cfg, wk, c')
       else c'.w == wk.init && c'.seen == {} && c'.pending == []
  }

  // ---------------------------------------------------------------- what a client keeps

  /** The commits stand for exactly these messages. */
  ghost predicate Holds<W>(cfg: C.Config, wk: Worker<W>, hist: seq<C.Commit>, msgs: seq<Envelope>) {
    && ReplayAll(C.Deltas(hist)) == IdSet(Ids(msgs))
    && if hist == [] then msgs == []
       else
         && C.Last(hist, C.StateSlot) == (if cfg.hasState then wk.snapState(Fold(wk, msgs)) else [])
         && C.Last(hist, C.EofSlot) == (if cfg.hasEof then wk.snapEof(Fold(wk, msgs)) else [])
  }

  /** Memory stands for exactly the messages in `order`. */
  ghost predicate MemoryMatches<W>(wk: Worker<W>, c: Client<W>) {
    c.w == Fold(wk, c.order) && c.seen == IdSet(Ids(c.order))
  }

  ghost predicate ClientInvariant<W>(cfg: C.Config, wk: Worker<W>, c: Client<W>) {
    && C.Invariant(cfg, c.ckpt)
    && c.durable <= |c.order| && NoRepeat(Ids(c.order))
    && Holds(cfg, wk, c.ckpt.hist, c.order[..c.durable])
    && Ids(c.order) == Ids(c.order[..c.durable]) + c.pending
    && match c.ckpt.phase
       case Idle => MemoryMatches(wk, c)
       case Checkpointing(gen, commit, k) =>
         && MemoryMatches(wk, c)
         && (k <= C.APPEND_INDEX ==> commit == Capture(cfg, wk, c))
         && (k > C.APPEND_INDEX ==> c.durable == |c.order|)
       case Down => c.durable == |c.order|
       case Recovering(_) => c.durable == |c.order|
  }

  lemma IdsSnoc(msgs: seq<Envelope>, m: Envelope)
    ensures Ids(msgs + [m]) == Ids(msgs) + if m.id == ZERO_ID then [] else [m.id]
  {
    assert (msgs + [m])[..|msgs|] == msgs;
  }

  lemma FoldSnoc<W>(wk: Worker<W>, msgs: seq<Envelope>, m: Envelope)
    ensures Fold(wk, msgs + [m]) == Effect(wk, Fold(wk, msgs), m)
  {
    assert (msgs + [m])[..|msgs|] == msgs;
  }

  lemma FreshKeeps<W(!new)>(cfg: C.Config, wk: Worker<W>)
    ensures ClientInvariant(cfg, wk, FreshClient(wk))
  {
    assert C.IsRun(cfg, [C.INIT]);
    C.ReachableInvariant(cfg, [C.INIT], 0);
    assert ReplayAll(C.Deltas([])) == {} == IdSet(Ids([]));
  }

  lemma ReceiveKeeps<W(!new)>(cfg: C.Config, wk: Worker<W>, c: Client<W>, env: Envelope, c': Client<W>, o: Outcome)
    requires Sound(cfg, wk) && ClientInvariant(cfg, wk, c) && Receive(wk, c, env, c', o)
    ensures ClientInvariant(cfg, wk, c')
  {
    hide C.Invariant, Holds, Ids;
    if o.Track? && o.client.Some? {
      HandledKeeps(cfg, wk, c, env, c', o);
    } else {
      if o.Failed? {
        assert FailsClean(wk.handlers[env.msgType]);
      }
      assert c' == c;
    }
  }

  /** A message that is handled joins `order`, and its id what is seen and pending. */
  lemma HandledKeeps<W(!new)>(cfg: C.Config, wk: Worker<W>, c: Client<W>, env: Envelope, c': Client<W>, o: Outcome)
    requires ClientInvariant(cfg, wk, c) && Receive(wk, c, env, c', o) && o.Track? && o.client.Some?
    ensures ClientInvariant(cfg, wk, c')
  {
    hide C.Invariant, Holds, Ids, Fold;
    IdsSnoc(c.order, env);
    FoldSnoc(wk, c.order, env);
    assert c'.order[..c'.durable] == c.order[..c.durable];
    assert IdSet(Ids(c'.order)) == IdSet(Ids(c.order)) + (if env.id == ZERO_ID then {} else {env.id});
  }

  lemma BeginSaveKeeps<W(!new)>(cfg: C.Config, wk: Worker<W>, c: Client<W>, c': Client<W>)
    requires ClientInvariant(cfg, wk, c) && BeginSave(cfg, wk, c, c')
    ensures ClientInvariant(cfg, wk, c')
  {
    C.NextKeeps(cfg, c.ckpt, c'.ckpt);
    hide C.Invariant, Holds, C.Storable;
    assert MemoryMatches(wk, c') && Capture(cfg, wk, c') == Capture(cfg, wk, c);
  }

  /** Committing what is pending makes all of `order` durable. */
  lemma CommitHolds<W>(cfg: C.Config, wk: Worker<W>, c: Client<W>)
    requires MemoryMatches(wk, c) && c.durable <= |c.order| && Holds(cfg, wk, c.ckpt.hist, c.order[..c.durable])
    requires Ids(c.order) == Ids(c.order[..c.durable]) + c.pending
    ensures Holds(cfg, wk, c.ckpt.hist + [Capture(cfg, wk, c)], c.order)
  {
    var commit := Capture(cfg, wk, c);
    assert C.Deltas(c.ckpt.hist + [commit]) == C.Deltas(c.ckpt.hist) + [commit.delta];
    ReplayAllSnoc(C.Deltas(c.ckpt.hist), commit.delta);
    DrainReplay(c.pending);
    assert IdSet(Ids(c.order)) == IdSet(Ids(c.order[..c.durable])) + IdSet(c.pending);
  }

  lemma AdvanceSaveKeeps<W(!new)>(cfg: C.Config, wk: Worker<W>, c: Client<W>, c': Client<W>)
    requires ClientInvariant(cfg, wk, c) && AdvanceSave(cfg, c, c')
    ensures ClientInvariant(cfg, wk, c')
  {
    C.NextKeeps(cfg, c.ckpt, c'.ckpt);
    hide C.Invariant, Holds, C.Apply;
    if c.ckpt.phase.next == C.APPEND_INDEX {
      CommitHolds(cfg, wk, c);
      assert c.order[..|c.order|] == c.order;
    }
  }

  /** Memory is lost behind an append that wrote its whole record: everything in `order` is on disk. */
  lemma DieCommitted<W(!new)>(cfg: C.Config, wk: Worker<W>, c: Client<W>, ckpt: C.State)
    requires ClientInvariant(cfg, wk, c) && C.Invariant(cfg, ckpt) && C.Crash(cfg, c.ckpt, ckpt)
             && |ckpt.hist| > |c.ckpt.hist|
    ensures ClientInvariant(cfg, wk, Client(wk.init, {}, [], ckpt, c.order, |c.order|))
  {
    hide C.Invariant, Holds, C.Apply, C.Torn;
    CommitHolds(cfg, wk, c);
    assert c.order[..|c.order|] == c.order;
  }

  /** Otherwise the disk keeps what was committed before. */
  lemma DieUncommitted<W(!new)>(cfg: C.Config, wk: Worker<W>, c: Client<W>, ckpt: C.State)
    requires ClientInvariant(cfg, wk, c) && C.Invariant(cfg, ckpt) && ckpt.phase.Down? && ckpt.hist == c.ckpt.hist
    ensures ClientInvariant(cfg, wk, Client(wk.init, {}, [], ckpt, c.order[..c.durable], c.durable))
  {
    hide C.Invariant, Holds, Capture;
    var kept := c.order[..c.durable];
    assert kept[..c.durable] == kept;
    assert Ids(kept) == Ids(c.order)[..|Ids(kept)|];
  }

  lemma CrashHist(cfg: C.Config, s: C.State, s': C.State)
    requires C.Crash(cfg, s, s')
    ensures s'.phase.Down? && (s'.hist == s.hist || |s'.hist| > |s.hist|)
  {
    hide C.Apply, C.Torn;
  }

  lemma DieKeeps<W(!new)>(cfg: C.Config, wk: Worker<W>, c: Client<W>, c': Client<W>)
    requires ClientInvariant(cfg, wk, c) && Die(cfg, wk, c, c')
    ensures ClientInvariant(cfg, wk, c')
  {
    hide C.Invariant, Holds, C.Crash, Capture;
    if C.Crash(cfg, c.ckpt, c'.ckpt) {
      C.NextKeeps(cfg, c.ckpt, c'.ckpt);
      CrashHist(cfg, c.ckpt, c'.ckpt);
    }
    if |c'.ckpt.hist| > |c.ckpt.hist| {
      DieCommitted(cfg, wk, c, c'.ckpt);
      assert c.order[..|c.order|] == c.order;
    } else {
      DieUncommitted(cfg, wk, c, c'.ckpt);
    }
  }

  /** Restoring from commits gives the fold of the messages they stand for. */
  lemma RestoredIsFold<W(!new)>(cfg: C.Config, wk: Worker<W>, hist: seq<C.Commit>, msgs: seq<Envelope>)
    requires Sound(cfg, wk) && Holds(cfg, wk, hist, msgs)
    ensures var mem := C.MemoryOf(cfg, hist);
            wk.restore(mem.state, mem.eof) == Fold(wk, msgs) && ReplayAll(mem.deltas) == IdSet(Ids(msgs))
  {
    hide IdSet, ReplayAll;
    if hist == [] {
      assert C.Deltas(hist) == [];
    } else {
      var w := Fold(wk, msgs);
      var state := if cfg.hasState then Some(wk.snapState(w)) else None;
      var eof := if cfg.hasEof then Some(wk.snapEof(w)) else None;
      assert Faithful(cfg, wk, w);
      assert C.MemoryOf(cfg, hist).state == state;
      assert C.MemoryOf(cfg, hist).eof == eof;
    }
  }

  lemma LoadedIsLive<W(!new)>(cfg: C.Config, wk: Worker<W>, c: Client<W>)
    requires Sound(cfg, wk) && Holds(cfg, wk, c.ckpt.hist, c.order) && Loaded(cfg, wk, c)
    requires C.Invariant(cfg, c.ckpt) && (c.ckpt.phase.Idle? || c.ckpt.phase.Down?)
    ensures MemoryMatches(wk, c)
  {
    C.RecoverAtRest(cfg, c.ckpt);
    RestoredIsFold(cfg, wk, c.ckpt.hist, c.order);
    hide Sound, Holds, C.Recover, C.MemoryOf, C.Invariant, IdSet, ReplayAll, Fold;
  }

  lemma RestoreKeeps<W(!new)>(cfg: C.Config, wk: Worker<W>, c: Client<W>, c': Client<W>)
    requires Sound(cfg, wk) && ClientInvariant(cfg, wk, c) && Restore(cfg, wk, c, c')
    ensures ClientInvariant(cfg, wk, c')
  {
    C.NextKeeps(cfg, c.ckpt, c'.ckpt);
    assert c'.order[..c'.durable] == c'.order;
    assert c'.pending == [];
    if c'.ckpt.phase.Idle? {
      LoadedIsLive(cfg, wk, c');
    }
  }

  // ---------------------------------------------------------------- the coordinator takes these steps

  ghost predicate AdvanceSteps<W>(cfg: C.Config, run: seq<Client<W>>) {
    run != [] && forall i :: 0 <= i < |run| - 1 ==> AdvanceSave(cfg, run[i], run[i + 1])
  }

  /** Where an undisturbed checkpoint ends that stands in front of its k-th operation. */
  ghost function SaveEnd<W>(cfg: C.Config, c: Client<W>, k: nat): Client<W>
    requires c.ckpt.phase.Checkpointing? && k <= C.CHECKPOINT_LENGTH
  {
    var (gen, commit) := (c.ckpt.phase.gen, c.ckpt.phase.commit);
    var ckpt := C.State(C.RunOps(cfg, C.CheckpointOps(gen, commit)[k..], c.ckpt.disk), C.Idle,
                        if k <= C.APPEND_INDEX then gen else c.ckpt.gen,
                        if k <= C.APPEND_INDEX then c.ckpt.hist + [commit] else c.ckpt.hist);
    if k <= C.APPEND_INDEX then c.(ckpt := ckpt, pending := [], durable := |c.order|) else c.(ckpt := ckpt)
  }

  lemma AdvanceToEnd<W(!new)>(cfg: C.Config, c: Client<W>, k: nat) returns (run: seq<Client<W>>)
    requires c.ckpt.phase.Checkpointing? && c.ckpt.phase.next == k < C.CHECKPOINT_LENGTH
    ensures AdvanceSteps(cfg, run) && run[0] == c && run[|run| - 1] == SaveEnd(cfg, c, k)
    decreases C.CHECKPOINT_LENGTH - k
  {
    var (gen, commit) := (c.ckpt.phase.gen, c.ckpt.phase.commit);
    var ops := C.CheckpointOps(gen, commit);
    var ckpt := C.State(C.Apply(cfg, ops[k], c.ckpt.disk),
                        if k + 1 == C.CHECKPOINT_LENGTH then C.Idle else C.Checkpointing(gen, commit, k + 1),
                        if k == C.APPEND_INDEX then gen else c.ckpt.gen,
                        if k == C.APPEND_INDEX then c.ckpt.hist + [commit] else c.ckpt.hist);
    var next := if k == C.APPEND_INDEX then c.(ckpt := ckpt, pending := [], durable := |c.order|) else c.(ckpt := ckpt);
    assert AdvanceSave(cfg, c, next);
    hide C.Apply, AdvanceSave;
    assert ops[k..][1..] == ops[k + 1..] && ops[k..][0] == ops[k];
    assert C.RunOps(cfg, ops[k..], c.ckpt.disk) == C.RunOps(cfg, ops[k + 1..], ckpt.disk);
    if k + 1 == C.CHECKPOINT_LENGTH {
      assert ops[k + 1..] == [];
      run := [c, next];
    } else {
      var rest := AdvanceToEnd(cfg, next, k + 1);
      run := [c] + rest;
      assert forall i :: 0 < i < |run| - 1 ==> run[i] == rest[i - 1] && run[i + 1] == rest[i];
    }
  }

  /** The coordinator's SaveClient is one undisturbed run of these steps: it leaves the files, the
      generation and the pending ids that Coordinator.SaveClient promises. */
  lemma SaveIsSteps<W(!new)>(cfg: C.Config, wk: Worker<W>, c: Client<W>) returns (begun: Client<W>, run: seq<Client<W>>)
    requires c.ckpt.phase.Idle? && C.Storable(c.ckpt.hist, Capture(cfg, wk, c))
    ensures BeginSave(cfg, wk, c, begun) && AdvanceSteps(cfg, run) && run[0] == begun
    ensures var last := run[|run| - 1];
            && last.ckpt.phase.Idle? && last.order == c.order && last.durable == |c.order|
            && ClientView(last.ckpt.disk, last.ckpt.gen, last.pending)
               == SavedView(cfg, ClientView(c.ckpt.disk, c.ckpt.gen, c.pending), wk.snapState(c.w), wk.snapEof(c.w))
  {
    var commit := Capture(cfg, wk, c);
    begun := c.(ckpt := c.ckpt.(phase := C.Checkpointing(c.ckpt.gen + 1, commit, 0)));
    run := AdvanceToEnd(cfg, begun, 0);
    hide AdvanceSteps, C.RunOps;
    assert C.CheckpointOps(c.ckpt.gen + 1, commit)[0..] == C.CheckpointOps(c.ckpt.gen + 1, commit);
  }
}
