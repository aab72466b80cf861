// The whole process: every client's deliveries share one coordinator, one list
// of acks and one fate. The broker may deliver any message at any time, any
// number of times.
module Deliveries {
  import opened Dedup
  import opened Publisher
  import opened Coordinators
  import opened ExactlyOnce
  import opened Bytes
  import C = Checkpoint
  import Store

  /** The ack of one delivery of a message. Tags are never reused. */
  datatype Ack = Ack(tag: nat, msg: Envelope)

  datatype Phase =
    | Working
    | Flushing(todo: set<ClientId>, fire: seq<Ack>)
    | Down
    | Booting

  datatype Process<W> = Process(
    clients: map<ClientId, Client<W>>, phase: Phase, dirty: set<ClientId>, acks: seq<Ack>,
    fired: seq<Ack>, nextTag: nat, delivered: set<Envelope>)

  ghost predicate Init<W>(wk: Worker<W>, s: Process<W>) {
    && (forall c <- s.clients :: s.clients[c] == FreshClient(wk))
    && s.phase.Working? && s.dirty == {} && s.acks == s.fired == [] && s.delivered == {}
  }

  // ---------------------------------------------------------------- steps

  /** Dispatch, then Track of what it answered. A refused message goes back to the broker. */
  ghost predicate Arrive<W(!new)>(wk: Worker<W>, s: Process<W>, env: Envelope, o: Outcome, s': Process<W>) {
    && s.phase.Working? && env.client in s.clients && env.client in s'.clients
    && Receive(wk, s.clients[env.client], env, s'.clients[env.client], o)
    && s' == s.(clients := s.clients[env.client := s'.clients[env.client]],
                delivered := s.delivered + {env},
                acks := if o.Track? then s.acks + [Ack(s.nextTag, env)] else s.acks,
                nextTag := s.nextTag + 1,
                dirty := if o.Track? && o.client.Some? && env.client != NIL_CLIENT
                         then s.dirty + {env.client} else s.dirty)
  }

  /** Flush takes the dirty clients and the acks; it may be called at any time. */
  ghost predicate StartFlush<W>(s: Process<W>, s': Process<W>) {
    s.phase.Working? && s' == s.(phase := Flushing(s.dirty, s.acks), dirty := {}, acks := [])
  }

  /** One more disk operation for one of the clients to flush. */
  ghost predicate Save<W>(cfg: C.Config, wk: Worker<W>, s: Process<W>, c: ClientId, s': Process<W>) {
    && s.phase.Flushing? && c in s.phase.todo && c in s.clients && c in s'.clients
    && var (k, k') := (s.clients[c], s'.clients[c]);
       && (BeginSave(cfg, wk, k, k') || AdvanceSave(cfg, k, k'))
       && s' == s.(clients := s.clients[c := k'],
                   phase := if k'.ckpt.phase.Idle? then s.phase.(todo := s.phase.todo - {c}) else s.phase)
  }

  /** Behind the last checkpoint: the next ack fires, or the flush is over. */
  ghost predicate Fire<W>(s: Process<W>, s': Process<W>) {
    && s.phase.Flushing? && s.phase.todo == {}
    && s' == if s.phase.fire == [] then s.(phase := Working)
             else s.(phase := s.phase.(fire := s.phase.fire[1..]), fired := s.fired + [s.phase.fire[0]])
  }

  ghost predicate Die<W>(cfg: C.Config, wk: Worker<W>, s: Process<W>, s': Process<W>) {
    && s'.clients.Keys == s.clients.Keys
    && (forall c <- s.clients :: ExactlyOnce.Die(cfg, wk, s.clients[c], s'.clients[c]))
    && s' == s.(clients := s'.clients, phase := Down, dirty := {}, acks := [])
  }

  ghost predicate Boot<W>(s: Process<W>, s': Process<W>) {
    s.phase.Down? && s' == s.(phase := Booting)
  }

  ghost predicate Reload<W>(cfg: C.Config, wk: Worker<W>, s: Process<W>, c: ClientId, s': Process<W>) {
    && s.phase.Booting? && c in s.clients && c in s'.clients
    && Restore(cfg, wk, s.clients[c], s'.clients[c])
    && s' == s.(clients := s.clients[c := s'.clients[c]])
  }

  ghost predicate Ready<W>(s: Process<W>, s': Process<W>) {
    && s.phase.Booting? && (forall c <- s.clients :: s.clients[c].ckpt.phase.Idle?)
    && s' == s.(phase := Working)
  }

  ghost predicate Next<W(!new)>(cfg: C.Config, wk: Worker<W>, s: Process<W>, s': Process<W>) {
    || (exists env, o :: Arrive(wk, s, env, o, s'))
    || StartFlush(s, s')
    || (exists c :: Save(cfg, wk, s, c, s'))
    || Fire(s, s')
    || Die(cfg, wk, s, s')
    || Boot(s, s')
    || (exists c :: Reload(cfg, wk, s, c, s'))
    || Ready(s, s')
  }

  ghost predicate IsRun<W(!new)>(cfg: C.Config, wk: Worker<W>, run: seq<Process<W>>) {
    && |run| > 0 && Init(wk, run[0])
    && forall i :: 0 <= i < |run| - 1 ==> Next(cfg, wk, run[i], run[i + 1])
  }

  // ---------------------------------------------------------------- invariant

  /** Clients a flush still owes a checkpoint. */
  function Owed<W>(s: Process<W>): set<ClientId> {
    if s.phase.Flushing? then s.phase.todo else s.dirty
  }

  /** Acks collected but not fired, in the order they will fire. */
  function Waiting<W>(s: Process<W>): seq<Ack> {
    (if s.phase.Flushing? then s.phase.fire else []) + s.acks
  }

  /** The client's phase agrees with the process's, and what is not on disk yet is owed a checkpoint. */
  ghost predicate Placed<W>(s: Process<W>, c: ClientId, k: Client<W>) {
    && (match s.phase
        case Working => k.ckpt.phase.Idle?
        case Flushing(todo, _) => k.ckpt.phase.Idle? || (k.ckpt.phase.Checkpointing? && c in todo)
        case Down => k.ckpt.phase.Down?
        case Booting => !k.ckpt.phase.Checkpointing?)
    && (c == NIL_CLIENT || c in Owed(s) || k.durable == |k.order|)
    && (forall m <- k.order :: m in s.delivered && m.client == c)
  }

  ghost predicate ClientsInvariant<W(!new)>(cfg: C.Config, wk: Worker<W>, s: Process<W>) {
    forall c <- s.clients :: ClientInvariant(cfg, wk, s.clients[c]) && Placed(s, c, s.clients[c])
  }

  /** The message itself is among these, or the one it repeats. */
  ghost predicate Covered(order: seq<Envelope>, msg: Envelope) {
    msg in order || (msg.id != ZERO_ID && msg.id in Ids(order))
  }

  ghost predicate Marked<W>(s: Process<W>, a: Ack) {
    a.msg.client in s.clients && Covered(s.clients[a.msg.client].order, a.msg)
  }

  ghost predicate Saved<W>(s: Process<W>, a: Ack) {
    && a.msg.client in s.clients
    && var k := s.clients[a.msg.client];
       k.durable <= |k.order| && (a.msg.client == NIL_CLIENT || Covered(k.order[..k.durable], a.msg))
  }

  ghost predicate Ascending(acks: seq<Ack>, limit: nat) {
    && (forall i, j :: 0 <= i < j < |acks| ==> acks[i].tag < acks[j].tag)
    && (forall i :: 0 <= i < |acks| ==> acks[i].tag < limit)
  }

  ghost predicate AcksInvariant<W>(s: Process<W>) {
    && (s.phase.Working? || (s.acks == [] && s.dirty == {}))
    && Ascending(s.fired + Waiting(s), s.nextTag)
    && (forall a <- Waiting(s) :: Marked(s, a))
    && (forall a <- s.fired :: Saved(s, a))
  }

  // ---------------------------------------------------------------- steps keep it

  lemma {:induction false} IdsPrefix(a: seq<Envelope>, b: seq<Envelope>)
    requires a <= b
    ensures forall id <- Ids(a) :: id in Ids(b)
  {
    if a != b {
      var init := b[..|b| - 1];
      IdsPrefix(a, init);
      assert b == init + [b[|b| - 1]];
      IdsSnoc(init, b[|b| - 1]);
    }
  }

  lemma CoveredPrefix(a: seq<Envelope>, b: seq<Envelope>, msg: Envelope)
    requires a <= b && Covered(a, msg)
    ensures Covered(b, msg)
  {
    hide Ids;
    IdsPrefix(a, b);
    assert forall m <- a :: m in b;
  }

  /** What is on disk stays on disk. */
  ghost predicate Kept<W>(k: Client<W>, k': Client<W>) {
    && k.durable <= |k.order| && k'.durable <= |k'.order|
    && k.order[..k.durable] <= k'.order[..k'.durable]
  }

  ghost predicate Extended<W>(k: Client<W>, k': Client<W>) {
    Kept(k, k') && k.order <= k'.order
  }

  lemma SavedKept<W>(s: Process<W>, s': Process<W>, a: Ack)
    requires Saved(s, a) && a.msg.client in s'.clients && Kept(s.clients[a.msg.client], s'.clients[a.msg.client])
    ensures Saved(s', a)
  {
    hide Covered;
    var k, k' := s.clients[a.msg.client], s'.clients[a.msg.client];
    if a.msg.client != NIL_CLIENT {
      CoveredPrefix(k.order[..k.durable], k'.order[..k'.durable], a.msg);
    }
  }

  lemma MarkedKept<W>(s: Process<W>, s': Process<W>, a: Ack)
    requires Marked(s, a) && a.msg.client in s'.clients && Extended(s.clients[a.msg.client], s'.clients[a.msg.client])
    ensures Marked(s', a)
  {
    hide Covered;
    CoveredPrefix(s.clients[a.msg.client].order, s'.clients[a.msg.client].order, a.msg);
  }

  /** No ack collected or fired; those that wait still wait, or are lost. */
  ghost predicate SameAcks<W>(s: Process<W>, s': Process<W>) {
    && s'.fired == s.fired && s'.clients.Keys == s.clients.Keys && s'.nextTag == s.nextTag
    && (s'.phase.Working? || (s'.acks == [] && s'.dirty == {}))
    && (Waiting(s') == [] || Waiting(s') == Waiting(s))
  }

  lemma AcksKept<W>(s: Process<W>, s': Process<W>)
    requires AcksInvariant(s) && SameAcks(s, s')
    requires forall c <- s.clients :: c in s'.clients && Kept(s.clients[c], s'.clients[c])
    requires Waiting(s') == [] || forall c <- s.clients :: Extended(s.clients[c], s'.clients[c])
    ensures AcksInvariant(s')
  {
    hide ExactlyOnce.Ids;
    forall a <- s'.fired ensures Saved(s', a) {
      SavedKept(s, s', a);
    }
    forall a <- Waiting(s') ensures Marked(s', a) {
      MarkedKept(s, s', a);
    }
    assert s.fired + [] == s.fired;
    assert s.fired <= s.fired + Waiting(s);
  }

  /** A delivered message that is acked is in `order`, or repeats one that is. */
  lemma ReceiveMarks<W(!new)>(cfg: C.Config, wk: Worker<W>, c: Client<W>, env: Envelope, c': Client<W>, o: Outcome)
    requires ClientInvariant(cfg, wk, c) && Receive(wk, c, env, c', o)
    ensures c'.ckpt == c.ckpt && Extended(c, c')
    ensures o.Track? ==> Covered(c'.order, env)
    ensures c'.order == if o.Track? && o.client.Some? then c.order + [env] else c.order
  {
    hide C.Invariant, Holds;
    if o.Track? && o.client.Some? {
      IdsSnoc(c.order, env);
      assert c'.order[..c'.durable] == c.order[..c.durable];
    }
  }

  /** An arrival whose id is new, or that has none, is handled, and marked only if its handler succeeds; one whose
      id is marked changes nothing but is acked again. */
  lemma ArrivalIsHandled<W(!new)>(wk: Worker<W>, s: Process<W>, env: Envelope, o: Outcome, s': Process<W>)
    requires Arrive(wk, s, env, o, s') && env.msgType in wk.handlers
    ensures env.client in s.clients && env.client in s'.clients
    ensures var (k, k', h) := (s.clients[env.client], s'.clients[env.client],
                               wk.handlers[env.msgType](s.clients[env.client].w, env));
            if env.id != ZERO_ID && env.id in k.seen then
              k' == k && s'.acks == s.acks + [Ack(s.nextTag, env)] && s'.dirty == s.dirty
            else if h.ok then
              && k'.w == h.w && k'.order == k.order + [env] && s'.acks == s.acks + [Ack(s.nextTag, env)]
              && k'.seen == k.seen + (if env.id == ZERO_ID then {} else {env.id})
              && (env.client != NIL_CLIENT ==> env.client in s'.dirty)
            else k'.w == h.w && k'.order == k.order && k'.seen == k.seen && s'.acks == s.acks
  {
    assert s.clients[env.client].pending + [] == s.clients[env.client].pending;
  }

  lemma ClientAt<W(!new)>(cfg: C.Config, wk: Worker<W>, s: Process<W>, c: ClientId)
    requires ClientsInvariant(cfg, wk, s) && c in s.clients
    ensures ClientInvariant(cfg, wk, s.clients[c]) && Placed(s, c, s.clients[c])
  {
    hide ClientInvariant, Placed;
  }

  /** A step of one client; the others stay where they were. */
  lemma OneClientChanged<W(!new)>(cfg: C.Config, wk: Worker<W>, s: Process<W>, c: ClientId, s': Process<W>)
    requires ClientsInvariant(cfg, wk, s) && c in s.clients && c in s'.clients
    requires s'.clients == s.clients[c := s'.clients[c]]
    requires ClientInvariant(cfg, wk, s'.clients[c]) && Placed(s', c, s'.clients[c])
    requires forall o <- s.clients :: o != c && Placed(s, o, s.clients[o]) ==> Placed(s', o, s.clients[o])
    ensures ClientsInvariant(cfg, wk, s')
  {
    hide ClientInvariant, Placed;
  }

  /** Everything a delivery does besides the client's own step. */
  lemma ArriveFrame<W(!new)>(wk: Worker<W>, s: Process<W>, env: Envelope, o: Outcome, s': Process<W>)
    requires Arrive(wk, s, env, o, s')
    ensures env.client in s.clients && env.client in s'.clients
            && s'.clients == s.clients[env.client := s'.clients[env.client]]
    ensures Receive(wk, s.clients[env.client], env, s'.clients[env.client], o)
    ensures s.phase.Working? && s'.phase.Working? && s'.fired == s.fired && s'.nextTag == s.nextTag + 1
    ensures s'.delivered == s.delivered + {env} && s.dirty <= s'.dirty
    ensures o.Track? && o.client.Some? && env.client != NIL_CLIENT ==> env.client in s'.dirty
    ensures Waiting(s') == if o.Track? then Waiting(s) + [Ack(s.nextTag, env)] else Waiting(s)
  {
    hide Receive;
  }

  lemma ArriveKeepsClients<W(!new)>(cfg: C.Config, wk: Worker<W>, s: Process<W>, env: Envelope, o: Outcome,
                                    s': Process<W>)
    requires Sound(cfg, wk) && ClientsInvariant(cfg, wk, s) && Arrive(wk, s, env, o, s')
    ensures ClientsInvariant(cfg, wk, s')
  {
    hide Sound, ClientInvariant, Receive, ClientsInvariant, Arrive, Ids;
    var c := env.client;
    ArriveFrame(wk, s, env, o, s');
    ClientAt(cfg, wk, s, c);
    ReceiveKeeps(cfg, wk, s.clients[c], env, s'.clients[c], o);
    ReceiveMarks(cfg, wk, s.clients[c], env, s'.clients[c], o);
    OneClientChanged(cfg, wk, s, c, s');
  }

  lemma ArriveKeepsAcks<W(!new)>(cfg: C.Config, wk: Worker<W>, s: Process<W>, env: Envelope, o: Outcome, s': Process<W>)
    requires ClientsInvariant(cfg, wk, s) && AcksInvariant(s) && Arrive(wk, s, env, o, s')
    ensures AcksInvariant(s')
  {
    hide Receive, ClientInvariant, ClientsInvariant, Extended, Kept, Ids, Arrive, Waiting;
    var ack := Ack(s.nextTag, env);
    ArriveFrame(wk, s, env, o, s');
    ClientAt(cfg, wk, s, env.client);
    ReceiveMarks(cfg, wk, s.clients[env.client], env, s'.clients[env.client], o);
    AllExtended(cfg, wk, s, env.client, s');
    forall a <- s'.fired ensures Saved(s', a) {
      SavedKept(s, s', a);
    }
    forall a <- Waiting(s) ensures Marked(s', a) {
      MarkedKept(s, s', a);
    }
    assert s.fired + (Waiting(s) + [ack]) == (s.fired + Waiting(s)) + [ack];
    assert o.Track? ==> Marked(s', ack);
  }

  lemma AllExtended<W(!new)>(cfg: C.Config, wk: Worker<W>, s: Process<W>, c: ClientId, s': Process<W>)
    requires ClientsInvariant(cfg, wk, s) && c in s.clients && c in s'.clients
    requires s'.clients == s.clients[c := s'.clients[c]] && Extended(s.clients[c], s'.clients[c])
    ensures forall o <- s.clients :: Extended(s.clients[o], s'.clients[o]) && Kept(s.clients[o], s'.clients[o])
  {
    hide C.Invariant, Holds, MemoryMatches, Placed;
    forall o <- s.clients ensures Extended(s.clients[o], s'.clients[o]) {
      assert ClientInvariant(cfg, wk, s.clients[o]);
    }
  }

  lemma SaveKept<W(!new)>(cfg: C.Config, wk: Worker<W>, k: Client<W>, k': Client<W>)
    requires ClientInvariant(cfg, wk, k) && (BeginSave(cfg, wk, k, k') || AdvanceSave(cfg, k, k'))
    ensures ClientInvariant(cfg, wk, k') && Extended(k, k') && k'.order == k.order
    ensures k'.ckpt.phase.Idle? || k'.ckpt.phase.Checkpointing?
    ensures k'.ckpt.phase.Idle? ==> k'.durable == |k'.order|
  {
    if BeginSave(cfg, wk, k, k') {
      BeginSaveKeeps(cfg, wk, k, k');
    } else {
      AdvanceSaveKeeps(cfg, wk, k, k');
    }
    hide C.Invariant, Holds, MemoryMatches, C.Apply;
  }

  lemma SaveFrame<W>(cfg: C.Config, wk: Worker<W>, s: Process<W>, c: ClientId, s': Process<W>)
    requires Save(cfg, wk, s, c, s') && AcksInvariant(s)
    ensures c in s.clients && c in s'.clients && s'.clients == s.clients[c := s'.clients[c]] && SameAcks(s, s')
    ensures BeginSave(cfg, wk, s.clients[c], s'.clients[c]) || AdvanceSave(cfg, s.clients[c], s'.clients[c])
    ensures s.phase.Flushing? && s'.phase.Flushing? && c in s.phase.todo && s'.delivered == s.delivered
    ensures s'.phase.todo == if s'.clients[c].ckpt.phase.Idle? then s.phase.todo - {c} else s.phase.todo
  {
    hide BeginSave, AdvanceSave, Ids, Ascending;
  }

  lemma SaveKeeps<W(!new)>(cfg: C.Config, wk: Worker<W>, s: Process<W>, c: ClientId, s': Process<W>)
    requires ClientsInvariant(cfg, wk, s) && AcksInvariant(s) && Save(cfg, wk, s, c, s')
    ensures ClientsInvariant(cfg, wk, s') && AcksInvariant(s')
  {
    hide *;
    SaveFrame(cfg, wk, s, c, s');
    ClientAt(cfg, wk, s, c);
    SaveKept(cfg, wk, s.clients[c], s'.clients[c]);
    AllExtended(cfg, wk, s, c, s');
    AcksKept(s, s');
    forall o <- s.clients
      ensures o != c && Placed(s, o, s.clients[o]) ==> Placed(s', o, s.clients[o])
      ensures Placed(s, c, s.clients[c]) ==> Placed(s', c, s'.clients[c])
    {
      FlushPlaced(s, c, s', o);
    }
    OneClientChanged(cfg, wk, s, c, s');
  }

  lemma FlushPlaced<W>(s: Process<W>, c: ClientId, s': Process<W>, o: ClientId)
    requires s.phase.Flushing? && s'.phase.Flushing? && c in s.phase.todo && s'.delivered == s.delivered
    requires c in s.clients && c in s'.clients && o in s.clients
    requires s'.phase.todo == if s'.clients[c].ckpt.phase.Idle? then s.phase.todo - {c} else s.phase.todo
    requires var k' := s'.clients[c];
             && k'.order == s.clients[c].order && (k'.ckpt.phase.Idle? || k'.ckpt.phase.Checkpointing?)
             && (k'.ckpt.phase.Idle? ==> k'.durable == |k'.order|)
    ensures o != c && Placed(s, o, s.clients[o]) ==> Placed(s', o, s.clients[o])
    ensures Placed(s, c, s.clients[c]) ==> Placed(s', c, s'.clients[c])
  {
  }

  /** Once no client is owed a checkpoint, whatever is marked is on disk. */
  lemma MarkedIsSaved<W(!new)>(cfg: C.Config, wk: Worker<W>, s: Process<W>, a: Ack)
    requires ClientsInvariant(cfg, wk, s) && Owed(s) == {} && Marked(s, a)
    ensures Saved(s, a)
  {
    var k := s.clients[a.msg.client];
    assert ClientInvariant(cfg, wk, k) && Placed(s, a.msg.client, k);
    assert k.order[..|k.order|] == k.order;
  }

  lemma FireKeepsClients<W(!new)>(cfg: C.Config, wk: Worker<W>, s: Process<W>, s': Process<W>)
    requires ClientsInvariant(cfg, wk, s) && Fire(s, s')
    ensures ClientsInvariant(cfg, wk, s')
  {
    hide ClientInvariant;
    forall c <- s'.clients ensures ClientInvariant(cfg, wk, s'.clients[c]) && Placed(s', c, s'.clients[c]) {
      assert Placed(s, c, s.clients[c]);
    }
  }

  lemma FireKeepsAcks<W(!new)>(cfg: C.Config, wk: Worker<W>, s: Process<W>, s': Process<W>)
    requires ClientsInvariant(cfg, wk, s) && AcksInvariant(s) && Fire(s, s')
    ensures AcksInvariant(s')
  {
    var fire := s.phase.fire;
    assert s'.fired + Waiting(s') == s.fired + Waiting(s);
    if fire != [] {
      assert fire[0] in Waiting(s);
      MarkedIsSaved(cfg, wk, s, fire[0]);
    }
    hide ClientsInvariant, Ids;
    forall a <- s'.fired ensures Saved(s', a) {
      assert Saved(s, a);
    }
    forall a <- Waiting(s') ensures Marked(s', a) {
      assert a in Waiting(s);
    }
  }

  lemma DieKeepsClient<W(!new)>(cfg: C.Config, wk: Worker<W>, k: Client<W>, k': Client<W>)
    requires ClientInvariant(cfg, wk, k) && ExactlyOnce.Die(cfg, wk, k, k')
    ensures ClientInvariant(cfg, wk, k') && Kept(k, k') && k'.order <= k.order
    ensures k'.ckpt.phase.Down? && k'.durable == |k'.order|
  {
    DieKeeps(cfg, wk, k, k');
    hide C.Invariant, Holds, MemoryMatches, C.Crash, C.Apply;
    assert k'.order[..k'.durable] == k'.order;
  }

  lemma DieKeepsAll<W(!new)>(cfg: C.Config, wk: Worker<W>, s: Process<W>, s': Process<W>)
    requires ClientsInvariant(cfg, wk, s) && AcksInvariant(s) && Die(cfg, wk, s, s')
    ensures ClientsInvariant(cfg, wk, s') && AcksInvariant(s')
  {
    hide ClientInvariant, ExactlyOnce.Die, Kept, Ids;
    forall c <- s.clients
      ensures ClientInvariant(cfg, wk, s'.clients[c]) && Placed(s', c, s'.clients[c])
      ensures Kept(s.clients[c], s'.clients[c])
    {
      assert Placed(s, c, s.clients[c]);
      DieKeepsClient(cfg, wk, s.clients[c], s'.clients[c]);
    }
    hide Placed;
    AcksKept(s, s');
  }

  lemma ReloadKept<W(!new)>(cfg: C.Config, wk: Worker<W>, k: Client<W>, k': Client<W>)
    requires Sound(cfg, wk) && ClientInvariant(cfg, wk, k) && Restore(cfg, wk, k, k')
    ensures ClientInvariant(cfg, wk, k') && Extended(k, k') && k'.order == k.order && k'.durable == k.durable
    ensures !k'.ckpt.phase.Checkpointing?
  {
    RestoreKeeps(cfg, wk, k, k');
    hide C.Invariant, Holds, MemoryMatches, Loaded, Sound;
  }

  lemma ReloadFrame<W>(cfg: C.Config, wk: Worker<W>, s: Process<W>, c: ClientId, s': Process<W>)
    requires Reload(cfg, wk, s, c, s') && AcksInvariant(s)
    ensures c in s.clients && c in s'.clients && s'.clients == s.clients[c := s'.clients[c]] && SameAcks(s, s')
    ensures Restore(cfg, wk, s.clients[c], s'.clients[c])
    ensures s.phase.Booting? && s'.phase.Booting? && s'.dirty == s.dirty && s'.delivered == s.delivered
  {
    hide Restore, Ids, Ascending;
  }

  lemma ReloadKeeps<W(!new)>(cfg: C.Config, wk: Worker<W>, s: Process<W>, c: ClientId, s': Process<W>)
    requires Sound(cfg, wk) && ClientsInvariant(cfg, wk, s) && AcksInvariant(s) && Reload(cfg, wk, s, c, s')
    ensures ClientsInvariant(cfg, wk, s') && AcksInvariant(s')
  {
    hide Sound, ClientInvariant, ClientsInvariant, Restore, Reload, AcksInvariant, Extended, Kept, Ids, Waiting;
    ReloadFrame(cfg, wk, s, c, s');
    ClientAt(cfg, wk, s, c);
    ReloadKept(cfg, wk, s.clients[c], s'.clients[c]);
    AllExtended(cfg, wk, s, c, s');
    AcksKept(s, s');
    OneClientChanged(cfg, wk, s, c, s');
  }

  lemma NextKeeps<W(!new)>(cfg: C.Config, wk: Worker<W>, s: Process<W>, s': Process<W>)
    requires Sound(cfg, wk) && ClientsInvariant(cfg, wk, s) && AcksInvariant(s) && Next(cfg, wk, s, s')
    ensures ClientsInvariant(cfg, wk, s') && AcksInvariant(s')
  {
    hide ClientInvariant, Arrive, Save, Reload, Die, Sound, Ids;
    if env, o :| Arrive(wk, s, env, o, s') {
      ArriveKeepsClients(cfg, wk, s, env, o, s');
      ArriveKeepsAcks(cfg, wk, s, env, o, s');
    } else if c :| Save(cfg, wk, s, c, s') {
      SaveKeeps(cfg, wk, s, c, s');
    } else if Fire(s, s') {
      FireKeepsClients(cfg, wk, s, s');
      FireKeepsAcks(cfg, wk, s, s');
    } else if Die(cfg, wk, s, s') {
      DieKeepsAll(cfg, wk, s, s');
    } else if c :| Reload(cfg, wk, s, c, s') {
      ReloadKeeps(cfg, wk, s, c, s');
    } else {
      assert Waiting(s') == Waiting(s);
    }
  }

  lemma {:induction false} Reachable<W(!new)>(cfg: C.Config, wk: Worker<W>, run: seq<Process<W>>, i: nat)
    requires Sound(cfg, wk) && IsRun(cfg, wk, run) && i < |run|
    ensures ClientsInvariant(cfg, wk, run[i]) && AcksInvariant(run[i])
  {
    if i > 0 {
      Reachable(cfg, wk, run, i - 1);
      hide ClientsInvariant, AcksInvariant, Next, Sound;
      NextKeeps(cfg, wk, run[i - 1], run[i]);
    } else {
      FreshKeeps(cfg, wk);
      hide ClientInvariant;
    }
  }

  // ---------------------------------------------------------------- exactly-once effect

  /** The client's memory is the fold of its handler over delivered messages, each taken once,
      and the seen set is exactly their ids; whatever was lost, repeated or recovered before. */
  lemma ExactlyOnceEffect<W(!new)>(cfg: C.Config, wk: Worker<W>, run: seq<Process<W>>, i: nat, c: ClientId)
    requires Sound(cfg, wk) && IsRun(cfg, wk, run) && i < |run| && c in run[i].clients
    ensures var k := run[i].clients[c];
            && NoRepeat(Ids(k.order)) && (forall m <- k.order :: m in run[i].delivered && m.client == c)
            && (run[i].phase.Working? || run[i].phase.Flushing? ==>
                  k.w == Fold(wk, k.order) && k.seen == IdSet(Ids(k.order)))
  {
    Reachable(cfg, wk, run, i);
    ClientAt(cfg, wk, run[i], c);
    hide IsRun, Sound, C.Invariant, Holds, ClientsInvariant, AcksInvariant, Ids;
  }

  /** What a restart would find if the process died right now: the fold of a prefix that contains
      everything committed, and the ids of just that prefix. */
  lemma RestartIsExactlyOnce<W(!new)>(cfg: C.Config, wk: Worker<W>, k: Client<W>, k': Client<W>)
    requires Sound(cfg, wk) && ClientInvariant(cfg, wk, k) && ExactlyOnce.Die(cfg, wk, k, k')
    ensures k.order[..k.durable] <= k'.order <= k.order
    ensures C.Recover(cfg, k'.ckpt.disk).Ok?
    ensures var mem := C.Recover(cfg, k'.ckpt.disk).value.0;
            wk.restore(mem.state, mem.eof) == Fold(wk, k'.order) && ReplayAll(mem.deltas) == IdSet(Ids(k'.order))
  {
    hide Sound, C.Recover, C.Invariant, C.Crash, C.MemoryOf, ExactlyOnce.Die, Holds, MemoryMatches;
    DieKeepsClient(cfg, wk, k, k');
    assert k'.order[..k'.durable] == k'.order;
    C.RecoverAtRest(cfg, k'.ckpt);
    RestoredIsFold(cfg, wk, k'.ckpt.hist, k'.order);
  }

  // ---------------------------------------------------------------- ack safety

  lemma {:induction false} FiredStays<W(!new)>(cfg: C.Config, wk: Worker<W>, run: seq<Process<W>>, i: nat, j: nat)
    requires IsRun(cfg, wk, run) && i <= j < |run|
    ensures run[i].fired <= run[j].fired && run[i].clients.Keys == run[j].clients.Keys
  {
    hide Next;
    if i < j {
      FiredStays(cfg, wk, run, i, j - 1);
      NextFrame(cfg, wk, run[j - 1], run[j]);
    }
  }

  lemma NextFrame<W(!new)>(cfg: C.Config, wk: Worker<W>, s: Process<W>, s': Process<W>)
    requires Next(cfg, wk, s, s')
    ensures s.fired <= s'.fired && s.clients.Keys == s'.clients.Keys
  {
    hide Receive, BeginSave, AdvanceSave, ExactlyOnce.Die, Restore;
    if env, o :| Arrive(wk, s, env, o, s') {
      assert s'.clients.Keys == s.clients.Keys;
    } else if c :| Save(cfg, wk, s, c, s') {
      assert s'.clients.Keys == s.clients.Keys;
    } else if c :| Reload(cfg, wk, s, c, s') {
      assert s'.clients.Keys == s.clients.Keys;
    }
  }

  /** An ack that has fired is of a message on disk, with or without an id, or of a repetition of one, then and
      ever after: it is among the messages the commits stand for, and its id, if any, is in the durable log. */
  lemma AckSafety<W(!new)>(cfg: C.Config, wk: Worker<W>, run: seq<Process<W>>, i: nat, j: nat, a: Ack)
    requires Sound(cfg, wk) && IsRun(cfg, wk, run) && i <= j < |run| && a in run[i].fired
    requires a.msg.client != NIL_CLIENT
    ensures a.msg.client in run[j].clients
    ensures var k := run[j].clients[a.msg.client];
            && k.durable <= |k.order| && Covered(k.order[..k.durable], a.msg)
            && Holds(cfg, wk, k.ckpt.hist, k.order[..k.durable])
            && (a.msg.id != ZERO_ID ==> a.msg.id in ReplayAll(C.Deltas(k.ckpt.hist)))
  {
    FiredStays(cfg, wk, run, i, j);
    Reachable(cfg, wk, run, j);
    hide IsRun, Sound, C.Invariant, MemoryMatches, Ids, ReplayAll;
    assert Saved(run[j], a);
    ClientAt(cfg, wk, run[j], a.msg.client);
  }

  // A worker that only remembers whether it handled something.
  function Flag(): Worker<bool> {
    var handler: (bool, Envelope) -> Handled<bool> := (w, env) => Handled(true, true);
    Worker(false, map[0 := handler], w => if w then [1] else [0], w => [],
           (state, eof) => state == Some([1]))
  }

  lemma FlagIsSound(cfg: C.Config)
    requires cfg.hasState && !cfg.hasEof
    ensures Sound(cfg, Flag())
  {
    forall w ensures Faithful(cfg, Flag(), w) {
      assert Some([1]) != Some([]);
    }
  }

  lemma ThreeSteps<W(!new)>(cfg: C.Config, wk: Worker<W>, s0: Process<W>, env: Envelope, o: Outcome,
                            s1: Process<W>, s2: Process<W>, s3: Process<W>)
    requires Init(wk, s0) && Arrive(wk, s0, env, o, s1) && StartFlush(s1, s2) && Fire(s2, s3)
    ensures IsRun(cfg, wk, [s0, s1, s2, s3])
  {
    hide Arrive, StartFlush, Save, Fire, Die, Boot, Reload, Ready, Init;
    assert Next(cfg, wk, s0, s1) && Next(cfg, wk, s1, s2) && Next(cfg, wk, s2, s3);
    hide Next;
    var run := [s0, s1, s2, s3];
    forall i | 0 <= i < |run| - 1 ensures Next(cfg, wk, run[i], run[i + 1]) {
    }
  }

  /** Why AckSafety leaves uuid.Nil out, an id the gateway never gives a client: Track never marks it dirty,
      so a flush fires the ack of its message without a checkpoint, and a crash then loses the message. */
  lemma NilClientAckNotDurable(cfg: C.Config, id: MsgId)
    requires cfg.hasState && !cfg.hasEof && id != ZERO_ID
    ensures Sound(cfg, Flag())
    ensures exists run: seq<Process<bool>> ::
              && IsRun(cfg, Flag(), run) && Ack(0, Envelope(0, NIL_CLIENT, id, [])) in run[|run| - 1].fired
              && NIL_CLIENT in run[|run| - 1].clients && run[|run| - 1].clients[NIL_CLIENT].ckpt.hist == []
  {
    FlagIsSound(cfg);
    var env := Envelope(0, NIL_CLIENT, id, []);
    var a := Ack(0, env);
    var k := FreshClient(Flag());
    var k' := k.(w := true, seen := {id}, pending := [id], order := [env]);
    assert Receive(Flag(), k, env, k', Track(Some(NIL_CLIENT), 0)) by {
      assert k.order + [env] == [env];
    }
    var s0 := Process(map[NIL_CLIENT := k], Working, {}, [], [], 0, {});
    var s1 := Process(map[NIL_CLIENT := k'], Working, {}, [a], [], 1, {env});
    var s2 := s1.(phase := Flushing({}, [a]), acks := []);
    var s3 := s2.(phase := Flushing({}, []), fired := [a]);
    hide Receive, Sound, FreshClient, Flag;
    assert Arrive(Flag(), s0, env, Track(Some(NIL_CLIENT), 0), s1);
    assert StartFlush(s1, s2);
    assert Fire(s2, s3) by {
      assert [a][1..] == [] && s2.fired + [a] == [a];
    }
    ThreeSteps(cfg, Flag(), s0, env, Track(Some(NIL_CLIENT), 0), s1, s2, s3);
    var run := [s0, s1, s2, s3];
    assert a in run[|run| - 1].fired;
  }

  /** No two acks that fired, or that may still fire, are of the same delivery. */
  lemma EachAckOnce<W(!new)>(cfg: C.Config, wk: Worker<W>, run: seq<Process<W>>, i: nat)
    requires Sound(cfg, wk) && IsRun(cfg, wk, run) && i < |run|
    ensures var all := run[i].fired + Waiting(run[i]);
            forall x, y :: 0 <= x < y < |all| ==> all[x].tag != all[y].tag
  {
    Reachable(cfg, wk, run, i);
    hide IsRun, Sound, ClientsInvariant, Ids;
  }

  // ---------------------------------------------------------------- the crash-free result

  ghost predicate Commutes<W(!new)>(wk: Worker<W>, msgs: seq<Envelope>) {
    forall w, a, b :: a in msgs && b in msgs ==> Effect(wk, Effect(wk, w, a), b) == Effect(wk, Effect(wk, w, b), a)
  }

  /** Handling a message earlier or later makes no difference. */
  lemma {:induction false} FoldMove<W(!new)>(wk: Worker<W>, msgs: seq<Envelope>, i: nat)
    requires i < |msgs| && Commutes(wk, msgs)
    ensures Fold(wk, msgs) == Effect(wk, Fold(wk, msgs[..i] + msgs[i + 1..]), msgs[i])
    decreases |msgs|
  {
    var n := |msgs| - 1;
    var rest := msgs[..i] + msgs[i + 1..];
    if i == n {
      assert rest == msgs[..n];
    } else {
      var init := msgs[..n];
      assert Commutes(wk, init) by {
        assert forall m <- init :: m in msgs;
      }
      FoldMove(wk, init, i);
      assert rest[..|rest| - 1] == init[..i] + init[i + 1..] && rest[|rest| - 1] == msgs[n] && init[i] == msgs[i];
    }
  }

  lemma HasMember<T>(s: seq<T>)
    requires s != []
    ensures exists m :: m in s
  {
    assert s[0] in s;
  }

  lemma {:induction false} FoldSameSet<W(!new)>(wk: Worker<W>, a: seq<Envelope>, b: seq<Envelope>)
    requires NoRepeat(a) && NoRepeat(b) && Commutes(wk, b)
    requires forall m :: m in a <==> m in b
    ensures Fold(wk, a) == Fold(wk, b)
  {
    if a == [] {
      if b != [] {
        HasMember(b);
      }
    } else {
      var init, last := a[..|a| - 1], a[|a| - 1];
      assert a == init + [last] && last in b;
      var i :| 0 <= i < |b| && b[i] == last;
      var rest := b[..i] + b[i + 1..];
      forall m ensures m in init <==> m in rest {
        SameWithout(a, b, i, m);
      }
      assert Commutes(wk, rest) by {
        assert forall m <- rest :: m in b;
      }
      FoldSameSet(wk, init, rest);
      FoldMove(wk, b, i);
    }
  }

  lemma SameWithout<T>(a: seq<T>, b: seq<T>, i: nat, m: T)
    requires NoRepeat(a) && NoRepeat(b) && a != [] && i < |b| && b[i] == a[|a| - 1]
    requires m in a <==> m in b
    ensures m in a[..|a| - 1] <==> m in b[..i] + b[i + 1..]
  {
    if m == b[i] {
      assert forall k :: 0 <= k < |b| && k != i ==> b[k] != b[i];
    } else {
      if m in b {
        var k :| 0 <= k < |b| && b[k] == m;
        assert (b[..i] + b[i + 1..])[if k < i then k else k - 1] == m;
      }
      if m in a {
        var k :| 0 <= k < |a| && a[k] == m;
        assert a[..|a| - 1][k] == m;
      }
    }
  }

  /** The input the broker holds for one client: all ids given, none twice. */
  ghost predicate Input(msgs: seq<Envelope>) {
    && (forall m <- msgs :: m.id != ZERO_ID)
    && forall i, j :: 0 <= i < j < |msgs| ==> msgs[i].id != msgs[j].id
  }

  lemma {:induction false} IdsAt(msgs: seq<Envelope>)
    requires forall m <- msgs :: m.id != ZERO_ID
    ensures |Ids(msgs)| == |msgs| && forall i :: 0 <= i < |msgs| ==> Ids(msgs)[i] == msgs[i].id
  {
    if msgs != [] {
      var init := msgs[..|msgs| - 1];
      assert msgs == init + [msgs[|msgs| - 1]];
      IdsAt(init);
    }
  }

  /** All of the input marked, nothing else, nothing twice: the same fold as handling the input in order. */
  lemma AllInput<W(!new)>(wk: Worker<W>, order: seq<Envelope>, msgs: seq<Envelope>)
    requires Input(msgs) && Commutes(wk, msgs) && NoRepeat(Ids(order))
    requires forall m <- order :: m in msgs
    requires forall m <- msgs :: m.id in Ids(order)
    ensures Fold(wk, order) == Fold(wk, msgs)
  {
    IdsAt(order);
    forall m ensures m in order <==> m in msgs {
      if m in msgs {
        var i :| 0 <= i < |order| && order[i].id == m.id;
        assert order[i] in msgs;
      }
    }
    assert NoRepeat(order) by {
      forall i, j | 0 <= i < j < |order| ensures order[i] != order[j] {
        assert Ids(order)[i] != Ids(order)[j];
      }
    }
    FoldSameSet(wk, order, msgs);
  }

  /** Once memory has marked all of a client's input as seen, acked or not, it holds the crash-free result. */
  lemma AllSeenIsCrashFree<W(!new)>(cfg: C.Config, wk: Worker<W>, run: seq<Process<W>>, i: nat, c: ClientId,
                                    msgs: seq<Envelope>)
    requires Sound(cfg, wk) && IsRun(cfg, wk, run) && i < |run| && c in run[i].clients && run[i].phase.Working?
    requires Input(msgs) && Commutes(wk, msgs)
    requires forall m <- msgs :: m.id in run[i].clients[c].seen
    requires forall m <- run[i].delivered :: m.client == c ==>
               m.id != ZERO_ID && (m.id in run[i].clients[c].seen ==> m in msgs)
    ensures run[i].clients[c].w == Fold(wk, msgs)
  {
    ExactlyOnceEffect(cfg, wk, run, i, c);
    hide IsRun, Sound, Ids, Commutes;
    AllInput(wk, run[i].clients[c].order, msgs);
  }

  ghost predicate Acked<W>(s: Process<W>, c: ClientId, m: Envelope) {
    exists a <- s.fired :: a.msg.client == c && a.msg.id == m.id
  }

  /** Once every message of the client's input is acked, what is on disk, and what memory holds when
      the process works, is the crash-free result of handling the input once, in order. */
  lemma AllAckedIsCrashFree<W(!new)>(cfg: C.Config, wk: Worker<W>, run: seq<Process<W>>, i: nat, c: ClientId,
                                     msgs: seq<Envelope>)
    requires Sound(cfg, wk) && IsRun(cfg, wk, run) && i < |run| && c in run[i].clients && c != NIL_CLIENT
    requires Input(msgs) && Commutes(wk, msgs)
    requires forall m <- run[i].delivered :: m.client == c ==> m in msgs
    requires forall m <- msgs :: Acked(run[i], c, m)
    ensures var k := run[i].clients[c];
            && k.durable <= |k.order|
            && Fold(wk, k.order[..k.durable]) == Fold(wk, msgs)
            && (run[i].phase.Working? ==> k.w == Fold(wk, msgs))
  {
    var s, k := run[i], run[i].clients[c];
    Reachable(cfg, wk, run, i);
    ClientAt(cfg, wk, s, c);
    hide IsRun, Sound, C.Invariant, Holds, ClientsInvariant, Ids, Commutes;
    var disk := k.order[..k.durable];
    forall m <- msgs ensures m.id in Ids(disk) {
      var a :| a in s.fired && a.msg.client == c && a.msg.id == m.id;
      assert Saved(s, a);
      assert Covered(disk, a.msg);
    }
    IdsPrefix(disk, k.order);
    assert Ids(disk) == Ids(k.order)[..|Ids(disk)|];
    AllInput(wk, disk, msgs);
    AllInput(wk, k.order, msgs);
  }
}
