// The coordinator's Flush as a run of the process's steps: the journal it writes is what an undisturbed
// flush shows to the outside, all checkpoints first and then the collected acks, in order, once each.
module Flushes {
  import opened Bytes
  import opened Dedup
  import opened Publisher
  import opened Coordinators
  import opened ExactlyOnce
  import opened Deliveries
  import StringOrder
  import C = Checkpoint

  /** What a step shows to the outside: an ack that fires, or a client whose checkpoint is complete. */
  ghost function StepEvents<W>(s: Process<W>, s': Process<W>): seq<Event> {
    if |s'.fired| > |s.fired| then [AckFired(s'.fired[|s.fired|].tag)]
    else if s.phase.Flushing? && s'.phase.Flushing? && exists c :: c in s.phase.todo - s'.phase.todo then
      var c :| c in s.phase.todo - s'.phase.todo;
      [Saved(c)]
    else []
  }

  ghost function EventsOf<W>(run: seq<Process<W>>): seq<Event> {
    if |run| < 2 then [] else StepEvents(run[0], run[1]) + EventsOf(run[1..])
  }

  /** A run of steps from one state to another, and what it shows. */
  ghost predicate IsPath<W(!new)>(cfg: C.Config, wk: Worker<W>, s: Process<W>, events: seq<Event>, s': Process<W>,
                                  run: seq<Process<W>>) {
    && |run| > 0 && run[0] == s && run[|run| - 1] == s' && EventsOf(run) == events
    && forall i :: 0 <= i < |run| - 1 ==> Next(cfg, wk, run[i], run[i + 1])
  }

  ghost predicate Reaches<W(!new)>(cfg: C.Config, wk: Worker<W>, s: Process<W>, events: seq<Event>, s': Process<W>) {
    exists run :: IsPath(cfg, wk, s, events, s', run)
  }

  lemma ReachesNothing<W(!new)>(cfg: C.Config, wk: Worker<W>, s: Process<W>)
    ensures Reaches(cfg, wk, s, [], s)
  {
    hide Next;
    assert IsPath(cfg, wk, s, [], s, [s]);
  }

  lemma ReachesOne<W(!new)>(cfg: C.Config, wk: Worker<W>, s: Process<W>, s': Process<W>)
    requires Next(cfg, wk, s, s')
    ensures Reaches(cfg, wk, s, StepEvents(s, s'), s')
  {
    hide Next, StepEvents;
    var run := [s, s'];
    assert run[1..] == [s'];
    assert EventsOf(run) == StepEvents(s, s') + [];
    assert IsPath(cfg, wk, s, StepEvents(s, s'), s', run);
  }

  lemma {:induction false} EventsAppend<W>(a: seq<Process<W>>, b: seq<Process<W>>)
    requires a != [] && b != [] && a[|a| - 1] == b[0]
    ensures EventsOf(a + b[1..]) == EventsOf(a) + EventsOf(b)
  {
    hide StepEvents;
    if |a| == 1 {
      assert a + b[1..] == b;
    } else {
      assert (a + b[1..])[1..] == a[1..] + b[1..];
      EventsAppend(a[1..], b);
    }
  }

  lemma ReachesOn<W(!new)>(cfg: C.Config, wk: Worker<W>, s: Process<W>, e: seq<Event>, s': Process<W>, f: seq<Event>,
                           s'': Process<W>)
    requires Reaches(cfg, wk, s, e, s') && Reaches(cfg, wk, s', f, s'')
    ensures Reaches(cfg, wk, s, e + f, s'')
  {
    hide Next, EventsOf;
    var a :| IsPath(cfg, wk, s, e, s', a);
    var b :| IsPath(cfg, wk, s', f, s'', b);
    EventsAppend(a, b);
    var run := a + b[1..];
    forall i | 0 <= i < |run| - 1 ensures Next(cfg, wk, run[i], run[i + 1]) {
      assert i >= |a| - 1 ==> run[i] == b[i - |a| + 1] && run[i + 1] == b[i - |a| + 2];
    }
    assert IsPath(cfg, wk, s, e + f, s'', run);
  }

  // ---------------------------------------------------------------- one client

  /** The process around one client's checkpoint. */
  function Around<W>(s: Process<W>, c: ClientId, k: Client<W>): Process<W>
    requires s.phase.Flushing?
  {
    s.(clients := s.clients[c := k],
       phase := if k.ckpt.phase.Idle? then s.phase.(todo := s.phase.todo - {c}) else s.phase)
  }

  lemma {:induction false} SaveGoesOn<W(!new)>(cfg: C.Config, wk: Worker<W>, s: Process<W>, c: ClientId,
                                               run: seq<Client<W>>)
    requires s.phase.Flushing? && c in s.phase.todo && c in s.clients
    requires AdvanceSteps(cfg, run) && |run| > 1 && run[|run| - 1].ckpt.phase.Idle?
    ensures Reaches(cfg, wk, Around(s, c, run[0]), [Saved(c)], Around(s, c, run[|run| - 1]))
    decreases |run|
  {
    var p, p' := Around(s, c, run[0]), Around(s, c, run[1]);
    assert AdvanceSave(cfg, run[0], run[1]);
    assert run[0].ckpt.phase.Checkpointing?;
    assert p'.clients == p.clients[c := run[1]];
    assert Save(cfg, wk, p, c, p') by {
      hide AdvanceSave, BeginSave;
    }
    assert Next(cfg, wk, p, p');
    hide Next, Save;
    ReachesOne(cfg, wk, p, p');
    if |run| == 2 {
      assert p.phase.todo - p'.phase.todo == {c};
      hide Reaches;
    } else {
      assert run[1].ckpt.phase.Checkpointing? by {
        assert AdvanceSave(cfg, run[1], run[2]);
      }
      assert StepEvents(p, p') == [];
      hide StepEvents, Reaches, AdvanceSave;
      SaveGoesOn(cfg, wk, s, c, run[1..]);
      ReachesOn(cfg, wk, p, [], p', [Saved(c)], Around(s, c, run[|run| - 1]));
      assert [] + [Saved(c)] == [Saved(c)];
    }
  }

  /** What the coordinator's SaveClient promises of a client. */
  ghost predicate IsSaved<W>(cfg: C.Config, wk: Worker<W>, k: Client<W>, k': Client<W>) {
    && k'.ckpt.phase.Idle? && k'.w == k.w && k'.order == k.order && k'.durable == |k.order|
    && ClientView(k'.ckpt.disk, k'.ckpt.gen, k'.pending)
       == SavedView(cfg, ClientView(k.ckpt.disk, k.ckpt.gen, k.pending), wk.snapState(k.w), wk.snapEof(k.w))
  }

  /** The client can be checkpointed now, and its checkpoint fits the file formats. */
  ghost predicate Savable<W>(cfg: C.Config, wk: Worker<W>, k: Client<W>) {
    k.ckpt.phase.Idle? && C.Storable(k.ckpt.hist, Capture(cfg, wk, k))
  }

  lemma {:induction false} SameWorker<W>(cfg: C.Config, run: seq<Client<W>>)
    requires AdvanceSteps(cfg, run)
    ensures run[|run| - 1].w == run[0].w
    decreases |run|
  {
    if |run| > 1 {
      assert AdvanceSave(cfg, run[0], run[1]);
      SameWorker(cfg, run[1..]);
    }
  }

  lemma SaveReaches<W(!new)>(cfg: C.Config, wk: Worker<W>, s: Process<W>, c: ClientId) returns (k: Client<W>)
    requires s.phase.Flushing? && c in s.phase.todo && c in s.clients && Savable(cfg, wk, s.clients[c])
    ensures IsSaved(cfg, wk, s.clients[c], k) && Reaches(cfg, wk, s, [Saved(c)], Around(s, c, k))
  {
    var begun, run := SaveIsSteps(cfg, wk, s.clients[c]);
    SameWorker(cfg, run);
    k := run[|run| - 1];
    var p := Around(s, c, begun);
    assert begun.ckpt.phase.Checkpointing? && begun.w == s.clients[c].w;
    assert Save(cfg, wk, s, c, p);
    assert StepEvents(s, p) == [];
    SaveGoesOn(cfg, wk, s, c, run);
    hide Save, SavedView, StepEvents, Reaches, BeginSave, AdvanceSteps;
    assert Next(cfg, wk, s, p);
    ReachesOne(cfg, wk, s, p);
    ReachesOn(cfg, wk, s, [], p, [Saved(c)], Around(s, c, k));
    assert [] + [Saved(c)] == [Saved(c)];
  }

  // ---------------------------------------------------------------- all clients, then all acks

  lemma {:induction false} SaveAllReaches<W(!new)>(cfg: C.Config, wk: Worker<W>, s: Process<W>, order: seq<ClientId>)
    returns (t: Process<W>)
    requires s.phase.Flushing? && NoRepeat(order) && s.phase.todo == set c <- order
    requires forall c <- order :: c in s.clients && Savable(cfg, wk, s.clients[c])
    ensures Reaches(cfg, wk, s, SaveEvents(order), t) && t.clients.Keys == s.clients.Keys
    ensures t == s.(clients := t.clients, phase := Flushing({}, s.phase.fire))
    ensures forall c <- s.clients :: if c in order then IsSaved(cfg, wk, s.clients[c], t.clients[c])
                                     else t.clients[c] == s.clients[c]
    decreases |order|
  {
    hide Savable, IsSaved, Reaches;
    if order == [] {
      ReachesNothing(cfg, wk, s);
      t := s;
    } else {
      var c, rest := order[0], order[1..];
      var k := SaveReaches(cfg, wk, s, c);
      var p := Around(s, c, k);
      assert p.phase == Flushing(s.phase.todo - {c}, s.phase.fire) by {
        SavedIsIdle(cfg, wk, s.clients[c], k);
      }
      assert c !in rest && forall x <- rest :: x in order;
      assert forall x <- order :: x == c || x in rest;
      t := SaveAllReaches(cfg, wk, p, rest);
      ReachesOn(cfg, wk, s, [Saved(c)], p, SaveEvents(rest), t);
      assert [Saved(c)] + SaveEvents(rest) == SaveEvents(order);
    }
  }

  lemma SavedIsIdle<W>(cfg: C.Config, wk: Worker<W>, k: Client<W>, k': Client<W>)
    requires IsSaved(cfg, wk, k, k')
    ensures k'.ckpt.phase.Idle?
  {
  }

  function Tags(acks: seq<Ack>): seq<AckTag> {
    seq(|acks|, i requires 0 <= i < |acks| => acks[i].tag)
  }

  lemma {:induction false} FireReaches<W(!new)>(cfg: C.Config, wk: Worker<W>, s: Process<W>)
    requires s.phase.Flushing? && s.phase.todo == {}
    ensures Reaches(cfg, wk, s, AckEvents(Tags(s.phase.fire)), s.(phase := Working, fired := s.fired + s.phase.fire))
    decreases |s.phase.fire|
  {
    var fire, last := s.phase.fire, s.(phase := Working, fired := s.fired + s.phase.fire);
    if fire == [] {
      assert s.fired + [] == s.fired;
      FireStep(s, last);
      hide StepEvents, Reaches, Fire;
      FireNext(cfg, wk, s, last);
      ReachesOne(cfg, wk, s, last);
      assert AckEvents(Tags(fire)) == [];
    } else {
      var p := s.(phase := s.phase.(fire := fire[1..]), fired := s.fired + [fire[0]]);
      FireStep(s, p);
      hide StepEvents, Reaches, Fire;
      FireNext(cfg, wk, s, p);
      ReachesOne(cfg, wk, s, p);
      FireReaches(cfg, wk, p);
      assert s.fired + [fire[0]] + fire[1..] == s.fired + fire;
      ReachesOn(cfg, wk, s, [AckFired(fire[0].tag)], p, AckEvents(Tags(fire[1..])), last);
      AckEventsFront(fire);
    }
  }

  lemma FireStep<W>(s: Process<W>, p: Process<W>)
    requires s.phase.Flushing? && s.phase.todo == {}
    requires p == if s.phase.fire == [] then s.(phase := Working)
                  else s.(phase := s.phase.(fire := s.phase.fire[1..]), fired := s.fired + [s.phase.fire[0]])
    ensures Fire(s, p)
    ensures StepEvents(s, p) == if s.phase.fire == [] then [] else [AckFired(s.phase.fire[0].tag)]
  {
  }

  lemma FireNext<W(!new)>(cfg: C.Config, wk: Worker<W>, s: Process<W>, p: Process<W>)
    requires Fire(s, p)
    ensures Next(cfg, wk, s, p)
  {
    hide Fire;
  }

  lemma AckEventsFront(fire: seq<Ack>)
    requires fire != []
    ensures [AckFired(fire[0].tag)] + AckEvents(Tags(fire[1..])) == AckEvents(Tags(fire))
  {
  }

  /** Coordinator.Flush is a run of the process's steps: from the same clients, dirty marks and acks, the steps
      StartFlush, Save and Fire show exactly the journal the method promises, leave every dirty client as it
      promises and no other changed, and fire the collected acks in order. */
  lemma FlushIsSteps<W(!new)>(cfg: C.Config, wk: Worker<W>, s: Process<W>, order: seq<ClientId>)
    returns (t: Process<W>)
    requires s.phase.Working? && EachOnce(order, s.dirty)
    requires forall c <- s.dirty :: c in s.clients && Savable(cfg, wk, s.clients[c])
    ensures Reaches(cfg, wk, s, SaveEvents(order) + AckEvents(Tags(s.acks)), t)
    ensures t.phase.Working? && t.dirty == {} && t.acks == [] && t.fired == s.fired + s.acks
    ensures t.clients.Keys == s.clients.Keys
    ensures forall c <- s.clients :: if c in s.dirty then IsSaved(cfg, wk, s.clients[c], t.clients[c])
                                     else t.clients[c] == s.clients[c]
  {
    var p := s.(phase := Flushing(s.dirty, s.acks), dirty := {}, acks := []);
    assert StartFlush(s, p) && StepEvents(s, p) == [];
    hide StepEvents, Reaches, StartFlush, Savable, IsSaved;
    assert Next(cfg, wk, s, p);
    ReachesOne(cfg, wk, s, p);
    StringOrder.ListedOnce(order);
    var q := SaveAllReaches(cfg, wk, p, order);
    FireReaches(cfg, wk, q);
    t := q.(phase := Working, fired := q.fired + q.phase.fire);
    ReachesOn(cfg, wk, s, [], p, SaveEvents(order), q);
    assert [] + SaveEvents(order) == SaveEvents(order);
    ReachesOn(cfg, wk, s, SaveEvents(order), q, AckEvents(Tags(s.acks)), t);
  }
}
