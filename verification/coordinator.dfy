// Coordinator: which clients are dirty, which acks wait for the next flush, and
// the order in which a flush writes checkpoints and fires acks.
module Coordinators {
  import opened Bytes
  import opened Store
  import opened Checkpoint
  import opened FileStores
  import opened Dedup

  /** uuid.Nil: never dirty, because Dispatch answers it for messages that need no checkpoint. */
  const NIL_CLIENT: ClientId := "00000000-0000-0000-0000-000000000000"

  type AckTag = nat

  /** What the outside world sees of a coordinator, in order: completed checkpoints and fired acks. */
  datatype Event = Saved(client: ClientId) | AckFired(ack: AckTag)

  function SaveEvents(order: seq<ClientId>): seq<Event> {
    seq(|order|, i requires 0 <= i < |order| => Saved(order[i]))
  }

  lemma SaveEventsSnoc(journal: seq<Event>, order: seq<ClientId>, c: ClientId)
    ensures SaveEvents([]) == []
    ensures journal + SaveEvents(order) + [Saved(c)] == journal + SaveEvents(order + [c])
  {
    assert SaveEvents(order + [c]) == SaveEvents(order) + [Saved(c)];
  }

  function AckEvents(acks: seq<AckTag>): seq<Event> {
    seq(|acks|, i requires 0 <= i < |acks| => AckFired(acks[i]))
  }

  /** The journal goes on with one entry for each of these checkpoints and then one for each of these acks, in order. */
  ghost predicate Wrote(before: seq<Event>, order: seq<ClientId>, acks: seq<AckTag>, after: seq<Event>) {
    && before <= after && |after| == |before| + |order| + |acks|
    && (forall i :: 0 <= i < |order| ==> after[|before| + i] == Saved(order[i]))
    && (forall i :: 0 <= i < |acks| ==> after[|before| + |order| + i] == AckFired(acks[i]))
  }

  /** The sequence lists the set, every member once. */
  ghost predicate EachOnce(order: seq<ClientId>, clients: set<ClientId>) {
    (set c <- order) == clients && |order| == |clients|
  }

  lemma EachOnceEmpty()
    ensures EachOnce([], {})
  {
  }

  lemma EachOnceSnoc(order: seq<ClientId>, clients: set<ClientId>, c: ClientId)
    requires EachOnce(order, clients) && c !in clients
    ensures EachOnce(order + [c], clients + {c})
  {
    assert (set x <- order + [c]) == (set x <- order) + {c};
  }

  /** A Checkpointable: the serialised state a component holds for each client. */
  class Snapshots {
    var data: map<ClientId, Bytes>

    constructor ()
      ensures data == map[]
    {
      data := map[];
    }

    function Of(c: ClientId): Bytes
      reads this
    {
      if c in data then data[c] else []
    }

    method SnapshotClient(c: ClientId) returns (b: Bytes)
      ensures b == Of(c)
    {
      b := Of(c);
    }

    method RestoreClient(c: ClientId, b: Bytes)
      modifies this
      ensures data == if b == [] then old(data) else old(data)[c := b]
    {
      if b != [] {
        data := data[c := b];
      }
    }
  }

  /** A client's files, its generation in memory and its pending ids. */
  datatype ClientView = ClientView(disk: Disk, gen: nat, pending: seq<MsgId>)

  function Captured(cfg: Config, v: ClientView, state: Bytes, eof: Bytes): Commit {
    Commit(if cfg.hasState then state else [], if cfg.hasEof then eof else [], DrainBytes(v.pending))
  }

  /** The disk operations of a checkpoint taken in this situation. */
  function SavePlan(cfg: Config, v: ClientView, state: Bytes, eof: Bytes): seq<Op> {
    CheckpointOps(v.gen + 1, Captured(cfg, v, state, eof))
  }

  function SavedView(cfg: Config, v: ClientView, state: Bytes, eof: Bytes): ClientView {
    ClientView(RunOps(cfg, SavePlan(cfg, v, state, eof), v.disk), v.gen + 1, [])
  }

  class Coordinator {
    const cfg: Config
    const interval: nat
    const seen: DedupState
    const eof: Snapshots
    const state: Snapshots
    const stores: Stores

    var dirty: set<ClientId>
    var acks: seq<AckTag>
    var pending: nat
    var committedGen: map<ClientId, nat>

    ghost var journal: seq<Event>

    ghost predicate Valid()
      reads this
    {
      && interval >= 1 && state != eof && pending == |acks| && stores.crc == cfg.crc
      && forall c <- dirty :: ValidKey(c)
    }

    constructor (cfg: Config, seen: DedupState, eof: Snapshots, state: Snapshots, interval: int)
      requires state != eof
      ensures Valid() && fresh(stores)
      ensures this.cfg == cfg && this.seen == seen && this.eof == eof && this.state == state
      ensures this.interval == if interval < 1 then 1 else interval
      ensures dirty == {} && acks == [] && committedGen == map[] && stores.disks == map[] && journal == []
    {
      this.cfg, this.seen, this.eof, this.state := cfg, seen, eof, state;
      this.interval := if interval < 1 then 1 else interval;
      stores := new Stores(cfg.crc);
      dirty, acks, pending, committedGen, journal := {}, [], 0, map[], [];
    }

    function GenOf(c: ClientId): nat
      reads this
    {
      if c in committedGen then committedGen[c] else 0
    }

    ghost function ViewOf(c: ClientId): ClientView
      reads this, seen, stores
    {
      ClientView(DiskIn(stores.disks, c), GenOf(c), seen.PendingOf(c))
    }

    /** These operations, and no others, were carried out on the client's files. */
    ghost predicate Ran(c: ClientId, ops: seq<Op>, before: map<ClientId, Disk>)
      reads stores
    {
      && DiskIn(stores.disks, c) == RunOps(cfg, ops, DiskIn(before, c))
      && forall o :: o != c ==> DiskIn(stores.disks, o) == DiskIn(before, o)
    }

    /** First part of checkpoint: both snapshots, each next to the committed one. */
    method StageSnapshots(c: ClientId, gen: nat)
      requires Valid() && ValidKey(c)
      modifies stores
      ensures Ran(c, StageOps(gen, if cfg.hasState then state.Of(c) else [], if cfg.hasEof then eof.Of(c) else []),
                  old(stores.disks))
    {
      RunTwoOps(cfg, Stage(StateSlot, gen, if cfg.hasState then state.Of(c) else []),
                Stage(EofSlot, gen, if cfg.hasEof then eof.Of(c) else []), DiskIn(stores.disks, c));
      if cfg.hasState {
        var data := state.SnapshotClient(c);
        var _ := stores.Stage(StateSlot, c, gen, data);
      }
      if cfg.hasEof {
        var data := eof.SnapshotClient(c);
        var _ := stores.Stage(EofSlot, c, gen, data);
      }
    }

    /** Last part of checkpoint: the staged snapshots become the committed ones. */
    method PromoteSnapshots(c: ClientId, gen: nat)
      requires Valid() && ValidKey(c)
      modifies stores
      ensures Ran(c, PromoteOps(gen), old(stores.disks))
    {
      RunTwoOps(cfg, Promote(StateSlot, gen), Promote(EofSlot, gen), DiskIn(stores.disks, c));
      if cfg.hasState {
        var _ := stores.Promote(StateSlot, c, gen);
      }
      if cfg.hasEof {
        var _ := stores.Promote(EofSlot, c, gen);
      }
    }

    /** Middle part of checkpoint, the commit: the drained ids go to the log, then count as committed. */
    method CommitDelta(c: ClientId, gen: nat)
      requires Valid() && ValidKey(c)
      modifies this`committedGen, seen`pending, stores
      ensures Valid()
      ensures var v := old(ViewOf(c));
              ViewOf(c) == ClientView(RunOps(cfg, [Append(gen, DrainBytes(v.pending))], v.disk), gen, [])
      ensures forall o :: o != c ==> ViewOf(o) == old(ViewOf(o))
    {
      var delta := seen.DrainClient(c);
      assert [Append(gen, delta)][1..] == [];
      var _ := stores.Append(c, gen, delta);
      committedGen := committedGen[c := gen];
      seen.CommitDrained(c);
    }

    /** checkpoint: stage both snapshots, append the delta (the commit), promote. */
    method SaveClient(c: ClientId)
      requires Valid() && ValidKey(c)
      modifies this`committedGen, this`journal, seen`pending, stores
      ensures Valid()
      ensures ViewOf(c) == SavedView(cfg, old(ViewOf(c)), state.Of(c), eof.Of(c))
      ensures journal == old(journal) + [Saved(c)]
      ensures forall o :: o != c ==> ViewOf(o) == old(ViewOf(o))
    {
      hide RunOps, Apply, DrainBytes, StageOps, PromoteOps, CheckpointOps;
      var gen := GenOf(c) + 1;
      ghost var before := ViewOf(c);
      ghost var commit := Captured(cfg, before, state.Of(c), eof.Of(c));
      StageSnapshots(c, gen);
      assert forall o :: o != c ==> ViewOf(o) == old(ViewOf(o));
      CommitDelta(c, gen);
      assert forall o :: o != c ==> ViewOf(o) == old(ViewOf(o));
      PromoteSnapshots(c, gen);
      CheckpointOpsSplit(cfg, gen, commit, before.disk);
      assert DiskIn(stores.disks, c) == RunOps(cfg, CheckpointOps(gen, commit), before.disk);
      journal := journal + [Saved(c)];
    }

    /** Flush's first loop: checkpoint these clients, in any order. */
    method SaveAll(clients: set<ClientId>) returns (ghost order: seq<ClientId>)
      requires Valid() && forall c <- clients :: ValidKey(c)
      modifies this`committedGen, this`journal, seen`pending, stores
      ensures Valid()
      ensures forall c <- clients :: ViewOf(c) == SavedView(cfg, old(ViewOf(c)), state.Of(c), eof.Of(c))
      ensures forall c :: c !in clients ==> ViewOf(c) == old(ViewOf(c))
      ensures EachOnce(order, clients) && journal == old(journal) + SaveEvents(order)
    {
      hide *;
      ghost var done: set<ClientId> := {};
      var todo := clients;
      order := [];
      EachOnceEmpty();
      SaveEventsSnoc([], [], NIL_CLIENT);
      while todo != {}
        invariant Valid()
        invariant done == clients - todo && todo <= clients && EachOnce(order, done)
        invariant forall c :: c !in done ==> ViewOf(c) == old(ViewOf(c))
        invariant forall c <- done :: ViewOf(c) == SavedView(cfg, old(ViewOf(c)), state.Of(c), eof.Of(c))
        invariant journal == old(journal) + SaveEvents(order)
        decreases todo
      {
        var c :| c in todo;
        SaveClient(c);
        SaveEventsSnoc(old(journal), order, c);
        EachOnceSnoc(order, done, c);
        order := order + [c];
        done, todo := done + {c}, todo - {c};
      }
      assert done == clients;
    }

    /** Flush: checkpoint every dirty client, and only then fire the collected acks. */
    method Flush() returns (ghost order: seq<ClientId>)
      requires Valid()
      modifies this, seen`pending, stores
      ensures Valid() && dirty == {} && acks == []
      ensures forall c <- old(dirty) :: ViewOf(c) == SavedView(cfg, old(ViewOf(c)), state.Of(c), eof.Of(c))
      ensures forall c :: c !in old(dirty) ==> ViewOf(c) == old(ViewOf(c))
      ensures EachOnce(order, old(dirty))
      ensures journal == old(journal) + SaveEvents(order) + AckEvents(old(acks))
      ensures Wrote(old(journal), order, old(acks), journal)
    {
      hide SavedView, SavePlan, EachOnce;
      var todo, fire := dirty, acks;
      dirty, acks, pending := {}, [], 0;
      order := SaveAll(todo);
      journal := journal + AckEvents(fire);
    }

    /** Track: remember the ack, mark the client dirty unless it is uuid.Nil, flush when the interval is full. */
    method Track(c: ClientId, ack: AckTag) returns (ghost order: seq<ClientId>)
      requires Valid() && ValidKey(c)
      modifies this, seen`pending, stores
      ensures Valid()
      ensures var touched := if c == NIL_CLIENT then old(dirty) else old(dirty) + {c};
              if |old(acks)| + 1 < interval then
                && acks == old(acks) + [ack] && dirty == touched && journal == old(journal)
                && forall o :: ViewOf(o) == old(ViewOf(o))
              else
                && acks == [] && dirty == {}
                && (forall o <- touched :: ViewOf(o) == SavedView(cfg, old(ViewOf(o)), state.Of(o), eof.Of(o)))
                && (forall o :: o !in touched ==> ViewOf(o) == old(ViewOf(o)))
                && EachOnce(order, touched)
                && journal == old(journal) + SaveEvents(order) + AckEvents(old(acks) + [ack])
                && Wrote(old(journal), order, old(acks) + [ack], journal)
    {
      hide SavedView, SavePlan, EachOnce, SaveEvents, Wrote;
      if c != NIL_CLIENT {
        dirty := dirty + {c};
      }
      acks := acks + [ack];
      pending := pending + 1;
      order := [];
      if pending >= interval {
        order := Flush();
      }
    }

    // ---------------------------------------------------------------- restart

    /** Everything a restart rebuilds about one client. */
    ghost function LiveOf(c: ClientId): Live
      reads this, seen, stores, state, eof
    {
      Live(DiskIn(stores.disks, c), GenOf(c), state.Of(c), eof.Of(c), seen.SeenOf(c))
    }

    /** restoreOverwrite: settle what was staged, then restore from what is committed. */
    method RestoreOverwrite(kind: Kind, src: Snapshots, c: ClientId, gen: nat) returns (r: Result<()>)
      requires ValidKey(c) && cfg.Has(kind) && src.Of(c) == []
      modifies stores, src
      ensures stores.disks == old(stores.disks)[c := Apply(cfg, Promote(kind, gen), DiskIn(old(stores.disks), c))]
      ensures match LoadSlot(DiskIn(stores.disks, c).Get(kind))
              case Err(e) => r == Err(e)
              case Ok(data) => r.Ok? && src.Of(c) == data.GetOr([])
      ensures forall o :: o != c ==> src.Of(o) == old(src.Of(o))
    {
      r := stores.Promote(kind, c, gen);
      var loaded := stores.LoadSnapshot(kind, c);
      match loaded
      case Err(e) => return Err(e);
      case Ok(None) => return Ok(());
      case Ok(Some((data, _))) =>
        src.RestoreClient(c, data);
        return Ok(());
    }

    /** Both overwrite slots, state first; a slot that does not decode stops the recovery. */
    method RestoreSlots(c: ClientId, gen: nat) returns (r: Result<()>)
      requires Valid() && ValidKey(c) && state.Of(c) == eof.Of(c) == []
      modifies stores, state, eof
      ensures match RestoredSlots(cfg, RunOps(cfg, PromoteOps(gen), DiskIn(old(stores.disks), c)))
              case Err(_) => r.Err?
              case Ok((s, e)) =>
                r.Ok? && state.Of(c) == s.GetOr([]) && eof.Of(c) == e.GetOr([])
                    && Ran(c, PromoteOps(gen), old(stores.disks))
      ensures forall o :: o != c ==>
                state.Of(o) == old(state.Of(o)) && eof.Of(o) == old(eof.Of(o))
                && DiskIn(stores.disks, o) == DiskIn(old(stores.disks), o)
    {
      RunTwoOps(cfg, Promote(StateSlot, gen), Promote(EofSlot, gen), DiskIn(stores.disks, c));
      r := Ok(());
      if cfg.hasState {
        r := RestoreOverwrite(StateSlot, state, c, gen);
        if r.Err? {
          return;
        }
      }
      if cfg.hasEof {
        r := RestoreOverwrite(EofSlot, eof, c, gen);
      }
    }

    method ReplayRecords(c: ClientId, recs: seq<Record>)
      requires seen.SeenOf(c) == {}
      modifies seen`seen
      ensures seen.SeenOf(c) == ReplayAll(Payloads(recs))
      ensures forall o :: o != c ==> seen.SeenOf(o) == old(seen.SeenOf(o))
    {
      for i := 0 to |recs|
        invariant seen.SeenOf(c) == ReplayAll(Payloads(recs[..i]))
        invariant forall o :: o != c ==> seen.SeenOf(o) == old(seen.SeenOf(o))
      {
        seen.ReplayClient(c, recs[i].payload);
        assert Payloads(recs[..i + 1]) == Payloads(recs[..i]) + [recs[i].payload];
        ReplayAllSnoc(Payloads(recs[..i]), recs[i].payload);
      }
      assert recs[..|recs|] == recs;
    }

    /** Recover's loop body: truncate the log, restore both slots, replay every record. */
    method RecoverClient(c: ClientId) returns (r: Result<()>)
      requires Valid() && ValidKey(c) && LiveOf(c) == Fresh(DiskIn(stores.disks, c))
      requires DiskIn(stores.disks, c).log.Some?
      modifies this`committedGen, seen`seen, stores, state, eof
      ensures Valid() && seen.pending == old(seen.pending)
      ensures match Checkpoint.Recover(cfg, old(DiskIn(stores.disks, c)))
              case Err(_) => r.Err?
              case Ok((mem, disk)) =>
                && r.Ok? && LiveOf(c) == Restarted(mem, disk)
                && DiskIn(stores.disks, c) == disk && GenOf(c) == mem.gen && seen.SeenOf(c) == ReplayAll(mem.deltas)
                && state.Of(c) == mem.state.GetOr([]) && eof.Of(c) == mem.eof.GetOr([])
      ensures forall o :: o != c ==> LiveOf(o) == old(LiveOf(o))
    {
      hide RunOps, RestoredSlots, ReplayAll, ReplayIds, Scan, MaxGen;
      var loaded := stores.LoadRecords(c);
      var (recs, gen) := loaded.value;
      RecoverOpsSplit(cfg, gen, DiskIn(stores.disks, c));
      var _ := stores.Truncate(c, gen);
      r := RestoreSlots(c, gen);
      if r.Err? {
        return;
      }
      ReplayRecords(c, recs);
      committedGen := committedGen[c := gen];
    }

    /** Recover, in a process that has just started: every client with a log, in any order. */
    method Recover() returns (r: Result<()>)
      requires Valid() && forall key <- stores.disks :: ValidKey(key)
      requires committedGen == map[] && state.data == map[] && eof.data == map[] && seen.seen == map[]
      modifies this`committedGen, seen`seen, stores, state, eof
      ensures r.Ok? <==> forall c :: RestartSucceeds(cfg, DiskIn(old(stores.disks), c))
      ensures r.Ok? ==> forall c :: LiveOf(c) == AfterRestart(cfg, DiskIn(old(stores.disks), c))
      ensures r.Ok? ==> forall c :: DiskIn(old(stores.disks), c).log.Some? ==>
                        var (mem, disk) := Checkpoint.Recover(cfg, DiskIn(old(stores.disks), c)).value;
                        && DiskIn(stores.disks, c) == disk && GenOf(c) == mem.gen
                        && seen.SeenOf(c) == ReplayAll(mem.deltas)
                        && state.Of(c) == mem.state.GetOr([]) && eof.Of(c) == mem.eof.GetOr([])
    {
      hide Checkpoint.Recover, ReplayAll;
      var keys := stores.Keys();
      var todo := keys;
      while todo != {}
        invariant Valid() && todo <= keys
        invariant forall c :: c !in keys || c in todo ==> LiveOf(c) == Fresh(DiskIn(old(stores.disks), c))
        invariant forall c :: c in keys && c !in todo ==>
                    && RestartSucceeds(cfg, DiskIn(old(stores.disks), c))
                    && LiveOf(c) == AfterRestart(cfg, DiskIn(old(stores.disks), c))
        decreases todo
      {
        var c :| c in todo;
        assert LiveOf(c) == Fresh(DiskIn(old(stores.disks), c));
        r := RecoverClient(c);
        if r.Err? {
          assert !RestartSucceeds(cfg, DiskIn(old(stores.disks), c));
          return;
        }
        todo := todo - {c};
      }
      forall c | c !in keys
        ensures RestartSucceeds(cfg, DiskIn(old(stores.disks), c))
        ensures AfterRestart(cfg, DiskIn(old(stores.disks), c)) == Fresh(DiskIn(old(stores.disks), c))
      {
        NoLogNothingRestored(cfg, DiskIn(old(stores.disks), c));
      }
      r := Ok(());
    }

    /** Delete: the client's files and what memory knows of it. */
    method Delete(c: ClientId)
      requires Valid() && ValidKey(c)
      modifies this`committedGen, this`dirty, stores
      ensures Valid() && dirty == old(dirty) - {c}
      ensures DiskIn(stores.disks, c) == EMPTY_DISK && GenOf(c) == 0
      ensures forall o :: o != c ==>
                DiskIn(stores.disks, o) == DiskIn(old(stores.disks), o) && GenOf(o) == old(GenOf(o))
    {
      var _ := stores.Delete(c);
      committedGen := committedGen - {c};
      dirty := dirty - {c};
    }
  }

  ghost predicate RestartSucceeds(cfg: Config, d: Disk) {
    Checkpoint.Recover(cfg, d).Ok?
  }

  ghost function AfterRestart(cfg: Config, d: Disk): Live
  {
    match Checkpoint.Recover(cfg, d)
    case Err(_) => Fresh(d)
    case Ok((mem, disk)) => Restarted(mem, disk)
  }

  lemma NoLogNothingRestored(cfg: Config, d: Disk)
    requires d.log.None?
    ensures RestartSucceeds(cfg, d) && AfterRestart(cfg, d) == Fresh(d)
  {
    assert ReplayAll([]) == {};
  }

  /** A client of a running process. */
  datatype Live = Live(disk: Disk, gen: nat, state: Bytes, eof: Bytes, seen: set<MsgId>)

  /** A client nothing is known about yet. */
  function Fresh(disk: Disk): Live {
    Live(disk, 0, [], [], {})
  }

  /** A client after a restart that found this memory on disk. */
  function Restarted(mem: Memory, disk: Disk): Live {
    Live(disk, mem.gen, mem.state.GetOr([]), mem.eof.GetOr([]), ReplayAll(mem.deltas))
  }

  /** The ids all replayed deltas mark as seen. */
  function ReplayAll(deltas: seq<Bytes>): set<MsgId> {
    set i, id | 0 <= i < |deltas| && id in ReplayIds(deltas[i]) :: id
  }

  lemma ReplayAllSnoc(deltas: seq<Bytes>, delta: Bytes)
    ensures ReplayAll(deltas + [delta]) == ReplayAll(deltas) + IdSet(ReplayIds(delta))
  {
    var more := deltas + [delta];
    forall id | id in ReplayAll(deltas) + IdSet(ReplayIds(delta)) ensures id in ReplayAll(more) {
      if id in ReplayAll(deltas) {
        var i :| 0 <= i < |deltas| && id in ReplayIds(deltas[i]);
        assert more[i] == deltas[i];
      } else {
        assert more[|deltas|] == delta;
      }
    }
  }
}
