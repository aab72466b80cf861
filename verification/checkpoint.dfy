// One client's checkpoint on disk: two overwrite slots and an append log, the
// operations that change them, and what a crash may leave of each operation.
// The append is the single commit point; recovery decides by the log alone.
module Checkpoint {
  import opened Bytes
  import opened Store

  datatype Kind = StateSlot | EofSlot

  /** One key of an OverwriteStore: the staged `.ckpt.tmp` and the committed `.ckpt` file. */
  datatype Slot = Slot(tmp: Option<Bytes>, main: Option<Bytes>)

  datatype Disk = Disk(state: Slot, eof: Slot, log: Option<Bytes>) {
    function Get(kind: Kind): Slot {
      if kind.StateSlot? then state else eof
    }

    function Put(kind: Kind, s: Slot): Disk {
      if kind.StateSlot? then this.(state := s) else this.(eof := s)
    }
  }

  const NO_SLOT := Slot(None, None)
  const EMPTY_DISK := Disk(NO_SLOT, NO_SLOT, None)

  /** Which of the coordinator's optional sources are configured (non-nil), and the log checksum. */
  datatype Config = Config(hasState: bool, hasEof: bool, crc: Checksum) {
    predicate Has(kind: Kind) {
      if kind.StateSlot? then hasState else hasEof
    }
  }

  /** What one checkpoint captures: both snapshots and the drained delta. */
  datatype Commit = Commit(state: Bytes, eof: Bytes, delta: Bytes) {
    function Data(kind: Kind): Bytes {
      if kind.StateSlot? then state else eof
    }
  }

  datatype Op =
    | Stage(kind: Kind, gen: nat, data: Bytes)
    | Append(gen: nat, payload: Bytes)
    | Promote(kind: Kind, gen: nat)
    | Truncate(gen: nat)

  function LogContents(log: Option<Bytes>): Bytes {
    if log.None? then [] else log.value
  }

  function PromoteSlot(s: Slot, gen: nat): Slot {
    if ReadOverwriteHeader(s.tmp) == Some(gen) then Slot(None, s.tmp) else Slot(None, s.main)
  }

  /** The disk once the operation has returned; operations on a source that is not configured do nothing. */
  function Apply(cfg: Config, op: Op, d: Disk): Disk {
    match op
    case Stage(kind, gen, data) =>
      if cfg.Has(kind) then d.Put(kind, d.Get(kind).(tmp := Some(EncodeOverwrite(gen, data)))) else d
    case Append(gen, payload) =>
      d.(log := Some(LogContents(d.log) + EncodeRecord(cfg.crc, Record(gen, payload))))
    case Promote(kind, gen) =>
      if cfg.Has(kind) then d.Put(kind, PromoteSlot(d.Get(kind), gen)) else d
    case Truncate(gen) =>
      if d.log.None? then d
      else d.(log := Some(d.log.value[..CutPoint(cfg.crc, d.log.value, 0, gen)]))
  }

  /** What a crash inside the operation may leave. A write may stop after any byte, and a file that was
      being created or replaced may still be the old one or be gone; rename, remove and truncate are atomic. */
  ghost predicate Torn(cfg: Config, op: Op, d: Disk, d': Disk) {
    match op
    case Stage(kind, gen, data) =>
      || d' == d
      || (cfg.Has(kind) && d' == d.Put(kind, d.Get(kind).(tmp := None)))
      || (cfg.Has(kind) &&
          exists k: nat | k <= |EncodeOverwrite(gen, data)| ::
            d' == d.Put(kind, d.Get(kind).(tmp := Some(EncodeOverwrite(gen, data)[..k]))))
    case Append(gen, payload) =>
      || d' == d
      || exists k: nat | k <= |EncodeRecord(cfg.crc, Record(gen, payload))| ::
           d' == d.(log := Some(LogContents(d.log) + EncodeRecord(cfg.crc, Record(gen, payload))[..k]))
    case Promote(_, _) => d' == d || d' == Apply(cfg, op, d)
    case Truncate(_) => d' == d || d' == Apply(cfg, op, d)
  }

  /** The disk operations of Coordinator.checkpoint, in order. */
  function CheckpointOps(gen: nat, c: Commit): seq<Op> {
    [Stage(StateSlot, gen, c.state), Stage(EofSlot, gen, c.eof), Append(gen, c.delta),
     Promote(StateSlot, gen), Promote(EofSlot, gen)]
  }

  const APPEND_INDEX := 2
  const CHECKPOINT_LENGTH := 5

  /** The disk operations of Coordinator.Recover for one client. */
  function RecoverOps(gen: nat): seq<Op> {
    [Truncate(gen), Promote(StateSlot, gen), Promote(EofSlot, gen)]
  }

  const RECOVER_LENGTH := 3

  function RunOps(cfg: Config, ops: seq<Op>, d: Disk): Disk {
    if ops == [] then d else RunOps(cfg, ops[1..], Apply(cfg, ops[0], d))
  }

  function StageOps(gen: nat, state: Bytes, eof: Bytes): seq<Op> {
    [Stage(StateSlot, gen, state), Stage(EofSlot, gen, eof)]
  }

  function PromoteOps(gen: nat): seq<Op> {
    [Promote(StateSlot, gen), Promote(EofSlot, gen)]
  }

  lemma {:induction false} RunOpsConcat(cfg: Config, a: seq<Op>, b: seq<Op>, d: Disk)
    ensures RunOps(cfg, a + b, d) == RunOps(cfg, b, RunOps(cfg, a, d))
  {
    if a == [] {
      assert a + b == b;
    } else {
      assert (a + b)[1..] == a[1..] + b;
      RunOpsConcat(cfg, a[1..], b, Apply(cfg, a[0], d));
    }
  }

  lemma RunTwoOps(cfg: Config, a: Op, b: Op, d: Disk)
    ensures RunOps(cfg, [a, b], d) == Apply(cfg, b, Apply(cfg, a, d))
  {
    assert [a, b][1..] == [b];
    assert RunOps(cfg, [b], Apply(cfg, a, d)) == RunOps(cfg, [], Apply(cfg, b, Apply(cfg, a, d)));
  }

  /** A checkpoint is: stage, append, promote. */
  lemma CheckpointOpsSplit(cfg: Config, gen: nat, c: Commit, d: Disk)
    ensures RunOps(cfg, CheckpointOps(gen, c), d) ==
            RunOps(cfg, PromoteOps(gen), RunOps(cfg, [Append(gen, c.delta)],
                RunOps(cfg, StageOps(gen, c.state, c.eof), d)))
  {
    var s, p := StageOps(gen, c.state, c.eof), PromoteOps(gen);
    assert CheckpointOps(gen, c) == s + ([Append(gen, c.delta)] + p);
    RunOpsConcat(cfg, s, [Append(gen, c.delta)] + p, d);
    RunOpsConcat(cfg, [Append(gen, c.delta)], p, RunOps(cfg, s, d));
  }

  // ---------------------------------------------------------------- recovery

  /** What a restarted process holds: the committed generation, both restored snapshots and the replayed deltas. */
  datatype Memory = Memory(gen: nat, state: Option<Bytes>, eof: Option<Bytes>, deltas: seq<Bytes>)

  /** OverwriteStore.Load, then RestoreClient on what it returned. */
  function LoadSlot(s: Slot): Result<Option<Bytes>> {
    if s.main.None? then Ok(None)
    else match DecodeOverwrite(s.main.value)
      case Err(e) => Err(e)
      case Ok((data, _)) => Ok(Some(data))
  }

  function CommittedGen(cfg: Config, d: Disk): nat {
    MaxGen(Scan(cfg.crc, LogContents(d.log), 0).recs)
  }

  function Payloads(recs: seq<Record>): seq<Bytes> {
    seq(|recs|, i requires 0 <= i < |recs| => recs[i].payload)
  }

  /** What the two configured sources are restored from. */
  function RestoredSlots(cfg: Config, d: Disk): Result<(Option<Bytes>, Option<Bytes>)> {
    match (if cfg.hasState then LoadSlot(d.state) else Ok(None))
    case Err(e) => Err(e)
    case Ok(state) =>
      match (if cfg.hasEof then LoadSlot(d.eof) else Ok(None))
      case Err(e) => Err(e)
      case Ok(eof) => Ok((state, eof))
  }

  /** Recover for one client: clients are found by their log file, so without one nothing is restored. */
  function Recover(cfg: Config, d: Disk): (r: Result<(Memory, Disk)>) {
    if d.log.None? then Ok((Memory(0, None, None, []), d))
    else
      var recs := Scan(cfg.crc, d.log.value, 0).recs;
      var d' := RunOps(cfg, RecoverOps(MaxGen(recs)), d);
      match RestoredSlots(cfg, d')
      case Err(e) => Err(e)
      case Ok((state, eof)) => Ok((Memory(MaxGen(recs), state, eof, Payloads(recs)), d'))
  }

  lemma RecoverOpsSplit(cfg: Config, gen: nat, d: Disk)
    ensures RunOps(cfg, RecoverOps(gen), d) == RunOps(cfg, PromoteOps(gen), Apply(cfg, Truncate(gen), d))
  {
    assert RecoverOps(gen)[1..] == PromoteOps(gen);
  }

  // ---------------------------------------------------------------- runs

  datatype Phase =
    | Down
    | Idle
    | Checkpointing(gen: nat, commit: Commit, next: nat)
    | Recovering(next: nat)

  /** A process and its disk. `gen` is committedGen in memory; `hist` lists the commits made so far. */
  datatype State = State(disk: Disk, phase: Phase, gen: nat, hist: seq<Commit>)

  const INIT := State(EMPTY_DISK, Idle, 0, [])

  /** The checkpoint fits the file formats: its generation and its delta length have fixed-width fields. */
  predicate Storable(hist: seq<Commit>, c: Commit) {
    |hist| + 1 < U64_LIMIT && |c.delta| < U32_LIMIT
  }

  ghost predicate Begin(s: State, c: Commit, s': State) {
    s.phase.Idle? && Storable(s.hist, c) && s' == s.(phase := Checkpointing(s.gen + 1, c, 0))
  }

  ghost predicate Advance(cfg: Config, s: State, s': State) {
    && s.phase.Checkpointing? && s.phase.next < CHECKPOINT_LENGTH
    && var Checkpointing(gen, c, k) := s.phase;
       s' == State(Apply(cfg, CheckpointOps(gen, c)[k], s.disk),
                   if k + 1 == CHECKPOINT_LENGTH then Idle else Checkpointing(gen, c, k + 1),
                   if k == APPEND_INDEX then gen else s.gen,
                   if k == APPEND_INDEX then s.hist + [c] else s.hist)
  }

  /** The process dies: memory is lost, and the operation it was in may be torn. A torn append that
      nevertheless wrote its whole record has committed. */
  ghost predicate Crash(cfg: Config, s: State, s': State) {
    && s'.phase.Down?
    && match s.phase
       case Down => false
       case Idle => s'.disk == s.disk && s'.hist == s.hist
       case Recovering(k) =>
         k < RECOVER_LENGTH && Torn(cfg, RecoverOps(s.gen)[k], s.disk, s'.disk) && s'.hist == s.hist
       case Checkpointing(gen, c, k) =>
         && k < CHECKPOINT_LENGTH && Torn(cfg, CheckpointOps(gen, c)[k], s.disk, s'.disk)
         && s'.hist == if k == APPEND_INDEX && s'.disk == Apply(cfg, CheckpointOps(gen, c)[k], s.disk)
                       then s.hist + [c] else s.hist
  }

  ghost predicate StartRecovery(cfg: Config, s: State, s': State) {
    && s.phase.Down?
    && s' == s.(phase := if s.disk.log.None? then Idle else Recovering(0), gen := CommittedGen(cfg, s.disk))
  }

  ghost predicate AdvanceRecovery(cfg: Config, s: State, s': State) {
    && s.phase.Recovering? && s.phase.next < RECOVER_LENGTH
    && var k := s.phase.next;
       s' == s.(disk := Apply(cfg, RecoverOps(s.gen)[k], s.disk),
                phase := if k + 1 == RECOVER_LENGTH then Idle else Recovering(k + 1))
  }

  ghost predicate Next(cfg: Config, s: State, s': State) {
    || (exists c :: Begin(s, c, s'))
    || Advance(cfg, s, s')
    || Crash(cfg, s, s')
    || StartRecovery(cfg, s, s')
    || AdvanceRecovery(cfg, s, s')
  }

  ghost predicate IsRun(cfg: Config, run: seq<State>) {
    && |run| > 0 && run[0] == INIT
    && forall i :: 0 <= i < |run| - 1 ==> Next(cfg, run[i], run[i + 1])
  }

  // ---------------------------------------------------------------- invariant

  function Recs(hist: seq<Commit>): (recs: seq<Record>)
    ensures |recs| == |hist|
  {
    seq(|hist|, i requires 0 <= i < |hist| => Record(i + 1, hist[i].delta))
  }

  function Last(hist: seq<Commit>, kind: Kind): Bytes
    requires hist != []
  {
    hist[|hist| - 1].Data(kind)
  }

  /** The promoted file holds the snapshot of the last commit (or is absent before the first). */
  ghost predicate Promoted(s: Slot, hist: seq<Commit>, kind: Kind) {
    s.main == if hist == [] then None else Some(EncodeOverwrite(|hist|, Last(hist, kind)))
  }

  /** Promoted, and nothing staged claims the committed generation. */
  ghost predicate Clean(s: Slot, hist: seq<Commit>, kind: Kind) {
    Promoted(s, hist, kind) && ReadOverwriteHeader(s.tmp) != Some(|hist|)
  }

  /** Committed but not yet promoted: the staged file is complete. */
  ghost predicate Unpromoted(s: Slot, hist: seq<Commit>, kind: Kind) {
    hist != [] && s.tmp == Some(EncodeOverwrite(|hist|, Last(hist, kind)))
  }

  /** The invariant Promote rests on: it reads only the header, so a staged file whose
      generation is the committed one must be complete. */
  ghost predicate Recoverable(s: Slot, hist: seq<Commit>, kind: Kind) {
    Clean(s, hist, kind) || Unpromoted(s, hist, kind)
  }

  ghost predicate Staged(s: Slot, hist: seq<Commit>, kind: Kind, c: Commit) {
    Clean(s, hist, kind) && s.tmp == Some(EncodeOverwrite(|hist| + 1, c.Data(kind)))
  }

  ghost predicate HistoryFits(hist: seq<Commit>) {
    |hist| < U64_LIMIT && AllFit(Recs(hist))
  }

  ghost predicate LogClean(cfg: Config, log: Option<Bytes>, hist: seq<Commit>) {
    if log.None? then hist == [] else log.value == LogBytes(cfg.crc, Recs(hist))
  }

  ghost predicate LogTorn(cfg: Config, log: Option<Bytes>, hist: seq<Commit>) {
    if log.None? then hist == []
    else exists tail :: TornTail(cfg.crc, tail) && log.value == LogBytes(cfg.crc, Recs(hist)) + tail
  }

  /** How far each slot has come, per phase. */
  ghost predicate SlotInvariant(s: State, kind: Kind) {
    var slot := s.disk.Get(kind);
    match s.phase
    case Down => Recoverable(slot, s.hist, kind)
    case Idle => Clean(slot, s.hist, kind)
    case Recovering(k) =>
      if k <= (if kind.StateSlot? then 1 else 2) then Recoverable(slot, s.hist, kind) else Clean(slot, s.hist, kind)
    case Checkpointing(gen, c, k) =>
      if k <= (if kind.StateSlot? then 0 else 1) then Clean(slot, s.hist, kind)
      else if k <= APPEND_INDEX then Staged(slot, s.hist, kind, c)
      else if k <= (if kind.StateSlot? then 3 else 4) then Unpromoted(slot, s.hist, kind)
      else Clean(slot, s.hist, kind)
  }

  ghost predicate PhaseInvariant(cfg: Config, s: State) {
    match s.phase
    case Down => LogTorn(cfg, s.disk.log, s.hist)
    case Idle => s.gen == |s.hist| && LogClean(cfg, s.disk.log, s.hist)
    case Recovering(k) =>
      && k < RECOVER_LENGTH && s.gen == |s.hist| && s.disk.log.Some?
      && (if k == 0 then LogTorn(cfg, s.disk.log, s.hist) else LogClean(cfg, s.disk.log, s.hist))
    case Checkpointing(gen, c, k) =>
      && k < CHECKPOINT_LENGTH && s.gen == |s.hist| && LogClean(cfg, s.disk.log, s.hist)
      && (if k <= APPEND_INDEX then gen == |s.hist| + 1 && Storable(s.hist, c)
          else s.hist != [] && gen == |s.hist| && s.hist[|s.hist| - 1] == c)
  }

  ghost predicate Invariant(cfg: Config, s: State) {
    && HistoryFits(s.hist)
    && PhaseInvariant(cfg, s)
    && forall kind :: cfg.Has(kind) ==> SlotInvariant(s, kind)
  }

  // ---------------------------------------------------------------- the log

  lemma RecsSnoc(hist: seq<Commit>, c: Commit)
    ensures Recs(hist + [c]) == Recs(hist) + [Record(|hist| + 1, c.delta)]
  {
  }

  lemma {:induction false} RecsMaxGen(hist: seq<Commit>)
    ensures MaxGen(Recs(hist)) == |hist|
  {
    if hist != [] {
      var init, c := hist[..|hist| - 1], hist[|hist| - 1];
      assert hist == init + [c];
      RecsSnoc(init, c);
      MaxGenSnoc(Recs(init), Record(|hist|, c.delta));
      RecsMaxGen(init);
    }
  }

  lemma LogCleanIsTorn(cfg: Config, log: Option<Bytes>, hist: seq<Commit>)
    requires LogClean(cfg, log, hist)
    ensures LogTorn(cfg, log, hist)
  {
    if log.Some? {
      NoTailIsTorn(cfg.crc);
      assert log.value == LogBytes(cfg.crc, Recs(hist)) + [];
    }
  }

  /** Reading a possibly torn log finds the commits, all of them and nothing else. */
  lemma LogRead(cfg: Config, d: Disk, hist: seq<Commit>)
    requires HistoryFits(hist) && LogTorn(cfg, d.log, hist)
    ensures Scan(cfg.crc, LogContents(d.log), 0).recs == Recs(hist)
    ensures CommittedGen(cfg, d) == |hist|
    ensures LogClean(cfg, Apply(cfg, Truncate(|hist|), d).log, hist)
  {
    hide Scan, CutPoint, LogBytes, EncodeRecord, MaxGen, TornTail, AllFit, Recs;
    RecsMaxGen(hist);
    var tail :| TornTail(cfg.crc, tail) && LogContents(d.log) == LogBytes(cfg.crc, Recs(hist)) + tail by {
      NothingIsTorn(cfg.crc, hist);
    }
    LogScan(cfg.crc, Recs(hist), tail);
    assert LogContents(d.log)[..|LogBytes(cfg.crc, Recs(hist))|] == LogBytes(cfg.crc, Recs(hist));
  }

  lemma NothingIsTorn(crc: Checksum, hist: seq<Commit>)
    ensures TornTail(crc, [])
    ensures hist == [] ==> [] == LogBytes(crc, Recs(hist)) + []
  {
    hide EncodeRecord, TornTail;
    NoTailIsTorn(crc);
  }

  /** A complete append makes the log one commit longer; a torn one leaves the old commits readable. */
  lemma LogAppend(cfg: Config, log: Option<Bytes>, hist: seq<Commit>, c: Commit, k: nat)
    requires HistoryFits(hist) && LogClean(cfg, log, hist) && Storable(hist, c)
    requires k <= |EncodeRecord(cfg.crc, Record(|hist| + 1, c.delta))|
    ensures var e := EncodeRecord(cfg.crc, Record(|hist| + 1, c.delta));
            && HistoryFits(hist + [c])
            && (k == |e| ==> LogClean(cfg, Some(LogContents(log) + e[..k]), hist + [c]))
            && (k < |e| ==> LogTorn(cfg, Some(LogContents(log) + e[..k]), hist))
  {
    var r := Record(|hist| + 1, c.delta);
    var e := EncodeRecord(cfg.crc, r);
    RecsSnoc(hist, c);
    LogBytesSnoc(cfg.crc, Recs(hist), r);
    assert LogContents(log) == LogBytes(cfg.crc, Recs(hist));
    assert e[..|e|] == e;
  }

  // ---------------------------------------------------------------- the slots

  lemma StageKeeps(s: Slot, hist: seq<Commit>, kind: Kind, c: Commit)
    requires Clean(s, hist, kind) && Storable(hist, c)
    ensures Staged(s.(tmp := Some(EncodeOverwrite(|hist| + 1, c.Data(kind)))), hist, kind, c)
  {
    OverwriteRoundTrip(|hist| + 1, c.Data(kind));
  }

  lemma TornStageKeeps(s: Slot, hist: seq<Commit>, kind: Kind, c: Commit, k: nat)
    requires Clean(s, hist, kind) && Storable(hist, c)
    requires k <= |EncodeOverwrite(|hist| + 1, c.Data(kind))|
    ensures Clean(s.(tmp := Some(EncodeOverwrite(|hist| + 1, c.Data(kind))[..k])), hist, kind)
  {
    TornStageHeader(|hist| + 1, c.Data(kind), k);
  }

  lemma CommitMakesUnpromoted(s: Slot, hist: seq<Commit>, kind: Kind, c: Commit)
    requires Staged(s, hist, kind, c)
    ensures Unpromoted(s, hist + [c], kind)
  {
  }

  /** Promoting at the committed generation ends clean, from either recoverable form. */
  lemma PromoteCleans(s: Slot, hist: seq<Commit>, kind: Kind)
    requires HistoryFits(hist) && Recoverable(s, hist, kind)
    ensures Clean(PromoteSlot(s, |hist|), hist, kind)
  {
    if Unpromoted(s, hist, kind) {
      OverwriteRoundTrip(|hist|, Last(hist, kind));
    }
  }

  // ---------------------------------------------------------------- steps keep the invariant

  lemma AdvanceKeeps(cfg: Config, s: State, s': State)
    requires Invariant(cfg, s) && Advance(cfg, s, s')
    ensures Invariant(cfg, s')
  {
    var Checkpointing(gen, c, k) := s.phase;
    if k < APPEND_INDEX {
      var kind := if k == 0 then StateSlot else EofSlot;
      if cfg.Has(kind) {
        StageKeeps(s.disk.Get(kind), s.hist, kind, c);
      }
    } else if k == APPEND_INDEX {
      var e := EncodeRecord(cfg.crc, Record(gen, c.delta));
      LogAppend(cfg, s.disk.log, s.hist, c, |e|);
      assert e[..|e|] == e;
      forall kind | cfg.Has(kind) ensures SlotInvariant(s', kind) {
        assert SlotInvariant(s, kind);
        CommitMakesUnpromoted(s.disk.Get(kind), s.hist, kind, c);
      }
    } else {
      var kind := if k == 3 then StateSlot else EofSlot;
      if cfg.Has(kind) {
        PromoteCleans(s.disk.Get(kind), s.hist, kind);
      }
    }
  }

  lemma AdvanceRecoveryKeeps(cfg: Config, s: State, s': State)
    requires Invariant(cfg, s) && AdvanceRecovery(cfg, s, s')
    ensures Invariant(cfg, s')
  {
    var k := s.phase.next;
    if k == 0 {
      LogRead(cfg, s.disk, s.hist);
    } else {
      var kind := if k == 1 then StateSlot else EofSlot;
      if cfg.Has(kind) {
        PromoteCleans(s.disk.Get(kind), s.hist, kind);
      }
    }
  }

  lemma CrashKeeps(cfg: Config, s: State, s': State)
    requires Invariant(cfg, s) && Crash(cfg, s, s')
    ensures Invariant(cfg, s')
  {
    match s.phase {
      case Idle =>
        LogCleanIsTorn(cfg, s.disk.log, s.hist);
      case Recovering(k) =>
        CrashInRecoveryKeeps(cfg, s, s');
      case Checkpointing(gen, c, k) =>
        if k == APPEND_INDEX {
          CrashInAppendKeeps(cfg, s, s');
        } else {
          CrashInSlotOpKeeps(cfg, s, s');
        }
    }
  }

  lemma CrashInTruncateKeeps(cfg: Config, s: State, s': State)
    requires Invariant(cfg, s) && Crash(cfg, s, s') && s.phase.Recovering? && s.phase.next == 0
    ensures Invariant(cfg, s')
  {
    hide LogTorn, LogClean, Recoverable, Clean, CutPoint;
    LogRead(cfg, s.disk, s.hist);
    if s'.disk != s.disk {
      assert s'.disk == Apply(cfg, Truncate(s.gen), s.disk);
      LogCleanIsTorn(cfg, s'.disk.log, s.hist);
    }
    assert forall kind :: cfg.Has(kind) ==> s'.disk.Get(kind) == s.disk.Get(kind) && SlotInvariant(s, kind);
  }

  lemma CrashInRecoveryKeeps(cfg: Config, s: State, s': State)
    requires Invariant(cfg, s) && Crash(cfg, s, s') && s.phase.Recovering?
    ensures Invariant(cfg, s')
  {
    if s.phase.next == 0 {
      CrashInTruncateKeeps(cfg, s, s');
    } else {
      CrashInPromoteKeeps(cfg, s, s');
    }
  }

  lemma CrashInPromoteKeeps(cfg: Config, s: State, s': State)
    requires Invariant(cfg, s) && Crash(cfg, s, s') && s.phase.Recovering? && s.phase.next > 0
    ensures Invariant(cfg, s')
  {
    hide LogTorn, LogClean, CutPoint;
    LogCleanIsTorn(cfg, s.disk.log, s.hist);
    assert s'.disk.log == s.disk.log;
    forall kind | cfg.Has(kind) ensures SlotInvariant(s', kind) {
      assert SlotInvariant(s, kind);
      PromoteCleans(s.disk.Get(kind), s.hist, kind);
      assert s'.disk.Get(kind) == s.disk.Get(kind) || s'.disk.Get(kind) == PromoteSlot(s.disk.Get(kind), s.gen);
    }
  }

  lemma TornAppend(cfg: Config, d: Disk, hist: seq<Commit>, c: Commit, d': Disk)
    requires HistoryFits(hist) && LogClean(cfg, d.log, hist) && Storable(hist, c)
    requires Torn(cfg, Append(|hist| + 1, c.delta), d, d')
    ensures d' == d.(log := d'.log)
    ensures var hist' := if d' == Apply(cfg, Append(|hist| + 1, c.delta), d) then hist + [c] else hist;
            HistoryFits(hist') && LogTorn(cfg, d'.log, hist')
  {
    var e := EncodeRecord(cfg.crc, Record(|hist| + 1, c.delta));
    assert e[..|e|] == e;
    if d' == d {
      LogCleanIsTorn(cfg, d.log, hist);
    } else {
      var k: nat :| k <= |e| && d' == d.(log := Some(LogContents(d.log) + e[..k]));
      LogAppend(cfg, d.log, hist, c, k);
      if k == |e| {
        LogCleanIsTorn(cfg, d'.log, hist + [c]);
      }
    }
  }

  lemma CrashInAppendKeeps(cfg: Config, s: State, s': State)
    requires Invariant(cfg, s) && Crash(cfg, s, s')
    requires s.phase.Checkpointing? && s.phase.next == APPEND_INDEX
    ensures Invariant(cfg, s')
  {
    var c := s.phase.commit;
    TornAppend(cfg, s.disk, s.hist, c, s'.disk);
    forall kind | cfg.Has(kind) ensures SlotInvariant(s', kind) {
      assert SlotInvariant(s, kind);
      CommitMakesUnpromoted(s.disk.Get(kind), s.hist, kind, c);
    }
  }

  lemma TornStage(cfg: Config, d: Disk, hist: seq<Commit>, kind: Kind, c: Commit, d': Disk)
    requires cfg.Has(kind) && Clean(d.Get(kind), hist, kind) && Storable(hist, c)
    requires Torn(cfg, Stage(kind, |hist| + 1, c.Data(kind)), d, d')
    ensures d' == d.Put(kind, d'.Get(kind)) && Clean(d'.Get(kind), hist, kind)
  {
    var e := EncodeOverwrite(|hist| + 1, c.Data(kind));
    var slot := d.Get(kind);
    if d' != d && d' != d.Put(kind, slot.(tmp := None)) {
      var k: nat :| k <= |e| && d' == d.Put(kind, slot.(tmp := Some(e[..k])));
      TornStageKeeps(slot, hist, kind, c, k);
    }
  }

  lemma CrashInSlotOpKeeps(cfg: Config, s: State, s': State)
    requires Invariant(cfg, s) && Crash(cfg, s, s')
    requires s.phase.Checkpointing? && s.phase.next != APPEND_INDEX
    ensures Invariant(cfg, s')
  {
    var Checkpointing(gen, c, k) := s.phase;
    LogCleanIsTorn(cfg, s.disk.log, s.hist);
    var kind := if k == 0 || k == 3 then StateSlot else EofSlot;
    if cfg.Has(kind) {
      if k < APPEND_INDEX {
        TornStage(cfg, s.disk, s.hist, kind, c, s'.disk);
      } else {
        PromoteCleans(s.disk.Get(kind), s.hist, kind);
      }
    }
  }

  lemma NextKeeps(cfg: Config, s: State, s': State)
    requires Invariant(cfg, s) && Next(cfg, s, s')
    ensures Invariant(cfg, s')
  {
    if Advance(cfg, s, s') {
      AdvanceKeeps(cfg, s, s');
    } else if Crash(cfg, s, s') {
      CrashKeeps(cfg, s, s');
    } else if StartRecovery(cfg, s, s') {
      LogRead(cfg, s.disk, s.hist);
    } else if AdvanceRecovery(cfg, s, s') {
      AdvanceRecoveryKeeps(cfg, s, s');
    }
  }

  lemma NextExtends(cfg: Config, s: State, s': State)
    requires Next(cfg, s, s')
    ensures s.hist <= s'.hist
  {
  }

  lemma {:induction false} ReachableInvariant(cfg: Config, run: seq<State>, i: nat)
    requires IsRun(cfg, run) && i < |run|
    ensures Invariant(cfg, run[i])
  {
    if i > 0 {
      ReachableInvariant(cfg, run, i - 1);
      NextKeeps(cfg, run[i - 1], run[i]);
    }
  }

  /** A commit, once made, is part of every later state: no crash and no recovery takes it back. */
  lemma {:induction false} CommitsSurvive(cfg: Config, run: seq<State>, i: nat, j: nat)
    requires IsRun(cfg, run) && i <= j < |run|
    ensures run[i].hist <= run[j].hist
  {
    if i < j {
      CommitsSurvive(cfg, run, i, j - 1);
      NextExtends(cfg, run[j - 1], run[j]);
    }
  }

  // ---------------------------------------------------------------- atomicity

  function Deltas(hist: seq<Commit>): seq<Bytes> {
    seq(|hist|, i requires 0 <= i < |hist| => hist[i].delta)
  }

  /** The memory a commit history stands for: both snapshots of the last commit, all deltas. */
  function MemoryOf(cfg: Config, hist: seq<Commit>): Memory {
    if hist == [] then Memory(0, None, None, [])
    else Memory(|hist|,
                if cfg.hasState then Some(Last(hist, StateSlot)) else None,
                if cfg.hasEof then Some(Last(hist, EofSlot)) else None,
                Deltas(hist))
  }

  lemma LoadClean(s: Slot, hist: seq<Commit>, kind: Kind)
    requires HistoryFits(hist) && Clean(s, hist, kind)
    ensures LoadSlot(s) == Ok(if hist == [] then None else Some(Last(hist, kind)))
  {
    if hist != [] {
      OverwriteRoundTrip(|hist|, Last(hist, kind));
    }
  }

  lemma RunRecoverOps(cfg: Config, d: Disk, gen: nat)
    ensures RunOps(cfg, RecoverOps(gen), d) ==
            Disk(if cfg.hasState then PromoteSlot(d.state, gen) else d.state,
                 if cfg.hasEof then PromoteSlot(d.eof, gen) else d.eof,
                 Apply(cfg, Truncate(gen), d).log)
  {
    var ops := RecoverOps(gen);
    var d1 := Apply(cfg, ops[0], d);
    var d2 := Apply(cfg, ops[1], d1);
    assert ops[1..] == [ops[1], ops[2]] && [ops[1], ops[2]][1..] == [ops[2]];
    assert RunOps(cfg, ops, d) == RunOps(cfg, [ops[1], ops[2]], d1) == RunOps(cfg, [ops[2]], d2);
    assert RunOps(cfg, [ops[2]], d2) == RunOps(cfg, [], Apply(cfg, ops[2], d2));
  }

  lemma RecoverOpsClean(cfg: Config, d: Disk, hist: seq<Commit>)
    requires HistoryFits(hist) && LogTorn(cfg, d.log, hist)
    requires forall kind :: cfg.Has(kind) ==> Recoverable(d.Get(kind), hist, kind)
    ensures var d' := RunOps(cfg, RecoverOps(|hist|), d);
            && LogClean(cfg, d'.log, hist)
            && forall kind :: cfg.Has(kind) ==> Clean(d'.Get(kind), hist, kind)
  {
    RunRecoverOps(cfg, d, |hist|);
    LogRead(cfg, d, hist);
    var d' := RunOps(cfg, RecoverOps(|hist|), d);
    forall kind | cfg.Has(kind) ensures Clean(d'.Get(kind), hist, kind) {
      PromoteCleans(d.Get(kind), hist, kind);
      assert d'.Get(kind) == PromoteSlot(d.Get(kind), |hist|);
    }
  }

  /** Recovering from a crashed disk gives exactly the committed memory, never an error. */
  lemma RecoverGivesCommitted(cfg: Config, d: Disk, hist: seq<Commit>)
    requires HistoryFits(hist) && LogTorn(cfg, d.log, hist)
    requires forall kind :: cfg.Has(kind) ==> Recoverable(d.Get(kind), hist, kind)
    ensures Recover(cfg, d).Ok? && Recover(cfg, d).value.0 == MemoryOf(cfg, hist)
  {
    if d.log.Some? {
      LogRead(cfg, d, hist);
      RecoverOpsClean(cfg, d, hist);
      var d' := RunOps(cfg, RecoverOps(|hist|), d);
      assert Payloads(Recs(hist)) == Deltas(hist);
      forall kind | cfg.Has(kind)
        ensures LoadSlot(d'.Get(kind)) == Ok(if hist == [] then None else Some(Last(hist, kind)))
      {
        LoadClean(d'.Get(kind), hist, kind);
      }
      assert cfg.Has(StateSlot) ==> LoadSlot(d'.Get(StateSlot)) == LoadSlot(d'.state);
      assert cfg.Has(EofSlot) ==> LoadSlot(d'.Get(EofSlot)) == LoadSlot(d'.eof);
    }
  }

  /** The same, for a process that is down or at rest. */
  lemma RecoverAtRest(cfg: Config, s: State)
    requires Invariant(cfg, s) && (s.phase.Down? || s.phase.Idle?)
    ensures Recover(cfg, s.disk).Ok? && Recover(cfg, s.disk).value.0 == MemoryOf(cfg, s.hist)
  {
    if s.phase.Idle? {
      LogCleanIsTorn(cfg, s.disk.log, s.hist);
    }
    assert forall kind :: cfg.Has(kind) ==> SlotInvariant(s, kind);
    RecoverGivesCommitted(cfg, s.disk, s.hist);
  }

  /** Checkpoint atomicity. Stop any run anywhere, also inside recovery, and recover: state, eof and
      the replayed log are those of one and the same commit, the last one whose append was complete. */
  lemma CheckpointAtomicity(cfg: Config, run: seq<State>, i: nat, crashed: State)
    requires IsRun(cfg, run) && i < |run|
    requires Crash(cfg, run[i], crashed) || (run[i].phase.Down? && crashed == run[i])
    ensures run[i].hist <= crashed.hist
    ensures Recover(cfg, crashed.disk).Ok? && Recover(cfg, crashed.disk).value.0 == MemoryOf(cfg, crashed.hist)
    ensures CommittedGen(cfg, crashed.disk) == |crashed.hist|
  {
    ReachableInvariant(cfg, run, i);
    if Crash(cfg, run[i], crashed) {
      NextKeeps(cfg, run[i], crashed);
      NextExtends(cfg, run[i], crashed);
    }
    LogRead(cfg, crashed.disk, crashed.hist);
    RecoverAtRest(cfg, crashed);
  }

  // ---------------------------------------------------------------- undisturbed runs

  ghost predicate Steps(cfg: Config, run: seq<State>) {
    |run| > 0 && forall i :: 0 <= i < |run| - 1 ==> Next(cfg, run[i], run[i + 1])
  }

  ghost predicate Reaches(cfg: Config, s: State, s': State) {
    exists run :: Steps(cfg, run) && run[0] == s && run[|run| - 1] == s'
  }

  lemma ReachesBack(cfg: Config, s: State, t: State, s': State)
    requires Next(cfg, s, t) && Reaches(cfg, t, s')
    ensures Reaches(cfg, s, s')
  {
    hide Next;
    var run :| Steps(cfg, run) && run[0] == t && run[|run| - 1] == s';
    var longer := [s] + run;
    forall i | 0 <= i < |longer| - 1 ensures Next(cfg, longer[i], longer[i + 1]) {
      if i > 0 {
        assert Next(cfg, run[i - 1], run[i]);
      }
    }
    assert Steps(cfg, longer);
  }

  lemma ReachesSelf(cfg: Config, s: State)
    ensures Reaches(cfg, s, s)
  {
    assert Steps(cfg, [s]);
  }

  lemma AdvanceToEnd(cfg: Config, s: State, k: nat)
    requires s.phase.Checkpointing? && s.phase.next == k < CHECKPOINT_LENGTH
    ensures var Checkpointing(gen, c, _) := s.phase;
            Reaches(cfg, s, State(RunOps(cfg, CheckpointOps(gen, c)[k..], s.disk), Idle,
                                  if k <= APPEND_INDEX then gen else s.gen,
                                  if k <= APPEND_INDEX then s.hist + [c] else s.hist))
    decreases CHECKPOINT_LENGTH - k
  {
    var Checkpointing(gen, c, _) := s.phase;
    var ops := CheckpointOps(gen, c);
    var t := State(Apply(cfg, ops[k], s.disk),
                   if k + 1 == CHECKPOINT_LENGTH then Idle else Checkpointing(gen, c, k + 1),
                   if k == APPEND_INDEX then gen else s.gen,
                   if k == APPEND_INDEX then s.hist + [c] else s.hist);
    assert Advance(cfg, s, t);
    hide Apply, Advance, Next, Reaches;
    assert ops[k..][1..] == ops[k + 1..] && ops[k..][0] == ops[k];
    assert RunOps(cfg, ops[k..], s.disk) == RunOps(cfg, ops[k + 1..], t.disk);
    if k + 1 < CHECKPOINT_LENGTH {
      AdvanceToEnd(cfg, t, k + 1);
    } else {
      assert ops[k + 1..] == [];
      ReachesSelf(cfg, t);
    }
    assert Next(cfg, s, t) by {
      AdvanceIsNext(cfg, s, t);
    }
    ReachesBack(cfg, s, t, State(RunOps(cfg, ops[k..], s.disk), Idle,
                                 if k <= APPEND_INDEX then gen else s.gen,
                                 if k <= APPEND_INDEX then s.hist + [c] else s.hist));
  }

  lemma AdvanceIsNext(cfg: Config, s: State, s': State)
    requires Advance(cfg, s, s')
    ensures Next(cfg, s, s')
  {
  }

  /** An undisturbed checkpoint: the step system and the operation list agree on where it ends. */
  lemma WholeCheckpoint(cfg: Config, s: State, c: Commit)
    requires s.phase.Idle? && Storable(s.hist, c)
    ensures Reaches(cfg, s, State(RunOps(cfg, CheckpointOps(s.gen + 1, c), s.disk), Idle, s.gen + 1, s.hist + [c]))
  {
    var t := s.(phase := Checkpointing(s.gen + 1, c, 0));
    AdvanceToEnd(cfg, t, 0);
    assert CheckpointOps(s.gen + 1, c)[0..] == CheckpointOps(s.gen + 1, c);
    assert Begin(s, c, t);
    assert Next(cfg, s, t) by {
      hide Begin, Advance, Crash, StartRecovery, AdvanceRecovery;
    }
    hide Apply, RunOps, Reaches, Next;
    ReachesBack(cfg, s, t, State(RunOps(cfg, CheckpointOps(s.gen + 1, c), s.disk), Idle, s.gen + 1, s.hist + [c]));
  }

  lemma RecoverToEnd(cfg: Config, s: State, k: nat)
    requires s.phase.Recovering? && s.phase.next == k < RECOVER_LENGTH
    ensures Reaches(cfg, s, s.(phase := Idle, disk := RunOps(cfg, RecoverOps(s.gen)[k..], s.disk)))
    decreases RECOVER_LENGTH - k
  {
    var ops := RecoverOps(s.gen);
    var t := s.(disk := Apply(cfg, ops[k], s.disk),
                phase := if k + 1 == RECOVER_LENGTH then Idle else Recovering(k + 1));
    assert AdvanceRecovery(cfg, s, t);
    assert Next(cfg, s, t) by {
      hide Apply, Begin, Advance, Crash, StartRecovery;
    }
    hide Apply, AdvanceRecovery, Next, Reaches;
    assert ops[k..][1..] == ops[k + 1..] && ops[k..][0] == ops[k];
    assert RunOps(cfg, ops[k..], s.disk) == RunOps(cfg, ops[k + 1..], t.disk);
    if k + 1 < RECOVER_LENGTH {
      RecoverToEnd(cfg, t, k + 1);
    } else {
      assert ops[k + 1..] == [];
      ReachesSelf(cfg, t);
    }
    ReachesBack(cfg, s, t, s.(phase := Idle, disk := RunOps(cfg, ops[k..], s.disk)));
  }

  /** An undisturbed recovery: the step system and Recover agree on the disk it leaves. */
  lemma WholeRecovery(cfg: Config, s: State)
    requires s.phase.Down? && Recover(cfg, s.disk).Ok?
    ensures Reaches(cfg, s, s.(phase := Idle, gen := Recover(cfg, s.disk).value.0.gen,
            disk := Recover(cfg, s.disk).value.1))
  {
    var t := s.(phase := if s.disk.log.None? then Idle else Recovering(0), gen := CommittedGen(cfg, s.disk));
    assert StartRecovery(cfg, s, t);
    assert Next(cfg, s, t) by {
      hide CommittedGen, Begin, Advance, Crash, AdvanceRecovery;
    }
    if s.disk.log.None? {
      NoTailIsTorn(cfg.crc);
      LogScan(cfg.crc, [], []);
      ReachesSelf(cfg, t);
    } else {
      RecoverToEnd(cfg, t, 0);
      assert RecoverOps(t.gen)[0..] == RecoverOps(t.gen);
    }
    var d := Recover(cfg, s.disk).value.1;
    assert Reaches(cfg, t, t.(phase := Idle, disk := d));
    hide Recover, Next, Reaches, CommittedGen;
    ReachesBack(cfg, s, t, t.(phase := Idle, disk := d));
  }
}
