// How often one SyncEof may ask for amounts and flush, and conservation of the counts
// under the nil key.
module EofRounds {
  import opened Bytes
  import opened Dedup
  import opened Sums
  import opened EofControl
  import opened EofBarrier
  import opened Coordinators

  // ---------------------------------------------------------------- bounded rounds

  function Leading(node: Node): bool {
    node.member.Some? && node.member.value.leader
  }

  ghost predicate TermBounds(stage: Stage, t: Term) {
    && t.flushes <= 1 && (stage.maxRetries > 0 ==> t.rounds <= stage.maxRetries + 1)
    && (t.fired == [] || t.fired == [t.ack])
  }

  /** A leadership that is still on: it has asked once more than it retried, not flushed, and its EOF is not
      acknowledged. */
  ghost predicate Ongoing(stage: Stage, n: nat, m: Member, t: Term) {
    && t == Term(n, m.retries + 1, 0, t.ack, []) && m.ack == Some(t.ack)
    && (stage.maxRetries > 0 ==> m.retries <= stage.maxRetries)
  }

  ghost predicate TermInvariant(stage: Stage, s: State) {
    && (forall t <- s.terms :: TermBounds(stage, t))
    && (forall n <- s.nodes :: Leading(s.nodes[n]) ==>
          s.nodes[n].term < |s.terms| && Ongoing(stage, n, s.nodes[n].member.value, s.terms[s.nodes[n].term]))
    && (forall n <- s.nodes, k <- s.nodes ::
          n != k && Leading(s.nodes[n]) && Leading(s.nodes[k]) ==> s.nodes[n].term != s.nodes[k].term)
  }

  lemma {:induction false} CountAppend(a: seq<Effect>, b: seq<Effect>, p: Effect -> bool)
    ensures Count(a + b, p) == Count(a, p) + Count(b, p)
  {
    if a == [] {
      assert a + b == b;
    } else {
      assert (a + b)[1..] == a[1..] + b;
      CountAppend(a[1..], b, p);
    }
  }

  /** The lists of effects a control message can have, and what they count. */
  lemma CountShapes(a: Effect, b: Effect, ack: Option<AckTag>)
    ensures Rounds([a, b] + FireIf(ack)) == Asks(a) + Asks(b) && Flushes([a, b] + FireIf(ack)) == Emits(a) + Emits(b)
    ensures Rounds([a] + FireIf(ack)) == Asks(a) && Flushes([a] + FireIf(ack)) == Emits(a)
    ensures Rounds([a]) == Asks(a) && Flushes([a]) == Emits(a)
    ensures Rounds(FireIf(ack)) == Flushes(FireIf(ack)) == Rounds([]) == Flushes([]) == 0
  {
    var asks := (e: Effect) => e.Send? && e.msg.AmountRequest?;
    var emits := (e: Effect) => e.LeaderFlush?;
    CountShape(a, b, ack, asks);
    CountShape(a, b, ack, emits);
  }

  function Asks(e: Effect): nat {
    if e.Send? && e.msg.AmountRequest? then 1 else 0
  }

  function Emits(e: Effect): nat {
    if e.LeaderFlush? then 1 else 0
  }

  lemma CountShape(a: Effect, b: Effect, ack: Option<AckTag>, p: Effect -> bool)
    requires ack.Some? ==> !p(FireAck(ack.value))
    ensures Count([a, b] + FireIf(ack), p) == (if p(a) then 1 else 0) + (if p(b) then 1 else 0)
    ensures Count([a] + FireIf(ack), p) == Count([a], p) == if p(a) then 1 else 0
    ensures Count(FireIf(ack), p) == Count([], p) == 0
  {
    var cleanup := FireIf(ack);
    assert cleanup == [] || cleanup[1..] == [];
    CountAppend([a, b], cleanup, p);
    CountAppend([a], cleanup, p);
    assert [a, b][1..] == [b] && [b][1..] == [] && [a][1..] == [];
    assert Count([b], p) == (if p(b) then 1 else 0) + Count([], p);
  }

  /** The new state and the counts of a leader's message. */
  ghost predicate TermStep(stage: Stage, m: Member, m': Option<Member>, out: seq<Effect>) {
    || (m'.None? && Rounds(out) == 0 && Flushes(out) <= 1)
    || (m'.Some? && m'.value.leader && Flushes(out) == 0 && m'.value.retries == m.retries + Rounds(out)
        && (stage.maxRetries > 0 ==> m.retries <= stage.maxRetries ==> m'.value.retries <= stage.maxRetries))
  }

  lemma DecidedTermStep(stage: Stage, cfg: Settings, m: Member, m': Option<Member>, out: seq<Effect>)
    requires Checked(cfg, m, m', out) && m.leader && cfg.maxRetries == stage.maxRetries
    ensures TermStep(stage, m, m', out)
  {
    hide Rounds, Flushes, IsUnion, IsSentUnion, Totals, ReceivedParts, NoneReceived;
    var received: map<MsgId, nat>, sent: map<Key, map<MsgId, nat>> :|
      IsUnion(ReceivedParts(m.infos), received) && IsSentUnion(m.infos, sent)
          && Decided(cfg, m, received, sent, m', out);
    CountShapes(LeaderFlush(Totals(sent)), Send(Flush(cfg.self)), m.ack);
    CountShapes(Send(RetryExceeded), OnRetryExceeded, m.ack);
    CountShapes(Send(AmountRequest(cfg.self)), OnFlush, m.ack);
  }

  lemma HandledTermStep(stage: Stage, cfg: Settings, m: Option<Member>, msg: Control, m': Option<Member>,
                        out: seq<Effect>)
    requires Handled(cfg, m, msg, m', out) && cfg.maxRetries == stage.maxRetries
    ensures m.None? || !m.value.leader ==> Flushes(out) == 0 && (m'.None? || !m'.value.leader)
    ensures m.Some? && m.value.leader ==> TermStep(stage, m.value, m', out)
  {
    hide Rounds, Flushes, Checked;
    var ack := if m.Some? && m.value.leader then m.value.ack else None;
    match msg {
      case AmountRequest(requester) => CountShapes(Send(AmountResponse(requester, cfg.self, Known(m).tally)), OnFlush,
          ack);
      case AmountResponse(_, sender, tally) =>
        CountShapes(OnFlush, OnFlush, ack);
        if m.Some? && m.value.leader {
          var heard := m.value.(infos := m.value.infos[sender := tally]);
          if |heard.infos| == cfg.nodes {
            DecidedTermStep(stage, cfg, heard, m', out);
          }
        }
      case Flush(_) => CountShapes(OnFlush, OnFlush, ack);
      case RetryExceeded => CountShapes(OnRetryExceeded, OnFlush, ack);
    }
  }

  /** While it leads, a replica holds the ack it was led with. */
  lemma HandledHolds(cfg: Settings, m: Option<Member>, msg: Control, m': Option<Member>, out: seq<Effect>)
    requires Handled(cfg, m, msg, m', out)
    ensures m'.Some? && m.Some? ==> m'.value.ack == m.value.ack && m'.value.leader == m.value.leader
  {
    hide IsUnion, IsSentUnion, ReceivedParts, NoneReceived, Totals;
  }

  lemma TermsUntouched(stage: Stage, s: State, n: nat, s': State)
    requires TermInvariant(stage, s) && n in s'.nodes && s'.nodes == s.nodes[n := s'.nodes[n]] && s'.terms == s.terms
    requires Leading(s'.nodes[n]) ==>
               && n in s.nodes && Leading(s.nodes[n]) && s'.nodes[n].term == s.nodes[n].term
               && s'.nodes[n].member.value.retries == s.nodes[n].member.value.retries
               && s'.nodes[n].member.value.ack == s.nodes[n].member.value.ack
    ensures TermInvariant(stage, s')
  {
  }

  lemma DeliverTerms(stage: Stage, s: State, n: nat, msg: Control, m': Option<Member>, out: seq<Effect>, s': State)
    requires TermInvariant(stage, s) && Deliver(stage, s, n, msg, m', out, s')
    ensures TermInvariant(stage, s')
  {
    hide Handled, Sends, Emissions, Rounds, Flushes;
    HandledTermStep(stage, SettingsOf(stage, s, n), s.nodes[n].member, msg, m', out);
    HandledAcks(SettingsOf(stage, s, n), s.nodes[n].member, msg, m', out);
    HandledHolds(SettingsOf(stage, s, n), s.nodes[n].member, msg, m', out);
    hide AcksIn;
    if !Leading(s.nodes[n]) {
      TermsUntouched(stage, s, n, s');
    } else if m'.None? {
      TermEnds(stage, s, n, s');
    } else {
      TermGoesOn(stage, s, n, s');
    }
  }

  /** A leadership that goes on, perhaps with one more amount round. */
  lemma TermGoesOn(stage: Stage, s: State, n: nat, s': State)
    requires TermInvariant(stage, s) && n in s.nodes && Leading(s.nodes[n]) && n in s'.nodes && Leading(s'.nodes[n])
    requires s'.nodes == s.nodes[n := s'.nodes[n]] && |s'.terms| == |s.terms|
    requires s.nodes[n].term == s'.nodes[n].term < |s.terms|
    requires s'.terms == s.terms[s.nodes[n].term := s'.terms[s.nodes[n].term]]
    requires Ongoing(stage, n, s'.nodes[n].member.value, s'.terms[s.nodes[n].term])
    ensures TermInvariant(stage, s')
  {
    assert TermBounds(stage, s'.terms[s.nodes[n].term]);
    hide Ongoing, TermBounds;
    forall t <- s'.terms ensures TermBounds(stage, t) {
      var i :| 0 <= i < |s'.terms| && s'.terms[i] == t;
      assert i != s.nodes[n].term ==> s'.terms[i] == s.terms[i];
    }
  }

  lemma SyncTerms(stage: Stage, s: State, n: nat, counts: map<Key, int>, ack: AckTag, m': Option<Member>,
                  out: seq<Effect>, s': State)
    requires TermInvariant(stage, s) && Sync(stage, s, n, counts, ack, m', out, s')
    ensures TermInvariant(stage, s')
  {
    hide Sends, Rounds, Flushes, EofControl.Expected, AcksIn, CleanupEffects, FireIf;
    SyncedAcks(SettingsOf(stage, s, n), s.nodes[n].member, Some(counts), stage.key, Some(ack), m', out);
    if m'.Some? {
      CountShapes(Send(AmountRequest(n)), OnFlush, None);
      assert out == [Send(AmountRequest(n))];
      assert Term(n, 0, 0, ack, []).With(out) == Term(n, 1, 0, ack, []);
      TermBegins(stage, s, n, ack, s');
    } else if Leading(s.nodes[n]) {
      hide TermBounds, Ongoing;
      TermAcked(stage, s, n, s');
    } else {
      TermsUntouched(stage, s, n, s');
    }
  }

  lemma TermAcked(stage: Stage, s: State, n: nat, s': State)
    requires TermInvariant(stage, s) && n in s.nodes && Leading(s.nodes[n]) && n in s'.nodes && !Leading(s'.nodes[n])
    requires s'.nodes == s.nodes[n := s'.nodes[n]] && |s'.terms| == |s.terms|
    requires s.nodes[n].term < |s.terms| ==>
               s'.terms == s.terms[s.nodes[n].term := s.terms[s.nodes[n].term].(
                             fired := s.terms[s.nodes[n].term].fired + HeldAck(s.nodes[n].member))]
    ensures TermInvariant(stage, s')
  {
    TermEnds(stage, s, n, s');
  }

  /** A leadership that begins. */
  lemma TermBegins(stage: Stage, s: State, n: nat, ack: AckTag, s': State)
    requires TermInvariant(stage, s) && n in s.nodes && n in s'.nodes && s'.nodes == s.nodes[n := s'.nodes[n]]
    requires s'.nodes[n].term == |s.terms| && s'.terms == s.terms + [Term(n, 1, 0, ack, [])]
    requires s'.nodes[n].member.Some? && s'.nodes[n].member.value.retries == 0
             && s'.nodes[n].member.value.ack == Some(ack)
    ensures TermInvariant(stage, s')
  {
    forall t <- s'.terms ensures TermBounds(stage, t) {
      assert t in s.terms || t == Term(n, 1, 0, ack, []);
    }
  }

  /** A leadership that ends within bounds. */
  lemma TermEnds(stage: Stage, s: State, n: nat, s': State)
    requires TermInvariant(stage, s) && n in s.nodes && Leading(s.nodes[n]) && n in s'.nodes && !Leading(s'.nodes[n])
    requires s.nodes[n].term < |s.terms|
    requires s'.nodes == s.nodes[n := s'.nodes[n]] && |s'.terms| == |s.terms|
    requires s'.terms == s.terms[s.nodes[n].term := s'.terms[s.nodes[n].term]]
    requires TermBounds(stage, s'.terms[s.nodes[n].term])
    ensures TermInvariant(stage, s')
  {
    hide TermBounds;
    forall t <- s'.terms ensures TermBounds(stage, t) {
      var i :| 0 <= i < |s'.terms| && s'.terms[i] == t;
      assert i != s.nodes[n].term ==> s'.terms[i] == s.terms[i];
    }
  }

  lemma NextTerms(stage: Stage, s: State, s': State)
    requires TermInvariant(stage, s) && Next(stage, s, s')
    ensures TermInvariant(stage, s')
  {
    if n, counts, ack, m', out :| Sync(stage, s, n, counts, ack, m', out, s') {
      hide *;
      SyncTerms(stage, s, n, counts, ack, m', out, s');
    } else if n, msg, m', out :| Deliver(stage, s, n, msg, m', out, s') {
      hide *;
      DeliverTerms(stage, s, n, msg, m', out, s');
    } else {
      OtherTerms(stage, s, s');
    }
  }

  lemma OtherTerms(stage: Stage, s: State, s': State)
    requires TermInvariant(stage, s) && Next(stage, s, s')
    requires forall n, counts, ack, m', out :: !Sync(stage, s, n, counts, ack, m', out, s')
    requires forall n, msg, m', out :: !Deliver(stage, s, n, msg, m', out, s')
    ensures TermInvariant(stage, s')
  {
    hide TermInvariant, Sync, Deliver;
    if n, b :| Take(stage, s, n, b, s') {
      TermsUntouched(stage, s, n, s');
    } else if n, o :| Publish(stage, s, n, o, s') {
      assert s'.nodes == s.nodes[n := s'.nodes[n]];
      TermsUntouched(stage, s, n, s');
    } else if n, o :| RecordSent(stage, s, n, o, s') {
      TermsUntouched(stage, s, n, s');
    } else if n :| RecordReceived(stage, s, n, s') {
      TermsUntouched(stage, s, n, s');
    } else if n :| SaveSnapshot(s, n, s') {
      TermsUntouched(stage, s, n, s');
    } else if n :| Crash(s, n, s') {
      TermsUntouched(stage, s, n, s');
    }
  }

  /** In every run, each SyncEof that took the lead leads to at most one flush by the leader, with a retry limit
      to at most one more amount round than the limit, and to at most one ack, of its own EOF. */
  lemma {:induction false} RoundsAreBounded(stage: Stage, run: seq<State>, i: nat)
    requires IsRun(stage, run) && i < |run|
    ensures TermInvariant(stage, run[i])
    ensures forall t <- run[i].terms ::
              && t.flushes <= 1 && (stage.maxRetries > 0 ==> t.rounds <= stage.maxRetries + 1)
              && (t.fired == [] || t.fired == [t.ack])
  {
    if i > 0 {
      RoundsAreBounded(stage, run, i - 1);
      hide Next, TermInvariant;
      NextTerms(stage, run[i - 1], run[i]);
    }
    TermsWithin(stage, run[i]);
  }

  lemma TermsWithin(stage: Stage, s: State)
    requires TermInvariant(stage, s) || Init(s)
    ensures TermInvariant(stage, s)
    ensures forall t <- s.terms ::
              && t.flushes <= 1 && (stage.maxRetries > 0 ==> t.rounds <= stage.maxRetries + 1)
              && (t.fired == [] || t.fired == [t.ack])
  {
  }

  /** A step of the leadership's own replica, or of another one. */
  ghost predicate AcksWell(s: State, n: nat, s': State)
    requires n in s.nodes && s.nodes[n].term < |s.terms|
  {
    var k := s.nodes[n].term;
    && n in s'.nodes && k < |s'.terms| && s.terms[k].fired == []
    && s'.terms[k].fired == if s'.nodes[n].member.None? then [s.terms[k].ack] else []
  }

  lemma DeliverAcks(stage: Stage, s: State, k: nat, msg: Control, m': Option<Member>, out: seq<Effect>,
                    s': State, n: nat)
    requires TermInvariant(stage, s) && Deliver(stage, s, k, msg, m', out, s') && n in s.nodes && Leading(s.nodes[n])
    ensures AcksWell(s, n, s')
  {
    hide Handled, Sends, Emissions, Rounds, Flushes, AcksIn;
    HandledAcks(SettingsOf(stage, s, k), s.nodes[k].member, msg, m', out);
  }

  lemma SyncAcks(stage: Stage, s: State, k: nat, counts: map<Key, int>, ack: AckTag, m': Option<Member>,
                 out: seq<Effect>, s': State, n: nat)
    requires TermInvariant(stage, s) && Sync(stage, s, k, counts, ack, m', out, s') && n in s.nodes
    requires Leading(s.nodes[n])
    ensures AcksWell(s, n, s')
  {
    hide Sends, Rounds, Flushes, AcksIn, CleanupEffects, FireIf, EofControl.Expected;
    SyncedAcks(SettingsOf(stage, s, k), s.nodes[k].member, Some(counts), stage.key, Some(ack), m', out);
  }

  /** A leadership's EOF is acknowledged in just the step in which its live replica forgets the client: not
      before, not if it crashes first, and not if another EOF takes its place. */
  lemma AckedWhenForgotten(stage: Stage, run: seq<State>, i: nat, n: nat)
    requires IsRun(stage, run) && i + 1 < |run| && n in run[i].nodes && Leading(run[i].nodes[n])
    ensures run[i].nodes[n].term < |run[i].terms|
    ensures AcksWell(run[i], n, run[i + 1]) || (Crash(run[i], n, run[i + 1]) && run[i + 1].terms == run[i].terms)
  {
    RoundsAreBounded(stage, run, i);
    hide IsRun;
    var s, s' := run[i], run[i + 1];
    assert Next(stage, s, s') by {
      StepAt(stage, run, i);
    }
    if k, counts, ack, m', out :| Sync(stage, s, k, counts, ack, m', out, s') {
      hide *;
      SyncAcks(stage, s, k, counts, ack, m', out, s', n);
    } else if k, msg, m', out :| Deliver(stage, s, k, msg, m', out, s') {
      hide *;
      DeliverAcks(stage, s, k, msg, m', out, s', n);
    }
  }

  lemma StepAt(stage: Stage, run: seq<State>, i: nat)
    requires IsRun(stage, run) && i + 1 < |run|
    ensures Next(stage, run[i], run[i + 1])
  {
    hide Next;
  }

  // ---------------------------------------------------------------- order independence and conservation

  ghost predicate Agreeing(parts: set<map<MsgId, nat>>) {
    forall p <- parts, q <- parts, id <- p :: id in q ==> p[id] == q[id]
  }

  lemma UnionEntry(parts: set<map<MsgId, nat>>, u: map<MsgId, nat>, v: map<MsgId, nat>, id: MsgId)
    requires Agreeing(parts) && IsUnion(parts, u) && IsUnion(parts, v) && id in u
    ensures id in v && v[id] == u[id]
  {
    var p :| p in parts && id in p && p[id] == u[id];
    var q :| q in parts && id in q && q[id] == v[id];
  }

  /** Reports that agree on every id have one union, in whatever order they are merged. */
  lemma UnionUnique(parts: set<map<MsgId, nat>>, u: map<MsgId, nat>, v: map<MsgId, nat>)
    requires Agreeing(parts) && IsUnion(parts, u) && IsUnion(parts, v)
    ensures u == v
  {
    hide Agreeing, IsUnion;
    forall id <- u ensures id in v && v[id] == u[id] {
      UnionEntry(parts, u, v, id);
    }
    forall id <- v ensures id in u {
      UnionEntry(parts, v, u, id);
    }
  }

  function CountsIn(work: Work, keys: set<Key>): map<MsgId, nat> {
    map o <- work.outs | work.outs[o].key in keys :: work.outs[o].count
  }

  lemma CountsSplit(work: Work, keys: set<Key>, key: Key)
    requires key in keys
    ensures Sum(CountsIn(work, keys)) == Sum(CountsIn(work, {key})) + Sum(CountsIn(work, keys - {key}))
  {
    hide Sum;
    SumDisjoint(CountsIn(work, {key}), CountsIn(work, keys - {key}));
    assert CountsIn(work, {key}) + CountsIn(work, keys - {key}) == CountsIn(work, keys);
  }

  ghost function TotalsOf(work: Work, keys: set<Key>): map<Key, nat> {
    map key <- keys :: Sum(CountsIn(work, {key}))
  }

  lemma {:induction false} KeysPartition(work: Work, keys: set<Key>)
    ensures Sum(CountsIn(work, keys)) == Sum(TotalsOf(work, keys))
    decreases keys
  {
    if keys == {} {
      assert CountsIn(work, keys) == map[] && TotalsOf(work, keys) == map[];
    } else {
      hide Sum, CountsIn;
      var key :| key in keys;
      KeysPartition(work, keys - {key});
      CountsSplit(work, keys, key);
      SumRemove(TotalsOf(work, keys), key);
      assert TotalsOf(work, keys) - {key} == TotalsOf(work, keys - {key});
    }
  }

  ghost function TotalsOn(work: Work): map<Key, nat> {
    map key <- KeysUsed(work) :: Sum(OnKey(work, key))
  }

  /** The nil key's total is the sum over all other keys, plus what was sent with no key. */
  lemma ExactConservation(work: Work)
    requires work.outs != map[]
    ensures KEY_NIL in TotalsOn(work)
    ensures TotalsOn(work)[KEY_NIL] == Sum(TotalsOn(work) - {KEY_NIL}) + Sum(CountsIn(work, {KEY_NIL}))
  {
    hide Sum;
    var keys := KeysUsed(work);
    KeysPartition(work, keys);
    assert CountsIn(work, keys) == OnKey(work, KEY_NIL);
    SumRemove(TotalsOf(work, keys), KEY_NIL);
    forall key <- keys - {KEY_NIL} ensures CountsIn(work, {key}) == OnKey(work, key) {
    }
    hide CountsIn, OnKey, KeysUsed;
    assert TotalsOf(work, keys) - {KEY_NIL} == TotalsOn(work) - {KEY_NIL};
  }

  /** The outputs that some report counts. */
  function Reported(work: Work, u: map<Key, map<MsgId, nat>>): Work {
    work.(outs := map o <- work.outs | KEY_NIL in u && o in u[KEY_NIL] :: work.outs[o])
  }

  /** An output counted by some right report under one of its keys is counted under both. */
  lemma PairedInUnion(work: Work, published: set<MsgId>, infos: map<nat, Tally>, u: map<Key, map<MsgId, nat>>,
                      key: Key, o: MsgId)
    requires (forall n <- infos :: Right(work, published, infos[n])) && IsSentUnion(infos, u)
    requires key in u && o in u[key]
    ensures o in work.outs && (key == KEY_NIL || key == work.outs[o].key) && u[key][o] == work.outs[o].count
    ensures KEY_NIL in u && o in u[KEY_NIL] && work.outs[o].key in u && o in u[work.outs[o].key]
  {
    hide IsSentUnion;
    var n := SentFrom(infos, u, key, o);
    var t := infos[n];
    assert Right(work, published, t) && o in t.sent[key];
    assert o in t.SentOn(KEY_NIL) && o in t.SentOn(work.outs[o].key);
    SentReported(infos, u, n, KEY_NIL, o);
    SentReported(infos, u, n, work.outs[o].key, o);
  }

  lemma UnionNonEmpty(work: Work, published: set<MsgId>, infos: map<nat, Tally>, u: map<Key, map<MsgId, nat>>, key: Key)
    requires (forall n <- infos :: Right(work, published, infos[n])) && IsSentUnion(infos, u) && key in u
    ensures u[key] != map[]
  {
    hide IsSentUnion;
    var n := KeyFrom(infos, u, key);
    assert Right(work, published, infos[n]);
    var o :| o in infos[n].sent[key];
    SentReported(infos, u, n, key, o);
  }

  lemma UnionIsReported(work: Work, published: set<MsgId>, infos: map<nat, Tally>, u: map<Key, map<MsgId, nat>>,
                        key: Key)
    requires (forall n <- infos :: Right(work, published, infos[n])) && IsSentUnion(infos, u)
    ensures key in u <==> key in KeysUsed(Reported(work, u))
    ensures key in u ==> u[key] == OnKey(Reported(work, u), key)
  {
    hide Right, IsSentUnion;
    var part := Reported(work, u);
    if key in u {
      forall o <- u[key] ensures o in OnKey(part, key) && OnKey(part, key)[o] == u[key][o] {
        PairedInUnion(work, published, infos, u, key, o);
      }
      UnionNonEmpty(work, published, infos, u, key);
      var o :| o in u[key];
      OnKeyUsed(part, key, o);
    }
    forall o <- OnKey(part, key) ensures key in u && o in u[key] {
      PairedInUnion(work, published, infos, u, KEY_NIL, o);
    }
    if key in KeysUsed(part) {
      KeyHasOutput(part, key);
    }
  }

  /** Whatever the replicas report, in whatever order it is merged: the merged total of the nil key is the sum
      of the totals of all other keys, plus what was sent with no key. */
  lemma NilKeyConservation(work: Work, published: set<MsgId>, infos: map<nat, Tally>, u: map<Key, map<MsgId, nat>>)
    requires (forall n <- infos :: Right(work, published, infos[n])) && IsSentUnion(infos, u) && u != map[]
    ensures KEY_NIL in u
    ensures var others: map<Key, nat> := map key <- u.Keys - {KEY_NIL} :: Sum(u[key]);
            Totals(u)[KEY_NIL] == Sum(others) + Sum(CountsIn(Reported(work, u), {KEY_NIL}))
  {
    hide Right, IsSentUnion, Sum, KeysUsed, OnKey, CountsIn, Reported;
    var part := Reported(work, u);
    forall key ensures key in u <==> key in KeysUsed(part)
      ensures key in u ==> u[key] == OnKey(part, key)
    {
      UnionIsReported(work, published, infos, u, key);
    }
    var key :| key in u;
    KeyHasOutput(part, key);
    var o :| o in OnKey(part, key);
    SomeOutput(part, key, o);
    ExactConservation(part);
    SameTotals(part, u);
  }

  lemma SameTotals(work: Work, u: map<Key, map<MsgId, nat>>)
    requires u.Keys == KeysUsed(work) && forall key <- u :: u[key] == OnKey(work, key)
    ensures var others: map<Key, nat> := map key <- u.Keys - {KEY_NIL} :: Sum(u[key]);
            TotalsOn(work) - {KEY_NIL} == others
    ensures KEY_NIL in u ==> Totals(u)[KEY_NIL] == TotalsOn(work)[KEY_NIL]
  {
    hide Sum, KeysUsed, OnKey;
  }

  lemma SomeOutput(work: Work, key: Key, o: MsgId)
    requires o in OnKey(work, key)
    ensures work.outs != map[]
  {
  }

  /** So for workers that send with keys only, it is the sum of the others. */
  lemma KeyedConservation(work: Work, published: set<MsgId>, infos: map<nat, Tally>, u: map<Key, map<MsgId, nat>>)
    requires (forall n <- infos :: Right(work, published, infos[n])) && IsSentUnion(infos, u) && u != map[]
    requires forall o <- work.outs :: work.outs[o].key != KEY_NIL
    ensures KEY_NIL in u
    ensures var others: map<Key, nat> := map key <- u.Keys - {KEY_NIL} :: Sum(u[key]); Totals(u)[KEY_NIL] == Sum(others)
  {
    hide Right, IsSentUnion;
    NilKeyConservation(work, published, infos, u);
    forall o ensures o !in CountsIn(Reported(work, u), {KEY_NIL}) {
    }
    assert CountsIn(Reported(work, u), {KEY_NIL}) == map[];
  }
}
