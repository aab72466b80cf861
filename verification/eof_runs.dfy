// Building runs of the barrier: a batch handled without interruption, and one leader
// asking all replicas.
module EofRuns {
  import opened Bytes
  import opened Dedup
  import opened Sums
  import opened EofControl
  import opened EofBarrier
  import opened Coordinators
  import opened StringOrder

  ghost predicate Leads(stage: Stage, s: State, s': State) {
    exists run: seq<State> :: Steps(stage, run) && run[0] == s && run[|run| - 1] == s'
  }

  lemma LeadsNowhere(stage: Stage, s: State)
    ensures Leads(stage, s, s)
  {
    assert Steps(stage, [s]);
  }

  lemma StepsAppend(stage: Stage, a: seq<State>, b: seq<State>)
    requires Steps(stage, a) && Steps(stage, b) && a[|a| - 1] == b[0]
    ensures Steps(stage, a + b[1..]) && (a + b[1..])[0] == a[0] && (a + b[1..])[|a + b[1..]| - 1] == b[|b| - 1]
  {
    hide Next;
    var run := a + b[1..];
    forall i | 0 <= i < |run| - 1 ensures Next(stage, run[i], run[i + 1]) {
      if i < |a| - 1 {
        assert run[i] == a[i] && run[i + 1] == a[i + 1];
      } else {
        var j := i - (|a| - 1);
        assert run[i] == b[j] && run[i + 1] == b[j + 1];
      }
    }
  }

  lemma LeadsOn(stage: Stage, s: State, s': State, s'': State)
    requires Leads(stage, s, s') && Leads(stage, s', s'')
    ensures Leads(stage, s, s'')
  {
    hide Next;
    var a: seq<State> :| Steps(stage, a) && a[0] == s && a[|a| - 1] == s';
    var b: seq<State> :| Steps(stage, b) && b[0] == s' && b[|b| - 1] == s'';
    StepsAppend(stage, a, b);
  }

  lemma LeadsStep(stage: Stage, s: State, s': State)
    requires Next(stage, s, s')
    ensures Leads(stage, s, s')
  {
    hide Next;
    var run := [s, s'];
    assert Steps(stage, run) && run[0] == s && run[|run| - 1] == s';
  }

  lemma LeadsFromStart(stage: Stage, s: State, s': State) returns (run: seq<State>)
    requires Init(s) && Leads(stage, s, s')
    ensures IsRun(stage, run) && run[0] == s && run[|run| - 1] == s'
  {
    hide Next;
    run :| Steps(stage, run) && run[0] == s && run[|run| - 1] == s';
  }

  function TallyOf(s: State, n: nat): Tally
    requires n in s.nodes
  {
    Known(s.nodes[n].member).tally
  }

  // ---------------------------------------------------------------- handling a batch

  /** The outputs recorded one after the other. */
  function SentAll(work: Work, t: Tally, outs: seq<MsgId>): Tally
    requires forall o <- outs :: o in work.outs
  {
    if outs == [] then t
    else
      var o := outs[|outs| - 1];
      SentAll(work, t, outs[..|outs| - 1]).WithSent(work.outs[o].key, o, work.outs[o].count)
  }

  ghost predicate OutputsOf(work: Work, b: MsgId, outs: seq<MsgId>) {
    forall o <- outs :: o in work.outs && work.outs[o].parent == b
  }

  /** In the middle of batch `b`, with these outputs published and recorded. */
  function Amid(stage: Stage, s: State, n: nat, b: MsgId, outs: seq<MsgId>): State
    requires n in s.nodes && forall o <- outs :: o in stage.work.outs
  {
    var m := Known(s.nodes[n].member);
    s.(published := s.published + Elements(outs),
       nodes := s.nodes[n := s.nodes[n].(hand := Some(Hand(b, Elements(outs))),
                member := if outs == [] then s.nodes[n].member
                    else Some(m.(tally := SentAll(stage.work, m.tally, outs))))])
  }

  /** Behind batch `b`. */
  function Behind(stage: Stage, s: State, n: nat, b: MsgId, outs: seq<MsgId>): State
    requires n in s.nodes && b in stage.work.sizes && forall o <- outs :: o in stage.work.outs
  {
    var m := Known(s.nodes[n].member);
    s.(published := s.published + Elements(outs),
       nodes := s.nodes[n := s.nodes[n].(hand := None,
                member := Some(m.(tally := SentAll(stage.work, m.tally, outs).WithReceived(b, stage.work.sizes[b]))))])
  }

  /** A handler's own steps on one replica, for one batch. */
  ghost predicate HandlerStep(stage: Stage, n: nat, b: MsgId, s: State, s': State) {
    || Take(stage, s, n, b, s')
    || (exists o :: Publish(stage, s, n, o, s'))
    || (exists o :: RecordSent(stage, s, n, o, s'))
    || RecordReceived(stage, s, n, s')
  }

  ghost predicate HandlerRun(stage: Stage, n: nat, b: MsgId, run: seq<State>) {
    |run| > 0 && forall i :: 0 <= i < |run| - 1 ==> HandlerStep(stage, n, b, run[i], run[i + 1])
  }

  lemma HandlerIsRun(stage: Stage, n: nat, b: MsgId, run: seq<State>)
    requires HandlerRun(stage, n, b, run)
    ensures Steps(stage, run)
  {
    hide Take, Publish, RecordSent, RecordReceived;
    forall i | 0 <= i < |run| - 1 ensures Next(stage, run[i], run[i + 1]) {
      assert HandlerStep(stage, n, b, run[i], run[i + 1]);
    }
  }

  lemma HandlerRunOn(stage: Stage, n: nat, b: MsgId, run: seq<State>, s: State)
    requires HandlerRun(stage, n, b, run) && HandlerStep(stage, n, b, run[|run| - 1], s)
    ensures HandlerRun(stage, n, b, run + [s])
  {
    hide HandlerStep;
    var more := run + [s];
    forall i | 0 <= i < |more| - 1 ensures HandlerStep(stage, n, b, more[i], more[i + 1]) {
      assert i < |run| - 1 ==> more[i] == run[i] && more[i + 1] == run[i + 1];
    }
  }

  lemma AmidNext(stage: Stage, s: State, n: nat, b: MsgId, outs: seq<MsgId>, o: MsgId) returns (mid: State)
    requires n in s.nodes && s.nodes[n].hand.None? && OutputsOf(stage.work, b, outs + [o])
    requires OutputsOf(stage.work, b, outs)
    ensures Publish(stage, Amid(stage, s, n, b, outs), n, o, mid)
    ensures RecordSent(stage, mid, n, o, Amid(stage, s, n, b, outs + [o]))
  {
    hide Tally.WithSent;
    var more := outs + [o];
    assert more[..|outs|] == outs && more[|outs|] == o;
    assert Elements(more) == Elements(outs) + {o};
    var before, after := Amid(stage, s, n, b, outs), Amid(stage, s, n, b, more);
    mid := before.(published := before.published + {o});
    assert SentAll(stage.work, Known(s.nodes[n].member).tally, more)
        == Known(before.nodes[n].member).tally.WithSent(stage.work.outs[o].key, o, stage.work.outs[o].count);
    assert mid.nodes[n := after.nodes[n]] == after.nodes;
    assert after.published == mid.published;
  }

  /** Take, then publish and record the outputs in this order. */
  lemma {:induction false} ReachesAmid(stage: Stage, s: State, n: nat, b: MsgId, outs: seq<MsgId>)
    returns (run: seq<State>)
    requires n in s.nodes && s.nodes[n].hand.None? && b in stage.work.sizes && OutputsOf(stage.work, b, outs)
    ensures HandlerRun(stage, n, b, run) && run[0] == s && run[|run| - 1] == Amid(stage, s, n, b, outs)
    decreases |outs|
  {
    if outs == [] {
      var s' := Amid(stage, s, n, b, outs);
      assert Take(stage, s, n, b, s') by {
        assert Elements(outs) == {} && s.published + {} == s.published;
      }
      run := [s, s'];
      assert HandlerStep(stage, n, b, s, s');
    } else {
      var init, o := outs[..|outs| - 1], outs[|outs| - 1];
      assert outs == init + [o];
      hide Amid;
      run := ReachesAmid(stage, s, n, b, init);
      var mid := AmidNext(stage, s, n, b, init, o);
      hide Publish, RecordSent, OutputsOf;
      HandlerRunOn(stage, n, b, run, mid);
      HandlerRunOn(stage, n, b, run + [mid], Amid(stage, s, n, b, outs));
      run := run + [mid] + [Amid(stage, s, n, b, outs)];
    }
  }

  /** A handler that publishes and records all outputs of a batch, in whatever order, and the batch last. */
  lemma ReachesBehind(stage: Stage, s: State, n: nat, b: MsgId, outs: seq<MsgId>) returns (run: seq<State>)
    requires n in s.nodes && s.nodes[n].hand.None? && b in stage.work.sizes && OutputsOf(stage.work, b, outs)
    requires forall o <- stage.work.outs :: stage.work.outs[o].parent == b ==> o in outs
    ensures HandlerRun(stage, n, b, run) && run[0] == s && run[|run| - 1] == Behind(stage, s, n, b, outs)
  {
    run := ReachesAmid(stage, s, n, b, outs);
    var before, after := Amid(stage, s, n, b, outs), Behind(stage, s, n, b, outs);
    assert RecordReceived(stage, before, n, after) by {
      assert before.nodes[n := after.nodes[n]] == after.nodes;
    }
    hide RecordReceived, Amid, Behind;
    HandlerRunOn(stage, n, b, run, after);
    run := run + [after];
  }

  lemma {:induction false} SentAllOnly(work: Work, t: Tally, outs: seq<MsgId>, key: Key, o: MsgId)
    requires forall x <- outs :: x in work.outs
    ensures SentAll(work, t, outs).rcv == t.rcv
    ensures o in SentAll(work, t, outs).SentOn(key) ==> o in t.SentOn(key) || o in outs
  {
    hide Tally.WithSent, Tally.SentOn;
    if outs != [] {
      var init, x := outs[..|outs| - 1], outs[|outs| - 1];
      assert outs == init + [x];
      SentAllOnly(work, t, init, key, o);
      WithSentCounts(SentAll(work, t, init), work.outs[x].key, x, work.outs[x].count, key, o);
    }
  }

  // ---------------------------------------------------------------- handling many batches

  function Sized(work: Work, bs: set<MsgId>): map<MsgId, nat>
    requires bs <= work.sizes.Keys
  {
    map b <- bs :: work.sizes[b]
  }

  lemma SizedGrows(work: Work, t: map<MsgId, nat>, bs: set<MsgId>, b: MsgId)
    requires bs + {b} <= work.sizes.Keys
    ensures t + Sized(work, {}) == t
    ensures t + Sized(work, {b}) == t[b := work.sizes[b]]
    ensures t + Sized(work, bs) + Sized(work, {b}) == t + Sized(work, bs + {b})
  {
  }

  /** The sent entries are old ones, or outputs of these batches. */
  ghost predicate SentOnlyFor(work: Work, t: Tally, bs: set<MsgId>, t': Tally) {
    forall key, o :: o in t'.SentOn(key) ==> o in t.SentOn(key) || (o in work.outs && work.outs[o].parent in bs)
  }

  /** What handling batches on replica n changes: its tally, and what is published. */
  ghost predicate Processed(stage: Stage, s: State, n: nat, bs: set<MsgId>, s': State) {
    && n in s.nodes && n in s'.nodes
    && s' == s.(published := s'.published, nodes := s.nodes[n := s'.nodes[n]])
    && s'.nodes[n] == s.nodes[n].(member := s'.nodes[n].member)
    && (bs == {} ==> s' == s)
    && (s'.nodes[n].member == s.nodes[n].member
        || s'.nodes[n].member == Some(Known(s.nodes[n].member).(tally := TallyOf(s', n))))
    && bs <= stage.work.sizes.Keys
    && TallyOf(s', n).rcv == TallyOf(s, n).rcv + Sized(stage.work, bs)
    && SentOnlyFor(stage.work, TallyOf(s, n), bs, TallyOf(s', n))
  }

  lemma BehindTally(work: Work, t: Tally, b: MsgId, outs: seq<MsgId>)
    requires b in work.sizes && OutputsOf(work, b, outs)
    ensures var t' := SentAll(work, t, outs).WithReceived(b, work.sizes[b]);
            t'.rcv == t.rcv + Sized(work, {b}) && SentOnlyFor(work, t, {b}, t')
  {
    hide Tally.SentOn;
    SentAllOnly(work, t, outs, KEY_NIL, b);
    SizedGrows(work, t.rcv, {}, b);
    var t' := SentAll(work, t, outs).WithReceived(b, work.sizes[b]);
    forall key, o | o in t'.SentOn(key) ensures o in t.SentOn(key) || (o in work.outs && work.outs[o].parent in {b}) {
      SameSent(SentAll(work, t, outs), b, work.sizes[b], key);
      SentAllOnly(work, t, outs, key, o);
    }
  }

  lemma HandlesOne(stage: Stage, s: State, n: nat, b: MsgId) returns (s': State)
    requires n in s.nodes && s.nodes[n].hand.None? && b in stage.work.sizes
    ensures Leads(stage, s, s') && Processed(stage, s, n, {b}, s')
  {
    hide Next, SentAll, SentOnlyFor, Sized;
    var work := stage.work;
    var outs := SomeOrder(set o <- work.outs | work.outs[o].parent == b);
    assert forall o <- outs :: o in Elements(outs);
    assert forall o <- work.outs :: work.outs[o].parent == b ==> o in Elements(outs);
    var run := ReachesBehind(stage, s, n, b, outs);
    HandlerIsRun(stage, n, b, run);
    s' := Behind(stage, s, n, b, outs);
    assert Leads(stage, s, s');
    BehindTally(work, TallyOf(s, n), b, outs);
  }

  lemma SameSent(t: Tally, b: MsgId, size: nat, key: Key)
    ensures t.WithReceived(b, size).SentOn(key) == t.SentOn(key)
  {
  }

  lemma SentOnlyTwice(work: Work, t: Tally, bs: set<MsgId>, t': Tally, b: MsgId, t'': Tally)
    requires SentOnlyFor(work, t, bs, t') && SentOnlyFor(work, t', {b}, t'')
    ensures SentOnlyFor(work, t, bs + {b}, t'')
  {
    hide Tally.SentOn;
  }

  lemma HandledTwice(stage: Stage, s: State, n: nat, bs: set<MsgId>, s': State, b: MsgId, s'': State)
    requires Processed(stage, s, n, bs, s') && Processed(stage, s', n, {b}, s'')
    ensures Processed(stage, s, n, bs + {b}, s'')
  {
    hide SentOnlyFor, Sized;
    SizedGrows(stage.work, TallyOf(s, n).rcv, bs, b);
    SentOnlyTwice(stage.work, TallyOf(s, n), bs, TallyOf(s', n), b, TallyOf(s'', n));
    assert s.nodes[n := s'.nodes[n]][n := s''.nodes[n]] == s.nodes[n := s''.nodes[n]];
  }

  lemma {:induction false} HandlesAll(stage: Stage, s: State, n: nat, bs: set<MsgId>) returns (s': State)
    requires n in s.nodes && s.nodes[n].hand.None? && bs <= stage.work.sizes.Keys
    ensures Leads(stage, s, s') && Processed(stage, s, n, bs, s')
  {
    if bs == {} {
      s' := s;
      LeadsNowhere(stage, s);
      assert TallyOf(s, n).rcv + Sized(stage.work, {}) == TallyOf(s, n).rcv;
    } else {
      hide Leads, Processed;
      var b :| b in bs;
      var mid := HandlesAll(stage, s, n, bs - {b});
      s' := HandlesOne(stage, mid, n, b);
      HandledTwice(stage, s, n, bs - {b}, mid, b, s');
      assert bs - {b} + {b} == bs;
      LeadsOn(stage, s, mid, s');
    }
  }

  // ---------------------------------------------------------------- one leader asks

  function Asking(s: State, n: nat, expected: int, ack: AckTag): State
    requires n in s.nodes
  {
    s.(nodes := s.nodes[n := s.nodes[n].(term := |s.terms|,
         member := Some(Known(s.nodes[n].member).(expected := expected, retries := 0, leader := true,
             ack := Some(ack))))],
       net := s.net + {AmountRequest(n)},
       terms := s.terms + [Term(n, 1, 0, ack, [])])
  }

  lemma OneEffect(e: Effect)
    ensures Sends([e]) == if e.Send? then {e.msg} else {}
    ensures Rounds([e]) == (if e.Send? && e.msg.AmountRequest? then 1 else 0)
    ensures Flushes([e]) == (if e.LeaderFlush? then 1 else 0)
    ensures AcksIn([e]) == if e.FireAck? then [e.ack] else []
    ensures Emissions([e]) == match e
                              case LeaderFlush(counts) => [Counted(counts)]
                              case OnRetryExceeded => [GaveUp]
                              case _ => []
  {
    assert [e][1..] == [];
    var p := (e: Effect) => e.Send? && e.msg.AmountRequest?;
    var q := (e: Effect) => e.LeaderFlush?;
    assert Count([e], p) == (if p(e) then 1 else 0) + Count([], p);
    assert Count([e], q) == (if q(e) then 1 else 0) + Count([], q);
    assert Emissions([]) == [];
  }

  lemma SyncNext(stage: Stage, s: State, n: nat, counts: map<Key, int>, ack: AckTag, m': Option<Member>,
                 out: seq<Effect>, s': State)
    requires Sync(stage, s, n, counts, ack, m', out, s')
    ensures Next(stage, s, s')
  {
    hide Sync;
  }

  lemma DeliverNext(stage: Stage, s: State, n: nat, msg: Control, m': Option<Member>, out: seq<Effect>, s': State)
    requires Deliver(stage, s, n, msg, m', out, s')
    ensures Next(stage, s, s')
  {
    hide Deliver;
  }

  /** SyncEof with an EOF that is no flush signal. */
  lemma Syncs(stage: Stage, s: State, n: nat, counts: map<Key, int>, ack: AckTag)
    requires n in s.nodes && s.nodes[n].hand.None? && counts in stage.eofs && stage.Read(counts) != -1
    ensures Leads(stage, s, Asking(s, n, stage.Read(counts), ack))
  {
    var s' := Asking(s, n, stage.Read(counts), ack);
    OneEffect(Send(AmountRequest(n)));
    hide Sends, Rounds, Flushes;
    assert Sync(stage, s, n, counts, ack, s'.nodes[n].member, [Send(AmountRequest(n))], s');
    hide Sync, Asking;
    SyncNext(stage, s, n, counts, ack, s'.nodes[n].member, [Send(AmountRequest(n))], s');
    LeadsStep(stage, s, s');
  }

  ghost predicate Leader(s: State, n: nat) {
    n in s.nodes && s.nodes[n].member.Some? && s.nodes[n].member.value.leader && AmountRequest(n) in s.net
  }

  function Answers(s: State, heard: set<nat>): map<nat, Tally>
    requires heard <= s.nodes.Keys
  {
    map k <- heard :: TallyOf(s, k)
  }

  /** `s` after leader n has heard these replicas. */
  ghost predicate Asked(s: State, n: nat, heard: set<nat>, s': State)
    requires Leader(s, n) && heard <= s.nodes.Keys
  {
    && s' == s.(nodes := s'.nodes, net := s'.net) && s.net <= s'.net && s'.nodes.Keys == s.nodes.Keys
    && (forall k <- s.nodes :: s'.nodes[k] == s.nodes[k].(member := s'.nodes[k].member))
    && s'.nodes[n].member == Some(s.nodes[n].member.value.(infos := Answers(s, heard)))
    && forall k <- s.nodes :: k != n ==>
         s'.nodes[k].member == s.nodes[k].member || s'.nodes[k].member == Some(Known(s.nodes[k].member))
  }

  lemma AskedTallies(s: State, n: nat, heard: set<nat>, s': State)
    requires Leader(s, n) && heard <= s.nodes.Keys && Asked(s, n, heard, s')
    ensures forall k <- s.nodes :: TallyOf(s', k) == TallyOf(s, k)
  {
  }

  /** A control message that neither flushes nor asks again leaves the term as it was. */
  lemma DeliversQuietly(stage: Stage, s: State, n: nat, msg: Control, m': Option<Member>, out: seq<Effect>)
    requires n in s.nodes && msg in s.net && (msg.AmountResponse? ==> msg.requester == n)
    requires EofControl.Handled(SettingsOf(stage, s, n), s.nodes[n].member, msg, m', out)
    requires stage.orderly ==> Orderly(s.nodes[n], m')
    requires out == [] || (|out| == 1 && !out[0].LeaderFlush? && !out[0].OnRetryExceeded?
                           && (out[0].Send? ==> !out[0].msg.AmountRequest?))
    ensures var s' := s.(nodes := s.nodes[n := s.nodes[n].(member := m')],
                         net := s.net + (if out != [] && out[0].Send? then {out[0].msg} else {}),
                         terms := TermsBehind(s, s.nodes[n], out));
            Deliver(stage, s, n, msg, m', out, s') && Leads(stage, s, s')
    ensures out == [] || !out[0].FireAck? ==> TermsBehind(s, s.nodes[n], out) == s.terms
  {
    hide EofControl.Handled;
    if out != [] {
      OneEffect(out[0]);
      assert out == [out[0]];
    }
    hide Sends, Rounds, Flushes, Emissions, AcksIn;
    assert out == [] ==>
        AcksIn(out) == [] && Sends(out) == {} && Emissions(out) == [] && Rounds(out) == Flushes(out) == 0 by {
      NoEffect();
    }
    var s' := s.(nodes := s.nodes[n := s.nodes[n].(member := m')],
                 net := s.net + (if out != [] && out[0].Send? then {out[0].msg} else {}),
                 terms := TermsBehind(s, s.nodes[n], out));
    assert out == [] || !out[0].FireAck? ==> forall t: Term :: t.With(out) == t by {
      assert forall t: Term :: t.fired + [] == t.fired;
    }
    assert s.emitted + [] == s.emitted;
    assert Deliver(stage, s, n, msg, m', out, s');
    hide Deliver;
    DeliverNext(stage, s, n, msg, m', out, s');
    LeadsStep(stage, s, s');
  }

  /** An answer that is not the last is only noted. */
  lemma Noted(cfg: Settings, m: Member, k: nat, t: Tally)
    requires m.leader && k !in m.infos && |m.infos| + 1 < cfg.nodes
    ensures Responded(cfg, Some(m), k, t, Some(m.(infos := m.infos[k := t])), [])
  {
    assert m.infos[k := t].Keys == m.infos.Keys + {k};
    assert |m.infos[k := t]| == |m.infos[k := t].Keys| && |m.infos| == |m.infos.Keys|;
  }

  /** The same leaderships, as far as who leads goes. */
  ghost predicate AlikeLed(s: State, s': State) {
    |s'.terms| == |s.terms| && forall i :: 0 <= i < |s.terms| ==> s'.terms[i].leader == s.terms[i].leader
  }

  lemma NoEffect()
    ensures Sends([]) == {} && Emissions([]) == [] && Rounds([]) == Flushes([]) == 0 && AcksIn([]) == []
  {
  }

  /** A replica that is asked is known from then on; its tally stays the same. */
  lemma AskedKnown(s: State, n: nat, heard: set<nat>, s': State, k: nat, net: set<Control>)
    requires Leader(s, n) && heard <= s.nodes.Keys && Asked(s, n, heard, s') && k in s.nodes && s'.net <= net
    ensures k in s'.nodes
    ensures Asked(s, n, heard, s'.(nodes := s'.nodes[k := s'.nodes[k].(member := Some(Known(s'.nodes[k].member)))],
            net := net))
  {
    hide Answers;
  }

  lemma AskedHeard(s: State, n: nat, heard: set<nat>, s': State, k: nat)
    requires Leader(s, n) && heard <= s.nodes.Keys && Asked(s, n, heard, s') && k in s.nodes && k !in heard
    ensures n in s'.nodes && s'.nodes[n].member.Some? && s'.nodes[n].member.value.leader
    ensures var m := s'.nodes[n].member.value;
            && m.infos == Answers(s, heard) && |s'.nodes| == |s.nodes|
            && Asked(s, n, heard + {k}, s'.(nodes := s'.nodes[n := s'.nodes[n].(
                       member := Some(m.(infos := m.infos[k := TallyOf(s, k)])))]))
  {
    AnswersGrow(s, heard, k);
    SameCount(s, s');
    hide Answers;
  }

  lemma AskedNet(s: State, n: nat, heard: set<nat>, s': State)
    requires Leader(s, n) && heard <= s.nodes.Keys && Asked(s, n, heard, s')
    ensures AmountRequest(n) in s'.net
  {
  }

  /** Replica k answers. */
  lemma Answering(stage: Stage, s: State, n: nat, heard: set<nat>, s': State, k: nat) returns (s'': State)
    requires Leader(s, n) && heard <= s.nodes.Keys && Asked(s, n, heard, s') && k in s.nodes
    ensures Leads(stage, s', s'') && Asked(s, n, heard, s'')
    ensures s''.net == s'.net + {AmountResponse(n, k, TallyOf(s, k))}
  {
    hide Leads, Deliver, Orderly, Asked;
    AskedTallies(s, n, heard, s');
    AskedNet(s, n, heard, s');
    AskedKnown(s, n, heard, s', k, s'.net + {AmountResponse(n, k, TallyOf(s, k))});
    var m := Some(Known(s'.nodes[k].member));
    var out := [Send(AmountResponse(n, k, TallyOf(s, k)))];
    assert Requested(SettingsOf(stage, s', k), s'.nodes[k].member, n, m, out);
    assert stage.orderly ==> Orderly(s'.nodes[k], m) by {
      SomeIsOrderly(s'.nodes[k], m.value);
    }
    DeliversQuietly(stage, s', k, AmountRequest(n), m, out);
    s'' := s'.(nodes := s'.nodes[k := s'.nodes[k].(member := m)],
        net := s'.net + {AmountResponse(n, k, TallyOf(s, k))});
  }

  lemma SomeIsOrderly(node: Node, m: Member)
    ensures Orderly(node, Some(m))
  {
  }

  lemma AnswersGrow(s: State, heard: set<nat>, k: nat)
    requires heard <= s.nodes.Keys && k in s.nodes && k !in heard
    ensures Answers(s, heard)[k := TallyOf(s, k)] == Answers(s, heard + {k})
    ensures |Answers(s, heard)| == |heard| && k !in Answers(s, heard)
  {
    assert Answers(s, heard).Keys == heard;
    assert |Answers(s, heard)| == |Answers(s, heard).Keys|;
  }

  lemma SameCount(s: State, s': State)
    requires s'.nodes.Keys == s.nodes.Keys
    ensures |s'.nodes| == |s.nodes| == |s.nodes.Keys|
  {
    assert |s'.nodes| == |s'.nodes.Keys|;
  }

  /** The leader hears replica k, which is not the last. */
  lemma Hearing(stage: Stage, s: State, n: nat, heard: set<nat>, s': State, k: nat) returns (s'': State)
    requires Leader(s, n) && heard <= s.nodes.Keys && Asked(s, n, heard, s') && k in s.nodes && k !in heard
    requires AmountResponse(n, k, TallyOf(s, k)) in s'.net && |heard| + 1 < |s.nodes|
    ensures Leads(stage, s', s'') && Asked(s, n, heard + {k}, s'') && s''.net == s'.net
  {
    hide Leads, Deliver, Orderly, Responded, Asked;
    AskedHeard(s, n, heard, s', k);
    var leader := s'.nodes[n].member.value;
    AnswersGrow(s, heard, k);
    hide Answers;
    Noted(SettingsOf(stage, s', n), leader, k, TallyOf(s, k));
    var m := leader.(infos := leader.infos[k := TallyOf(s, k)]);
    assert stage.orderly ==> Orderly(s'.nodes[n], Some(m)) by {
      SomeIsOrderly(s'.nodes[n], m);
    }
    DeliversQuietly(stage, s', n, AmountResponse(n, k, TallyOf(s, k)), Some(m), []);
    s'' := s'.(nodes := s'.nodes[n := s'.nodes[n].(member := Some(m))], net := s'.net + {});
    assert s'.net + {} == s'.net;
  }

  lemma HearsOne(stage: Stage, s: State, n: nat, heard: set<nat>, s': State, k: nat) returns (s'': State)
    requires Leader(s, n) && heard + {k} <= s.nodes.Keys - {n} && k !in heard && Asked(s, n, heard, s')
    ensures Leads(stage, s', s'') && Asked(s, n, heard + {k}, s'')
  {
    hide Leads, Asked;
    var mid := Answering(stage, s, n, heard, s', k);
    Fewer(heard + {n}, k, s.nodes.Keys);
    s'' := Hearing(stage, s, n, heard, mid, k);
    LeadsOn(stage, s', mid, s'');
  }

  lemma AskedNobody(s: State, n: nat)
    requires Leader(s, n) && s.nodes[n].member.value.infos == map[]
    ensures Asked(s, n, {}, s)
  {
  }

  lemma {:induction false} HearsAll(stage: Stage, s: State, n: nat, heard: set<nat>) returns (s': State)
    requires Leader(s, n) && s.nodes[n].member.value.infos == map[] && heard <= s.nodes.Keys - {n}
    ensures Leads(stage, s, s') && Asked(s, n, heard, s')
  {
    hide Leads, Asked;
    if heard == {} {
      s' := s;
      LeadsNowhere(stage, s);
      AskedNobody(s, n);
    } else {
      var k :| k in heard;
      var before := HearsAll(stage, s, n, heard - {k});
      s' := HearsOne(stage, s, n, heard - {k}, before, k);
      assert heard - {k} + {k} == heard;
      LeadsOn(stage, s, before, s');
    }
  }

  lemma Fewer(a: set<nat>, k: nat, all: set<nat>)
    requires a + {k} <= all && k !in a
    ensures |a| < |all|
  {
    assert all == a + (all - a);
    assert k in all - a;
  }

  /** The leader has heard everyone but itself, and its own answer is under way. */
  lemma AsksAll(stage: Stage, s: State, n: nat) returns (s': State)
    requires Leader(s, n) && s.nodes[n].member.value.infos == map[]
    ensures Leads(stage, s, s') && Asked(s, n, s.nodes.Keys - {n}, s') && AmountResponse(n, n, TallyOf(s, n)) in s'.net
  {
    hide Leads, Asked;
    var mid := HearsAll(stage, s, n, s.nodes.Keys - {n});
    s' := Answering(stage, s, n, s.nodes.Keys - {n}, mid, n);
    LeadsOn(stage, s, mid, s');
  }

  /** What the leader then knows with its own answer. */
  lemma AllHeard(s: State, n: nat, s': State)
    requires Leader(s, n) && Asked(s, n, s.nodes.Keys - {n}, s')
    ensures s'.nodes[n].member.Some?
    ensures var m := s'.nodes[n].member.value;
            m.leader && m.infos[n := TallyOf(s, n)] == Answers(s, s.nodes.Keys)
                && |Answers(s, s.nodes.Keys)| == |s'.nodes|
  {
    var m := s'.nodes[n].member.value;
    assert m.infos[n := TallyOf(s, n)].Keys == s.nodes.Keys == Answers(s, s.nodes.Keys).Keys;
    assert |Answers(s, s.nodes.Keys)| == |Answers(s, s.nodes.Keys).Keys|;
    assert |s'.nodes| == |s'.nodes.Keys|;
  }
}
