// Exactly when the emitted counts are exact in all runs of a stage: what the EOFs it reads
// must announce, and why the client must be forgotten between batches only. The control
// consumer may run the cleanup while the data consumer is in the middle of a batch.
module EofDisorder {
  import opened Bytes
  import opened Dedup
  import opened Sums
  import opened EofControl
  import opened EofAlone
  import opened EofBarrier
  import opened EofDone
  import opened EofRuns
  import opened Coordinators
  import opened StringOrder

  /** The run ends with an EOF that is not exact. */
  ghost predicate EndsInexact(stage: Stage, replicas: nat, run: seq<State>) {
    && IsRun(stage, run) && |run[0].nodes| == replicas && EachLeadsOnce(run[|run| - 1])
    && exists e <- run[|run| - 1].emitted :: e.Counted? && e.counts != ExactCounts(stage.work)
  }

  ghost predicate AlwaysExact(stage: Stage, replicas: nat) {
    forall run: seq<State> :: !EndsInexact(stage, replicas, run)
  }

  // ---------------------------------------------------------------- one replica has it all

  /** Nothing but replica w knows anything. */
  ghost predicate OnlyKnows(s: State, w: nat) {
    && w in s.nodes
    && forall k <- s.nodes :: (s.nodes[k].member.Some? ==> s.nodes[k].member.value.infos == map[])
                              && (k != w ==> TallyOf(s, k) == NOTHING)
  }

  lemma OnlyPart(s: State, w: nat)
    requires OnlyKnows(s, w)
    ensures w in s.nodes
    ensures IsUnion(ReceivedParts(Answers(s, s.nodes.Keys)), TallyOf(s, w).rcv)
    ensures IsSentUnion(Answers(s, s.nodes.Keys), TallyOf(s, w).sent)
  {
    var infos, t := Answers(s, s.nodes.Keys), TallyOf(s, w);
    assert infos[w] == t;
    assert t.rcv in ReceivedParts(infos);
    forall p <- ReceivedParts(infos) ensures p == t.rcv || p == map[] {
      var n := ReceivedPartFrom(infos, p);
    }
    forall key <- t.sent ensures SentParts(infos, key) == {t.sent[key]} {
      assert infos[w].sent[key] in SentParts(infos, key);
      forall p <- SentParts(infos, key) ensures p == t.sent[key] {
        var n := PartFrom(infos, key, p);
      }
    }
  }

  /** A right tally without some output does not total to the exact counts. */
  lemma LacksOne(work: Work, published: set<MsgId>, t: Tally, o: MsgId)
    requires Right(work, published, t) && NoneEmpty(work) && o in work.outs && o !in t.SentOn(KEY_NIL)
    ensures Totals(t.sent) != ExactCounts(work)
  {
    hide Sum;
    assert o in OnKey(work, KEY_NIL) && KEY_NIL in KeysUsed(work);
    if KEY_NIL in t.sent {
      forall x <- t.sent[KEY_NIL] ensures x in OnKey(work, KEY_NIL) && t.sent[KEY_NIL][x] == OnKey(work, KEY_NIL)[x] {
      }
      SumPart(t.sent[KEY_NIL], OnKey(work, KEY_NIL));
      assert Totals(t.sent)[KEY_NIL] < ExactCounts(work)[KEY_NIL];
    }
  }

  /** The last answer, when the union reaches the expected total. */
  lemma LastNoted(cfg: Settings, m: Member, k: nat, t: Tally, received: map<MsgId, nat>,
                  sent: map<Key, map<MsgId, nat>>)
    returns (out: seq<Effect>)
    requires m.leader && |m.infos[k := t]| == cfg.nodes && Sum(received) >= m.expected
    requires IsUnion(ReceivedParts(m.infos[k := t]), received) && IsSentUnion(m.infos[k := t], sent)
    ensures Responded(cfg, Some(m), k, t, None, out) && out != [] && out[0] == LeaderFlush(Totals(sent))
  {
    hide Sum, Totals, IsUnion, IsSentUnion, ReceivedParts;
    var heard := m.(infos := m.infos[k := t]);
    out := [LeaderFlush(Totals(sent)), Send(Flush(cfg.self))] + CleanupEffects(Some(heard));
    assert Decided(cfg, heard, received, sent, None, out);
  }

  /** The leader's own answer completes the total, and it emits what is on record. */
  lemma LastAnswer(stage: Stage, s: State, n: nat, s': State, w: nat) returns (last: State)
    requires Leader(s, n) && OnlyKnows(s, w) && Asked(s, n, s.nodes.Keys - {n}, s')
    requires AmountResponse(n, n, TallyOf(s, n)) in s'.net && s.nodes[n].hand.None?
    requires Sum(TallyOf(s, w).rcv) >= s.nodes[n].member.value.expected
    ensures Leads(stage, s', last) && Counted(Totals(TallyOf(s, w).sent)) in last.emitted
    ensures |last.terms| == |s.terms| && forall i :: 0 <= i < |s.terms| ==> last.terms[i].leader == s.terms[i].leader
  {
    hide Leads, Answers, Sum, Totals, IsUnion, IsSentUnion, ReceivedParts, Responded, OnlyKnows;
    AllHeard(s, n, s');
    OnlyPart(s, w);
    var m := s'.nodes[n].member.value;
    var out := LastNoted(SettingsOf(stage, s', n), m, n, TallyOf(s, n), TallyOf(s, w).rcv, TallyOf(s, w).sent);
    last := Flushed(stage, s', n, AmountResponse(n, n, TallyOf(s, n)), out);
  }

  /** Delivering what makes a leader flush. */
  lemma Flushed(stage: Stage, s: State, n: nat, msg: Control, out: seq<Effect>) returns (s': State)
    requires n in s.nodes && s.nodes[n].hand.None? && msg in s.net && (msg.AmountResponse? ==> msg.requester == n)
    requires EofControl.Handled(SettingsOf(stage, s, n), s.nodes[n].member, msg, None, out)
    requires out != [] && out[0].LeaderFlush?
    ensures Leads(stage, s, s') && Counted(out[0].counts) in s'.emitted
    ensures |s'.terms| == |s.terms| && forall i :: 0 <= i < |s.terms| ==> s'.terms[i].leader == s.terms[i].leader
  {
    hide EofControl.Handled, Sends, Rounds, Flushes;
    var node := s.nodes[n];
    s' := s.(nodes := s.nodes[n := node.(member := None)], net := s.net + Sends(out),
             emitted := s.emitted + Emissions(out), terms := TermsBehind(s, node, out));
    assert Emissions(out)[0] == Counted(out[0].counts);
    assert Deliver(stage, s, n, msg, None, out, s');
    hide Deliver, Emissions;
    DeliverNext(stage, s, n, msg, None, out, s');
    LeadsStep(stage, s, s');
  }

  /** Replica n leads for the first time and counts, although some output is on no record. */
  lemma CountsWithout(stage: Stage, s0: State, s: State, n: nat, w: nat, counts: map<Key, int>, o: MsgId)
    returns (run: seq<State>)
    requires Init(s0) && Leads(stage, s0, s) && OnlyKnows(s, w) && NoneEmpty(stage.work)
    requires n in s.nodes && s.nodes[n].hand.None? && EachLeadsOnce(s) && (forall t <- s.terms :: t.leader != n)
    requires counts in stage.eofs && stage.Read(counts) != -1 && Sum(TallyOf(s, w).rcv) >= stage.Read(counts)
    requires o in stage.work.outs && o !in TallyOf(s, w).SentOn(KEY_NIL)
    ensures EndsInexact(stage, |s0.nodes|, run) && run[0] == s0
    ensures Counted(Totals(TallyOf(s, w).sent)) in run[|run| - 1].emitted
  {
    hide Leads, Asked, IsRun, Sum, Totals, ExactCounts, Right, Init, Tally.SentOn;
    var t := TallyOf(s, w);
    var lead := Asking(s, n, stage.Read(counts), 0);
    Syncs(stage, s, n, counts, 0);
    AskingKeeps(s, n, stage.Read(counts), 0, w);
    var ready := AsksAll(stage, lead, n);
    var last := LastAnswer(stage, lead, n, ready, w);
    LeadsOn(stage, s, lead, ready);
    LeadsOn(stage, s, ready, last);
    RightHere(stage, s0, s, w);
    LacksOne(stage.work, s.published, t, o);
    LeadsOn(stage, s0, s, last);
    run := LeadsFromStart(stage, s0, last);
    assert lead.terms == s.terms + [Term(n, 1, 0, 0, [])];
  }

  lemma AskingKeeps(s: State, n: nat, expected: int, ack: AckTag, w: nat)
    requires OnlyKnows(s, w) && n in s.nodes
    ensures var s' := Asking(s, n, expected, ack);
            && OnlyKnows(s', w) && TallyOf(s', w) == TallyOf(s, w) && Leader(s', n)
            && s'.nodes[n].member.value.infos == map[] && s'.nodes[n].member.value.expected == expected
            && s'.nodes[n].hand == s.nodes[n].hand
  {
  }

  lemma RightHere(stage: Stage, s0: State, s: State, w: nat)
    requires Init(s0) && Leads(stage, s0, s) && w in s.nodes
    ensures Right(stage.work, s.published, TallyOf(s, w))
  {
    hide Leads;
    var run := LeadsFromStart(stage, s0, s);
    Reachable(stage, run, |run| - 1);
    NothingIsHonest(stage, s.published);
    assert NodeInvariant(stage, s.published, s.nodes[w]);
  }

  // ---------------------------------------------------------------- an EOF that announces too little

  function Replicas(count: nat): set<nat> {
    if count == 0 then {} else Replicas(count - 1) + {count - 1}
  }

  function Start(count: nat): State {
    State(map n <- Replicas(count) :: Node(None, None, None, 0), {}, {}, [], [])
  }

  lemma {:induction false} ReplicasUpTo(count: nat)
    ensures |Replicas(count)| == count && forall n <- Replicas(count) :: n < count
    ensures count > 0 ==> 0 in Replicas(count)
    ensures count > 1 ==> 1 in Replicas(count)
  {
    if count > 0 {
      ReplicasUpTo(count - 1);
    }
  }

  lemma StartSize(count: nat)
    ensures Init(Start(count)) && |Start(count).nodes| == count && Start(count).nodes.Keys == Replicas(count)
  {
    ReplicasUpTo(count);
    assert Start(count).nodes.Keys == Replicas(count);
    assert |Start(count).nodes| == |Start(count).nodes.Keys|;
  }

  lemma SizedWithout(work: Work, b: MsgId)
    requires b in work.sizes
    ensures Sum(Sized(work, work.sizes.Keys - {b})) + work.sizes[b] == Sum(work.sizes)
    ensures Sized(work, work.sizes.Keys) == work.sizes
  {
    SumRemove(work.sizes, b);
    assert Sized(work, work.sizes.Keys - {b}) == work.sizes - {b};
  }

  /** All batches but one are handled, and the leader is content. */
  lemma TooLittle(stage: Stage, replicas: nat, counts: map<Key, int>, o: MsgId) returns (run: seq<State>)
    requires Derived(stage.work) && NoneEmpty(stage.work) && replicas > 0
    requires counts in stage.eofs && stage.Read(counts) != -1 && o in stage.work.outs
    requires stage.Read(counts) + stage.work.sizes[stage.work.outs[o].parent] <= Sum(stage.work.sizes)
    ensures EndsInexact(stage, replicas, run)
  {
    hide Leads, Sum, Sized, EndsInexact, Init;
    var work, b := stage.work, stage.work.outs[o].parent;
    var s0 := Start(replicas);
    StartSize(replicas);
    ReplicasUpTo(replicas);
    assert TallyOf(s0, 0) == NOTHING;
    var s := HandlesAll(stage, s0, 0, work.sizes.Keys - {b});
    SizedWithout(work, b);
    assert NOTHING.rcv + Sized(work, work.sizes.Keys - {b}) == Sized(work, work.sizes.Keys - {b});
    assert o !in NOTHING.SentOn(KEY_NIL);
    assert OnlyKnows(s, 0);
    run := CountsWithout(stage, s0, s, 0, 0, counts, o);
  }

  // ---------------------------------------------------------------- a client forgotten in the middle of a batch

  /** Replica 0 leads too early, hears that nobody has anything, and is about to hear so from itself. */
  ghost predicate EarlyLeader(s: State, s': State, expected: int) {
    && Leader(s, 0)
    && (forall k <- s.nodes :: s.nodes[k] == Node(s.nodes[k].member, None, None, 0) && TallyOf(s, k) == NOTHING)
    && (forall k <- s.nodes :: s.nodes[k].member.Some? ==> s.nodes[k].member.value.infos == map[])
    && s.nodes[0].member.value.expected == expected && s.terms == [Term(0, 1, 0, 0, [])] && s.emitted == []
    && Asked(s, 0, s.nodes.Keys - {0}, s') && AmountResponse(0, 0, NOTHING) in s'.net
  }

  lemma LeadsEarly(stage: Stage, replicas: nat, counts: map<Key, int>) returns (s: State, s': State)
    requires replicas > 0 && counts in stage.eofs && stage.Read(counts) != -1
    ensures Leads(stage, Start(replicas), s') && EarlyLeader(s, s', stage.Read(counts))
    ensures s.nodes.Keys == Replicas(replicas)
  {
    hide Leads, Asked, Init;
    var s0 := Start(replicas);
    StartSize(replicas);
    ReplicasUpTo(replicas);
    Syncs(stage, s0, 0, counts, 0);
    s := Asking(s0, 0, stage.Read(counts), 0);
    s' := AsksAll(stage, s, 0);
    LeadsOn(stage, s0, s, s');
  }

  /** A leader that has heard from all but itself that nobody has anything. */
  ghost predicate AboutToGiveUp(s: State) {
    && 0 in s.nodes && s.nodes[0].member.Some? && AmountResponse(0, 0, NOTHING) in s.net
    && var m := s.nodes[0].member.value;
       && m.leader && m.expected > 0 && NoneReceived(m.infos[0 := NOTHING])
       && |m.infos[0 := NOTHING]| == |s.nodes|
  }

  function WithBatchOnly(stage: Stage, s: State, b: MsgId): State
    requires 0 in s.nodes && b in stage.work.sizes
  {
    s.(nodes := s.nodes[0 := s.nodes[0].(hand := None,
         member := Some(NEW_MEMBER.(tally := NOTHING.WithReceived(b, stage.work.sizes[b]))))])
  }

  /** Everything of batch `b` is sent and recorded when the last answer arrives: the client is forgotten,
      then the batch recorded. */
  lemma GivesUpHalfway(stage: Stage, s: State, b: MsgId) returns (last: State)
    requires AboutToGiveUp(s) && !stage.orderly && b in stage.work.sizes
    requires s.nodes[0].hand.Some? && s.nodes[0].hand.value.batch == b
    requires forall o <- stage.work.outs :: stage.work.outs[o].parent == b ==> o in s.nodes[0].hand.value.sent
    ensures Leads(stage, s, last) && AlikeLed(s, last)
    ensures last == WithBatchOnly(stage, s, b).(terms := last.terms)
  {
    hide Leads, Responded, NoneReceived, AcksIn;
    var m := s.nodes[0].member.value;
    EmptyUnionEnds(SettingsOf(stage, s, 0), m, 0, NOTHING);
    DeliversQuietly(stage, s, 0, AmountResponse(0, 0, NOTHING), None, FireIf(m.ack));
    var gone := s.(nodes := s.nodes[0 := s.nodes[0].(member := None)], net := s.net + {},
                   terms := TermsBehind(s, s.nodes[0], FireIf(m.ack)));
    last := WithBatchOnly(stage, s, b).(terms := gone.terms);
    assert gone.nodes[0 := last.nodes[0]] == last.nodes;
    assert RecordReceived(stage, gone, 0, last);
    RecordReceivedNext(stage, gone, 0, last);
    LeadsStep(stage, gone, last);
    LeadsOn(stage, s, gone, last);
  }

  lemma AmidGivesUp(stage: Stage, s: State, b: MsgId, outs: seq<MsgId>)
    requires AboutToGiveUp(s) && OutputsOf(stage.work, b, outs)
    ensures var mid := Amid(stage, s, 0, b, outs);
            && AboutToGiveUp(mid) && mid.nodes[0].hand == Some(Hand(b, Elements(outs)))
               && mid.nodes.Keys == s.nodes.Keys
            && mid.terms == s.terms && forall k <- s.nodes :: k != 0 ==> mid.nodes[k] == s.nodes[k]
  {
    hide NoneReceived, SentAll;
    var mid := Amid(stage, s, 0, b, outs);
    assert mid.nodes.Keys == s.nodes.Keys;
    SameCount(s, mid);
  }

  /** Replica 0 is in the middle of batch `b` when its own answer arrives. */
  lemma ForgetsHalfway(stage: Stage, s: State, s': State, b: MsgId, outs: seq<MsgId>, expected: int)
    returns (last: State)
    requires EarlyLeader(s, s', expected) && expected > 0 && !stage.orderly && b in stage.work.sizes
    requires OutputsOf(stage.work, b, outs)
    requires forall o <- stage.work.outs :: stage.work.outs[o].parent == b ==> o in outs
    ensures Leads(stage, s', last) && OnlyKnows(last, 0) && AlikeLed(s, last) && last.nodes.Keys == s.nodes.Keys
    ensures TallyOf(last, 0) == NOTHING.WithReceived(b, stage.work.sizes[b])
    ensures forall k <- last.nodes :: last.nodes[k].hand.None?
  {
    hide Leads, AboutToGiveUp, EarlyLeader, Steps, Amid;
    EarlyMember(s, s', expected);
    AmidGivesUp(stage, s', b, outs);
    var run := ReachesAmid(stage, s', 0, b, outs);
    HandlerIsRun(stage, 0, b, run);
    var mid := Amid(stage, s', 0, b, outs);
    LeadsByRun(stage, s', mid, run);
    last := GivesUpHalfway(stage, mid, b);
    LeadsOn(stage, s', mid, last);
  }

  lemma RecordReceivedNext(stage: Stage, s: State, n: nat, s': State)
    requires RecordReceived(stage, s, n, s')
    ensures Next(stage, s, s')
  {
    hide RecordReceived;
  }

  lemma LeadsByRun(stage: Stage, s: State, s': State, run: seq<State>)
    requires Steps(stage, run) && run[0] == s && run[|run| - 1] == s'
    ensures Leads(stage, s, s')
  {
    hide Next;
  }

  /** The leader before its own answer, seen from the states around it. */
  lemma EarlyMember(s: State, s': State, expected: int)
    requires EarlyLeader(s, s', expected) && expected > 0
    ensures s'.nodes.Keys == s.nodes.Keys && 0 in s.nodes && s'.terms == s.terms && AboutToGiveUp(s')
    ensures forall k <- s'.nodes :: s'.nodes[k].hand.None? && TallyOf(s', k) == NOTHING
    ensures forall k <- s'.nodes :: k != 0 && s'.nodes[k].member.Some? ==> s'.nodes[k].member.value.infos == map[]
  {
    AskedTallies(s, 0, s.nodes.Keys - {0}, s');
    NothingHeard(s, 0, s');
  }

  /** Up to where replica 0 has all batches on record, but nothing of the one it was in the middle of. */
  lemma LosesOne(stage: Stage, replicas: nat, counts: map<Key, int>, b: MsgId) returns (s: State)
    requires b in stage.work.sizes && replicas >= 2 && !stage.orderly
    requires counts in stage.eofs && 0 < stage.Read(counts)
    ensures Leads(stage, Start(replicas), s) && OnlyKnows(s, 0) && |s.terms| == 1 && s.terms[0].leader == 0
    ensures s.nodes.Keys == Replicas(replicas) && forall k <- s.nodes :: s.nodes[k].hand.None?
    ensures TallyOf(s, 0) == NOTHING.WithReceived(b, stage.work.sizes[b])
  {
    hide Leads, Sum, Asked, EarlyLeader;
    var work := stage.work;
    var s1, s2 := LeadsEarly(stage, replicas, counts);
    var outs := SomeOrder(set x <- work.outs | work.outs[x].parent == b);
    assert forall x <- outs :: x in Elements(outs);
    assert forall x <- work.outs :: work.outs[x].parent == b ==> x in Elements(outs);
    s := ForgetsHalfway(stage, s1, s2, b, outs, stage.Read(counts));
    LeadsOn(stage, Start(replicas), s2, s);
    EarlyTerms(s1, s2, stage.Read(counts));
  }

  lemma HandledKeepsOnly(stage: Stage, s: State, bs: set<MsgId>, s': State)
    requires OnlyKnows(s, 0) && Processed(stage, s, 0, bs, s')
    ensures OnlyKnows(s', 0) && s'.terms == s.terms && s'.nodes.Keys == s.nodes.Keys
    ensures forall k <- s.nodes :: s'.nodes[k].hand == s.nodes[k].hand
  {
    hide Sized, SentOnlyFor;
  }

  lemma NotSent(work: Work, t: Tally, bs: set<MsgId>, t': Tally, o: MsgId, key: Key)
    requires SentOnlyFor(work, t, bs, t') && t.sent == map[] && o in work.outs && work.outs[o].parent !in bs
    ensures o !in t'.SentOn(key)
  {
  }

  /** Forgetting the client in the middle of a batch loses its outputs but not the batch; the EOF's second
      copy, on another replica, is then counted without them. */
  lemma DisorderLosesCounts(stage: Stage, replicas: nat, counts: map<Key, int>, o: MsgId) returns (run: seq<State>)
    requires Derived(stage.work) && NoneEmpty(stage.work) && replicas >= 2 && !stage.orderly
    requires counts in stage.eofs && 0 < stage.Read(counts) <= Sum(stage.work.sizes) && o in stage.work.outs
    ensures EndsInexact(stage, replicas, run)
  {
    hide Leads, Sum, Sized, EndsInexact, Init, SentOnlyFor, OnlyKnows, NoneEmpty;
    var work, b := stage.work, stage.work.outs[o].parent;
    var s0 := Start(replicas);
    StartSize(replicas);
    ReplicasUpTo(replicas);
    var s := LosesOne(stage, replicas, counts, b);
    var s' := HandlesAll(stage, s, 0, work.sizes.Keys - {b});
    LeadsOn(stage, s0, s, s');
    HandledKeepsOnly(stage, s, work.sizes.Keys - {b}, s');
    RestAdded(work, b);
    NotSent(work, TallyOf(s, 0), work.sizes.Keys - {b}, TallyOf(s', 0), o, KEY_NIL);
    run := CountsWithout(stage, s0, s', 1, 0, counts, o);
  }

  lemma EarlyTerms(s: State, s': State, expected: int)
    requires EarlyLeader(s, s', expected)
    ensures s.terms == [Term(0, 1, 0, 0, [])] && s'.terms == s.terms
  {
  }

  lemma RestAdded(work: Work, b: MsgId)
    requires b in work.sizes
    ensures map[b := work.sizes[b]] + Sized(work, work.sizes.Keys - {b}) == work.sizes
  {
  }

  // ---------------------------------------------------------------- a flush signal in the middle of a batch

  /** Replica 0 after it passed a flush signal on. */
  function Passed(s: State, counts: map<Key, int>): State
    requires 0 in s.nodes
  {
    s.(nodes := s.nodes[0 := s.nodes[0].(member := None)], net := s.net + {Flush(0)},
       emitted := s.emitted + [PassedOn(counts)])
  }

  lemma PassesOn(stage: Stage, s: State, counts: map<Key, int>)
    requires 0 in s.nodes && s.nodes[0] == Node(None, None, None, 0)
    requires counts in stage.eofs && stage.Read(counts) == -1
    ensures Leads(stage, s, Passed(s, counts))
  {
    var s' := Passed(s, counts);
    var out := [Send(Flush(0)), LeaderFlush(counts)] + [] + [FireAck(0)];
    assert Sends(out) == {Flush(0)} by {
      assert out[0] == Send(Flush(0));
    }
    hide Sends, Rounds, Flushes;
    assert Sync(stage, s, 0, counts, 0, None, out, s');
    hide Sync;
    SyncNext(stage, s, 0, counts, 0, None, out, s');
    LeadsStep(stage, s, s');
  }

  /** That signal comes back in the middle of batch `b`: the client is forgotten, then the batch recorded. */
  lemma FlushedHalfway(stage: Stage, s: State, b: MsgId)
    requires 0 in s.nodes && Flush(0) in s.net && !stage.orderly && b in stage.work.sizes
    requires s.nodes[0].member.Some? ==> !s.nodes[0].member.value.leader
    requires s.nodes[0].hand.Some? && s.nodes[0].hand.value.batch == b
    requires forall o <- stage.work.outs :: stage.work.outs[o].parent == b ==> o in s.nodes[0].hand.value.sent
    ensures Leads(stage, s, WithBatchOnly(stage, s, b))
  {
    hide Leads;
    DeliversQuietly(stage, s, 0, Flush(0), None, [OnFlush]);
    var gone := s.(nodes := s.nodes[0 := s.nodes[0].(member := None)], net := s.net + {}, terms := s.terms);
    var last := WithBatchOnly(stage, s, b);
    assert gone.nodes[0 := last.nodes[0]] == last.nodes;
    assert RecordReceived(stage, gone, 0, last);
    RecordReceivedNext(stage, gone, 0, last);
    LeadsStep(stage, gone, last);
    LeadsOn(stage, s, gone, last);
  }

  lemma AmidFollows(stage: Stage, s: State, b: MsgId, outs: seq<MsgId>)
    requires 0 in s.nodes && s.nodes[0] == Node(None, None, None, 0) && OutputsOf(stage.work, b, outs)
    ensures var mid := Amid(stage, s, 0, b, outs);
            && mid.net == s.net && mid.nodes.Keys == s.nodes.Keys && mid.terms == s.terms
            && mid.nodes[0].hand == Some(Hand(b, Elements(outs)))
            && (mid.nodes[0].member.Some? ==> !mid.nodes[0].member.value.leader)
            && forall k <- s.nodes :: k != 0 ==> mid.nodes[k] == s.nodes[k]
  {
    hide SentAll;
  }

  /** All batches on record, but nothing of the one in the middle of which the flush signal came back. */
  lemma FlushLosesOne(stage: Stage, replicas: nat, flush: map<Key, int>, b: MsgId) returns (s: State)
    requires b in stage.work.sizes && replicas > 0 && !stage.orderly
    requires flush in stage.eofs && stage.Read(flush) == -1
    ensures Leads(stage, Start(replicas), s) && OnlyKnows(s, 0) && s.terms == []
    ensures s.nodes.Keys == Replicas(replicas) && forall k <- s.nodes :: s.nodes[k].hand.None?
    ensures TallyOf(s, 0) == NOTHING.WithReceived(b, stage.work.sizes[b])
  {
    hide Leads, Amid, HandlerRun;
    var work, s0 := stage.work, Start(replicas);
    StartSize(replicas);
    ReplicasUpTo(replicas);
    PassesOn(stage, s0, flush);
    var s1 := Passed(s0, flush);
    var outs := SomeOrder(set x <- work.outs | work.outs[x].parent == b);
    assert forall x <- outs :: x in Elements(outs);
    assert forall x <- work.outs :: work.outs[x].parent == b ==> x in Elements(outs);
    var run := ReachesAmid(stage, s1, 0, b, outs);
    HandlerIsRun(stage, 0, b, run);
    var s2 := Amid(stage, s1, 0, b, outs);
    LeadsByRun(stage, s1, s2, run);
    AmidFollows(stage, s1, b, outs);
    FlushedHalfway(stage, s2, b);
    s := WithBatchOnly(stage, s2, b);
    LeadsOn(stage, s0, s1, s2);
    LeadsOn(stage, s0, s2, s);
  }

  /** So also a single replica that leads once can lose counts, if it has passed a flush signal on before. */
  lemma FlushLosesCounts(stage: Stage, replicas: nat, flush: map<Key, int>, counts: map<Key, int>, o: MsgId)
    returns (run: seq<State>)
    requires Derived(stage.work) && NoneEmpty(stage.work) && replicas > 0 && !stage.orderly
    requires flush in stage.eofs && stage.Read(flush) == -1
    requires counts in stage.eofs && -1 != stage.Read(counts) <= Sum(stage.work.sizes) && o in stage.work.outs
    ensures EndsInexact(stage, replicas, run)
  {
    hide Leads, Sum, Sized, EndsInexact, Init, SentOnlyFor, OnlyKnows, NoneEmpty;
    var work, b := stage.work, stage.work.outs[o].parent;
    var s0 := Start(replicas);
    StartSize(replicas);
    ReplicasUpTo(replicas);
    var s := FlushLosesOne(stage, replicas, flush, b);
    var s' := HandlesAll(stage, s, 0, work.sizes.Keys - {b});
    LeadsOn(stage, s0, s, s');
    HandledKeepsOnly(stage, s, work.sizes.Keys - {b}, s');
    RestAdded(work, b);
    NotSent(work, TallyOf(s, 0), work.sizes.Keys - {b}, TallyOf(s', 0), o, KEY_NIL);
    run := CountsWithout(stage, s0, s', 0, 0, counts, o);
  }

  // ---------------------------------------------------------------- exactly when counts are exact

  /** No cleanup can lose counts: clients are forgotten between batches only, or there is one replica, and
      nothing makes it forget a client before it counts. */
  ghost predicate Undisturbed(stage: Stage, replicas: nat) {
    stage.orderly || (replicas == 1 && forall counts <- stage.eofs :: stage.Read(counts) != -1)
  }

  /** What an EOF can do to the stage's counts. */
  ghost predicate Harmless(stage: Stage, replicas: nat, counts: map<Key, int>) {
    var total := stage.Read(counts);
    || total == -1
    || total > Sum(stage.work.sizes)
    || (Undisturbed(stage, replicas) && Awaited(stage.work, total))
  }

  /** If some total is within reach, harmless EOFs announce enough, and the stage is undisturbed. */
  lemma ReachableIsAnnounced(stage: Stage, replicas: nat, total: int)
    requires Derived(stage.work) && forall counts <- stage.eofs :: Harmless(stage, replicas, counts)
    requires total in stage.Totals() && total <= Sum(stage.work.sizes)
    ensures Announced(stage) && Undisturbed(stage, replicas)
  {
    hide Sum, Awaited, Undisturbed;
    var counts :| counts in stage.eofs && stage.Read(counts) == total != -1;
    assert Harmless(stage, replicas, counts);
    forall c <- stage.eofs | stage.Read(c) != -1 ensures Awaited(stage.work, stage.Read(c)) {
      assert Harmless(stage, replicas, c);
      if stage.Read(c) > Sum(stage.work.sizes) {
        MoreIsAwaited(stage.work, stage.Read(c));
      }
    }
  }

  /** A run of such a stage: whatever is counted in it is exact. */
  lemma HarmlessRun(stage: Stage, replicas: nat, run: seq<State>, e: Emission)
    requires Derived(stage.work) && forall counts <- stage.eofs :: Harmless(stage, replicas, counts)
    requires IsRun(stage, run) && |run[0].nodes| == replicas && EachLeadsOnce(run[|run| - 1])
    requires e in run[|run| - 1].emitted && e.Counted?
    ensures e.counts == ExactCounts(stage.work)
  {
    hide Sum, ExactCounts, Announced, Harmless, Derived, Stage.Totals, Next, EachLeadsOnce;
    var s := run[|run| - 1];
    Reachable(stage, run, |run| - 1);
    assert EmissionInvariant(stage, s.published, e);
    var total :| total in stage.Totals() && total <= Sum(stage.work.sizes);
    ReachableIsAnnounced(stage, replicas, total);
    if !stage.orderly {
      AloneIsExact(stage, run, e);
    }
  }

  lemma HarmlessIsExact(stage: Stage, replicas: nat)
    requires Derived(stage.work) && forall counts <- stage.eofs :: Harmless(stage, replicas, counts)
    ensures AlwaysExact(stage, replicas)
  {
    hide Sum, ExactCounts, Harmless, Derived, Next, EachLeadsOnce;
    forall run: seq<State> ensures !EndsInexact(stage, replicas, run) {
      if IsRun(stage, run) && |run[0].nodes| == replicas && EachLeadsOnce(run[|run| - 1]) {
        forall e <- run[|run| - 1].emitted | e.Counted? ensures e.counts == ExactCounts(stage.work) {
          HarmlessRun(stage, replicas, run, e);
        }
      }
    }
  }

  lemma MoreIsAwaited(work: Work, total: int)
    requires Derived(work) && total > Sum(work.sizes)
    ensures Awaited(work, total)
  {
  }

  /** For every stage and number of replicas: the emitted counts are exact in all runs exactly when nothing is
      derived, or every EOF is a flush signal, or announces more than there is, or a total that cannot be
      received without every batch that has outputs, to a stage that is undisturbed. */
  lemma AlwaysExactIff(stage: Stage, replicas: nat)
    requires Derived(stage.work) && NoneEmpty(stage.work) && replicas > 0
    ensures AlwaysExact(stage, replicas) <==>
            stage.work.outs == map[] || forall counts <- stage.eofs :: Harmless(stage, replicas, counts)
  {
    hide Sum, EndsInexact, Derived, Harmless;
    if stage.work.outs == map[] {
      NothingToCount(stage, replicas);
    } else if forall counts <- stage.eofs :: Harmless(stage, replicas, counts) {
      HarmlessIsExact(stage, replicas);
    } else {
      var counts :| counts in stage.eofs && !Harmless(stage, replicas, counts);
      var run := InexactRun(stage, replicas, counts);
    }
  }

  lemma NothingToCount(stage: Stage, replicas: nat)
    requires stage.work.outs == map[]
    ensures AlwaysExact(stage, replicas)
  {
    hide ExactCounts;
    assert Safe(stage);
    forall run: seq<State> ensures !EndsInexact(stage, replicas, run) {
      if EndsInexact(stage, replicas, run) {
        var s := run[|run| - 1];
        var e :| e in s.emitted && e.Counted? && e.counts != ExactCounts(stage.work);
        CountedIsExact(stage, run, |run| - 1, e);
      }
    }
  }

  lemma InexactRun(stage: Stage, replicas: nat, counts: map<Key, int>) returns (run: seq<State>)
    requires Derived(stage.work) && NoneEmpty(stage.work) && replicas > 0 && stage.work.outs != map[]
    requires counts in stage.eofs && !Harmless(stage, replicas, counts)
    ensures EndsInexact(stage, replicas, run)
  {
    hide Sum, EndsInexact, NoneEmpty;
    var total := stage.Read(counts);
    if !Awaited(stage.work, total) {
      var o :| o in stage.work.outs && total + stage.work.sizes[stage.work.outs[o].parent] <= Sum(stage.work.sizes);
      run := TooLittle(stage, replicas, counts, o);
    } else {
      var o :| o in stage.work.outs;
      SizedWithout(stage.work, stage.work.outs[o].parent);
      if replicas == 1 {
        var flush :| flush in stage.eofs && stage.Read(flush) == -1;
        run := FlushLosesCounts(stage, replicas, flush, counts, o);
      } else {
        run := DisorderLosesCounts(stage, replicas, counts, o);
      }
    }
  }

  /** A stage that is sent the exact total, or a flush signal: the order of cleanups decides. */
  lemma ExactIffOrderly(stage: Stage, replicas: nat, counts: map<Key, int>)
    requires Derived(stage.work) && NoneEmpty(stage.work) && replicas >= 2
    requires forall c <- stage.eofs :: stage.Read(c) == -1 || stage.Read(c) == Sum(stage.work.sizes)
    requires counts in stage.eofs && stage.Read(counts) == Sum(stage.work.sizes)
    ensures AlwaysExact(stage, replicas) <==> stage.orderly || stage.work.outs == map[]
  {
    hide Sum, AlwaysExact;
    AlwaysExactIff(stage, replicas);
  }

  /** A worker that gave up sends -1 under the nil key alone. A next stage that reads another key takes it
      for a total of zero: it leads, counts at once, and emits an EOF without what it has not yet handled. */
  lemma GaveUpIsHarmlessIff(stage: Stage, replicas: nat)
    requires Derived(stage.work) && NoneEmpty(stage.work) && replicas > 0
    requires stage.eofs == {map[KEY_NIL := -1]}
    ensures AlwaysExact(stage, replicas) <==> stage.key == KEY_NIL || stage.work.outs == map[]
  {
    hide Sum, AlwaysExact;
    AlwaysExactIff(stage, replicas);
    var counts: map<Key, int> := map[KEY_NIL := -1];
    assert counts in stage.eofs && stage.Read(counts) == if stage.key == KEY_NIL then -1 else 0;
    if stage.key != KEY_NIL && stage.work.outs != map[] {
      var o :| o in stage.work.outs;
      SizedWithout(stage.work, stage.work.outs[o].parent);
      assert !Harmless(stage, replicas, counts);
    }
  }

  /** Such a run. */
  lemma GaveUpMisread(stage: Stage, replicas: nat, o: MsgId) returns (run: seq<State>)
    requires Derived(stage.work) && NoneEmpty(stage.work) && replicas > 0 && o in stage.work.outs
    requires stage.key != KEY_NIL && map[KEY_NIL := -1] in stage.eofs
    ensures EndsInexact(stage, replicas, run)
  {
    hide Sum, EndsInexact, NoneEmpty;
    SizedWithout(stage.work, stage.work.outs[o].parent);
    run := TooLittle(stage, replicas, map[KEY_NIL := -1], o);
  }
}
