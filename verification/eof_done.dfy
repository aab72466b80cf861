// What an empty union of reports shows: that an earlier leader finished, exactly if some
// replica had a batch on record and saved before the EOF came.
module EofDone {
  import opened Bytes
  import opened Dedup
  import opened Sums
  import opened EofControl
  import opened EofBarrier
  import opened EofRuns
  import opened Coordinators

  function Received(t: Option<Tally>): map<MsgId, nat> {
    if t.Some? then t.value.rcv else map[]
  }

  function OnRecord(node: Node): map<MsgId, nat> {
    if node.member.Some? then node.member.value.tally.rcv else map[]
  }

  /** No control message has been sent yet; nothing is saved that is not on record. */
  ghost predicate Quiet(s: State) {
    && s.net == {} && s.emitted == []
    && forall n <- s.nodes ::
         && (s.nodes[n].member.Some? ==> !s.nodes[n].member.value.leader && s.nodes[n].member.value.infos == map[])
         && (Received(s.nodes[n].snap) != map[] ==> OnRecord(s.nodes[n]) != map[])
  }

  /** The guard: some replica has a batch on record that a crash will not take. */
  ghost predicate SavedSome(s: State) {
    exists n <- s.nodes :: Received(s.nodes[n].snap) != map[]
  }

  /** Before an EOF is handled, all is quiet. */
  lemma {:induction false} QuietBeforeEof(stage: Stage, run: seq<State>, i: nat)
    requires IsRun(stage, run) && i < |run| && run[i].terms == [] && run[i].emitted == []
    ensures Quiet(run[i])
  {
    hide Next, Quiet;
    if i > 0 {
      StaysQuiet(stage, run[i - 1], run[i]);
      QuietBeforeEof(stage, run, i - 1);
    } else {
      InitIsQuiet(run[0]);
    }
  }

  lemma InitIsQuiet(s: State)
    requires Init(s)
    ensures Quiet(s)
  {
  }

  lemma StaysQuiet(stage: Stage, s: State, s': State)
    requires Next(stage, s, s') && s'.terms == [] && s'.emitted == []
    ensures s.terms == [] && s.emitted == []
    ensures Quiet(s) ==> Quiet(s')
  {
    hide Quiet;
    if n, b :| Take(stage, s, n, b, s') {
      QuietNode(s, n, s');
    } else if n, o :| Publish(stage, s, n, o, s') {
      assert s'.nodes == s.nodes[n := s.nodes[n]];
      QuietNode(s, n, s');
    } else if n, o :| RecordSent(stage, s, n, o, s') {
      hide Tally.WithSent;
      RecordSentKeepsReceived(stage, s, n, o, s');
      QuietNode(s, n, s');
    } else if n :| RecordReceived(stage, s, n, s') {
      QuietNode(s, n, s');
    } else if n :| SaveSnapshot(s, n, s') {
      QuietNode(s, n, s');
    } else if n :| Crash(s, n, s') {
      QuietNode(s, n, s');
    } else if n, counts, ack, m', out :| Sync(stage, s, n, counts, ack, m', out, s') {
      assert false;
    } else if n, msg, m', out :| Deliver(stage, s, n, msg, m', out, s') {
      hide Handled;
      NothingToDeliver(s, msg);
    }
  }

  lemma NothingToDeliver(s: State, msg: Control)
    requires msg in s.net
    ensures !Quiet(s)
  {
  }

  lemma RecordSentKeepsReceived(stage: Stage, s: State, n: nat, o: MsgId, s': State)
    requires RecordSent(stage, s, n, o, s')
    ensures OnRecord(s'.nodes[n]) == OnRecord(s.nodes[n])
  {
    WithSentCounts(Known(s.nodes[n].member).tally, stage.work.outs[o].key, o, stage.work.outs[o].count, KEY_NIL, o);
  }

  /** A step on one quiet replica. */
  lemma QuietNode(s: State, n: nat, s': State)
    requires n in s.nodes && n in s'.nodes && s' == s.(nodes := s.nodes[n := s'.nodes[n]], published := s'.published)
    requires var (node, node') := (s.nodes[n], s'.nodes[n]);
             && (node'.member.Some? ==>
                   (node.member.Some? && node'.member.value.leader == node.member.value.leader
                    && node'.member.value.infos == node.member.value.infos)
                   || (!node'.member.value.leader && node'.member.value.infos == map[]))
             && ((Received(node.snap) != map[] ==> OnRecord(node) != map[]) ==>
                   Received(node'.snap) != map[] ==> OnRecord(node') != map[])
    ensures Quiet(s) ==> Quiet(s')
  {
  }

  // ---------------------------------------------------------------- the branch

  /** The last missing answer arrives, nobody reports a batch, and the leader expects some. */
  ghost predicate FindsNothing(stage: Stage, s: State, n: nat, msg: Control, s': State) {
    && msg.AmountResponse?
    && (exists m', out :: Deliver(stage, s, n, msg, m', out, s'))
    && s.nodes[n].member.Some?
    && var m := s.nodes[n].member.value;
       var infos := m.infos[msg.sender := msg.tally];
       m.leader && m.expected > 0 && |infos| == |s.nodes| && NoneReceived(infos)
  }

  ghost predicate TakesEmptyUnion(stage: Stage, s: State, s': State) {
    exists n, msg :: FindsNothing(stage, s, n, msg, s')
  }

  /** From here, the branch is taken behind an emission only, as its comment says. */
  ghost predicate EmptyMeansDone(stage: Stage, s: State) {
    forall run: seq<State> ::
      Steps(stage, run) && run[0] == s && |run| > 1 && TakesEmptyUnion(stage, run[|run| - 2], run[|run| - 1]) ==>
        run[|run| - 2].emitted != []
  }

  /** It is that branch: the leader forgets the client and acknowledges the EOF, and emits nothing. */
  lemma FindingNothingEnds(stage: Stage, s: State, n: nat, msg: Control, s': State)
    requires FindsNothing(stage, s, n, msg, s')
    ensures n in s'.nodes && s'.nodes[n].member == None && s'.emitted == s.emitted
  {
    hide Checked, NoneReceived, Sends, Emissions, Rounds, Flushes;
    var m', out :| Deliver(stage, s, n, msg, m', out, s');
    var m := s.nodes[n].member.value;
    EmptyIsForgotten(SettingsOf(stage, s, n), m.(infos := m.infos[msg.sender := msg.tally]), m', out);
  }

  lemma EmptyIsForgotten(cfg: Settings, m: Member, m': Option<Member>, out: seq<Effect>)
    requires Checked(cfg, m, m', out) && NoneReceived(m.infos) && m.expected > 0
    ensures m' == None && Emissions(out) == []
  {
    hide Sum, IsUnion, IsSentUnion, ReceivedParts, NoneReceived, Totals, Emissions;
    var received: map<MsgId, nat>, sent: map<Key, map<MsgId, nat>> :|
      IsUnion(ReceivedParts(m.infos), received) && IsSentUnion(m.infos, sent)
      && Decided(cfg, m, received, sent, m', out);
    EmptyReceived(m.infos, received);
    NoEffect();
    if m.ack.Some? {
      OneEffect(FireAck(m.ack.value));
    }
  }

  lemma EmptyReceived(infos: map<nat, Tally>, received: map<MsgId, nat>)
    requires NoneReceived(infos) && IsUnion(ReceivedParts(infos), received)
    ensures received == map[] && Sum(received) == 0
  {
    hide IsUnion, ReceivedParts;
    if received != map[] {
      var id :| id in received;
      var n := ReceivedFrom(infos, received, id);
    }
  }

  // ---------------------------------------------------------------- if some batch is saved

  /** Replica r has a saved batch, and whoever has heard from it knows. */
  ghost predicate Anchored(s: State, r: nat) {
    && r in s.nodes && OnRecord(s.nodes[r]) != map[] && Received(s.nodes[r].snap) != map[]
    && (forall msg <- s.net :: TellsOf(s, r, msg))
    && (forall n <- s.nodes :: s.nodes[n].member.Some? ==> KnowsOf(s.nodes.Keys, r, s.nodes[n].member.value.infos))
  }

  predicate TellsOf(s: State, r: nat, msg: Control) {
    !msg.Flush? && !msg.RetryExceeded?
    && (msg.AmountResponse? ==> msg.sender in s.nodes && (msg.sender == r ==> msg.tally.rcv != map[]))
  }

  predicate KnowsOf(nodes: set<nat>, r: nat, infos: map<nat, Tally>) {
    infos.Keys <= nodes && (r in infos ==> infos[r].rcv != map[])
  }

  lemma AnchoredNode(s: State, r: nat, n: nat, s': State)
    requires Anchored(s, r) && n in s.nodes && n in s'.nodes && s'.nodes == s.nodes[n := s'.nodes[n]]
    requires forall msg <- s'.net :: msg in s.net || TellsOf(s, r, msg)
    requires s'.nodes[n].member.Some? ==> KnowsOf(s.nodes.Keys, r, s'.nodes[n].member.value.infos)
    requires n == r ==> OnRecord(s'.nodes[r]) != map[] && Received(s'.nodes[r].snap) != map[]
    ensures Anchored(s', r)
  {
    assert s'.nodes.Keys == s.nodes.Keys;
    hide KnowsOf;
  }

  /** Steps of one replica on its own: what it has heard is kept, or forgotten. */
  ghost predicate Local(stage: Stage, s: State, n: nat, s': State) {
    || (exists b :: Take(stage, s, n, b, s'))
    || (exists o :: Publish(stage, s, n, o, s'))
    || (exists o :: RecordSent(stage, s, n, o, s'))
    || RecordReceived(stage, s, n, s')
    || SaveSnapshot(s, n, s')
    || Crash(s, n, s')
  }

  lemma LocalFrame(stage: Stage, s: State, n: nat, s': State)
    requires Local(stage, s, n, s')
    ensures n in s.nodes && n in s'.nodes && s'.nodes == s.nodes[n := s'.nodes[n]] && s'.net == s.net
    ensures s'.nodes[n].member.Some? ==> s'.nodes[n].member.value.infos in {map[], Known(s.nodes[n].member).infos}
  {
    hide Tally.WithSent;
  }

  lemma LocalRecords(stage: Stage, s: State, n: nat, s': State)
    requires Local(stage, s, n, s') && n in s.nodes && n in s'.nodes
    requires OnRecord(s.nodes[n]) != map[] && Received(s.nodes[n].snap) != map[]
    ensures OnRecord(s'.nodes[n]) != map[] && Received(s'.nodes[n].snap) != map[]
  {
    if o :| RecordSent(stage, s, n, o, s') {
      hide Tally.WithSent;
      RecordSentKeepsReceived(stage, s, n, o, s');
    } else if RecordReceived(stage, s, n, s') {
      assert s.nodes[n].hand.value.batch in OnRecord(s'.nodes[n]);
    }
  }

  lemma LocalAnchored(stage: Stage, s: State, r: nat, n: nat, s': State)
    requires Anchored(s, r) && Local(stage, s, n, s')
    ensures Anchored(s', r)
  {
    hide TellsOf, Anchored, KnowsOf, OnRecord, Received, Local;
    AnchorInfos(s, r);
    LocalFrame(stage, s, n, s');
    if n == r {
      LocalRecords(stage, s, n, s');
    }
    AnchoredNode(s, r, n, s');
  }

  lemma AnchorInfos(s: State, r: nat)
    requires Anchored(s, r)
    ensures r in s.nodes && OnRecord(s.nodes[r]) != map[] && Received(s.nodes[r].snap) != map[]
    ensures forall n <- s.nodes :: s.nodes[n].member.Some? ==> KnowsOf(s.nodes.Keys, r, s.nodes[n].member.value.infos)
    ensures KnowsOf(s.nodes.Keys, r, map[])
  {
  }

  lemma SyncAnchored(stage: Stage, s: State, r: nat, n: nat, counts: map<Key, int>, ack: AckTag, m': Option<Member>,
                     out: seq<Effect>, s': State)
    requires Anchored(s, r) && Sync(stage, s, n, counts, ack, m', out, s')
    ensures s'.emitted != [] || Anchored(s', r)
  {
    hide TellsOf, Anchored, KnowsOf, Rounds, Flushes;
    AnchorInfos(s, r);
    if m'.Some? {
      OneEffect(Send(AmountRequest(n)));
      assert TellsOf(s, r, AmountRequest(n)) by {
        RequestTells(s, r, n);
      }
      AnchoredNode(s, r, n, s');
    }
  }

  lemma RequestTells(s: State, r: nat, n: nat)
    ensures TellsOf(s, r, AmountRequest(n))
  {
  }

  /** A leader that has heard from all has heard from r. */
  lemma HeardFromAll(nodes: set<nat>, r: nat, infos: map<nat, Tally>)
    requires KnowsOf(nodes, r, infos) && r in nodes && |infos| == |nodes|
    ensures !NoneReceived(infos)
  {
    assert |infos| == |infos.Keys|;
    assert nodes == infos.Keys + (nodes - infos.Keys);
    assert r in infos;
  }

  /** What a control message can do while the anchor holds: emit, or tell no more than the truth. */
  lemma HandledAnchored(stage: Stage, s: State, r: nat, n: nat, msg: Control, m': Option<Member>, out: seq<Effect>)
    requires Anchored(s, r) && n in s.nodes && msg in s.net
    requires EofControl.Handled(SettingsOf(stage, s, n), s.nodes[n].member, msg, m', out)
    ensures Emissions(out) != []
            || (&& m'.Some? && m'.value.tally == Known(s.nodes[n].member).tally
               && KnowsOf(s.nodes.Keys, r, m'.value.infos)
                && forall sent <- Sends(out) :: TellsOf(s, r, sent))
            || (m' == s.nodes[n].member && out == [])
  {
    hide Checked, Emissions, Responded;
    assert TellsOf(s, r, msg);
    AnchorInfos(s, r);
    match msg {
      case AmountRequest(requester) => OneEffect(out[0]);
      case AmountResponse(_, sender, tally) =>
        ResponseAnchored(stage, s, r, n, sender, tally, m', out);
      case Flush(_) =>
      case RetryExceeded =>
    }
  }

  lemma ResponseAnchored(stage: Stage, s: State, r: nat, n: nat, sender: nat, tally: Tally, m': Option<Member>,
                         out: seq<Effect>)
    requires r in s.nodes && n in s.nodes && sender in s.nodes && (sender == r ==> tally.rcv != map[])
    requires s.nodes[n].member.Some? ==> KnowsOf(s.nodes.Keys, r, s.nodes[n].member.value.infos)
    requires Responded(SettingsOf(stage, s, n), s.nodes[n].member, sender, tally, m', out)
    ensures Emissions(out) != []
            || (&& m'.Some? && m'.value.tally == Known(s.nodes[n].member).tally
               && KnowsOf(s.nodes.Keys, r, m'.value.infos)
                && forall sent <- Sends(out) :: TellsOf(s, r, sent))
            || (m' == s.nodes[n].member && out == [])
  {
    hide IsUnion, IsSentUnion, ReceivedParts, Sum, Totals, NoneReceived;
    if s.nodes[n].member.Some? && s.nodes[n].member.value.leader {
      var m := s.nodes[n].member.value;
      var heard := m.(infos := m.infos[sender := tally]);
      assert KnowsOf(s.nodes.Keys, r, heard.infos);
      if |heard.infos| == |s.nodes| {
        assert |s.nodes| == |s.nodes.Keys|;
        HeardFromAll(s.nodes.Keys, r, heard.infos);
        DecisionAnchored(s, r, SettingsOf(stage, s, n), heard, m', out);
      }
    }
  }

  lemma DecisionAnchored(s: State, r: nat, cfg: Settings, m: Member, m': Option<Member>, out: seq<Effect>)
    requires Checked(cfg, m, m', out) && !NoneReceived(m.infos)
    ensures Emissions(out) != []
            || (&& m'.Some? && m'.value.tally == m.tally && m'.value.infos == map[]
                && forall sent <- Sends(out) :: TellsOf(s, r, sent))
  {
    hide IsUnion, IsSentUnion, ReceivedParts, Sum, Totals;
    var received: map<MsgId, nat>, sent: map<Key, map<MsgId, nat>> :|
      IsUnion(ReceivedParts(m.infos), received) && IsSentUnion(m.infos, sent)
          && Decided(cfg, m, received, sent, m', out);
    if Sum(received) >= m.expected {
      assert out[0] == LeaderFlush(Totals(sent));
    } else if cfg.maxRetries > 0 && m.retries + 1 > cfg.maxRetries {
      assert out[1] == OnRetryExceeded && out[1..][0] == out[1];
      assert Emissions(out[1..]) != [];
    } else {
      OneEffect(Send(AmountRequest(cfg.self)));
      RequestTells(s, r, cfg.self);
    }
  }

  lemma DeliverAnchored(stage: Stage, s: State, r: nat, n: nat, msg: Control, m': Option<Member>, out: seq<Effect>,
                        s': State)
    requires Anchored(s, r) && Deliver(stage, s, n, msg, m', out, s')
    ensures s'.emitted != [] || Anchored(s', r)
  {
    hide TellsOf, Anchored, KnowsOf, Rounds, Flushes, EofControl.Handled, Emissions;
    AnchorInfos(s, r);
    HandledAnchored(stage, s, r, n, msg, m', out);
    if Emissions(out) == [] {
      if m' == s.nodes[n].member && out == [] {
        NoEffect();
      }
      AnchoredNode(s, r, n, s');
    }
  }

  lemma NextAnchored(stage: Stage, s: State, r: nat, s': State)
    requires Next(stage, s, s') && (s.emitted != [] || Anchored(s, r))
    ensures s'.emitted != [] || Anchored(s', r)
  {
    hide Anchored, Local, Take, Publish, RecordSent, RecordReceived, SaveSnapshot, Crash, Sync, Deliver;
    if s.emitted != [] {
      EmittedGrows(stage, s, s');
    } else if n, counts, ack, m', out :| Sync(stage, s, n, counts, ack, m', out, s') {
      SyncAnchored(stage, s, r, n, counts, ack, m', out, s');
    } else if n, msg, m', out :| Deliver(stage, s, n, msg, m', out, s') {
      DeliverAnchored(stage, s, r, n, msg, m', out, s');
    } else {
      var n := LocalSomewhere(stage, s, s');
      LocalAnchored(stage, s, r, n, s');
    }
  }

  lemma LocalSomewhere(stage: Stage, s: State, s': State) returns (n: nat)
    requires Next(stage, s, s')
    requires forall n, counts, ack, m', out :: !Sync(stage, s, n, counts, ack, m', out, s')
    requires forall n, msg, m', out :: !Deliver(stage, s, n, msg, m', out, s')
    ensures Local(stage, s, n, s')
  {
    hide Take, Publish, RecordSent, RecordReceived, SaveSnapshot, Crash, Sync, Deliver;
    if k, b :| Take(stage, s, k, b, s') {
      n := k;
    } else if k, o :| Publish(stage, s, k, o, s') {
      n := k;
    } else if k, o :| RecordSent(stage, s, k, o, s') {
      n := k;
    } else if k :| RecordReceived(stage, s, k, s') {
      n := k;
    } else if k :| SaveSnapshot(s, k, s') {
      n := k;
    } else {
      n :| Crash(s, n, s');
    }
  }

  lemma EmittedGrows(stage: Stage, s: State, s': State)
    requires Next(stage, s, s')
    ensures s.emitted <= s'.emitted
  {
    hide EofControl.Handled, Synced;
  }

  lemma {:induction false} AnchoredOn(stage: Stage, run: seq<State>, i: nat, r: nat)
    requires Steps(stage, run) && i < |run| && Anchored(run[0], r)
    ensures run[i].emitted != [] || Anchored(run[i], r)
  {
    hide Next, Anchored;
    if i > 0 {
      AnchoredOn(stage, run, i - 1, r);
      NextAnchored(stage, run[i - 1], r, run[i]);
    }
  }

  lemma AnchoredFindsSome(stage: Stage, s: State, r: nat, n: nat, msg: Control, s': State)
    requires Anchored(s, r)
    ensures !FindsNothing(stage, s, n, msg, s')
  {
    hide Deliver, NoneReceived;
    if FindsNothing(stage, s, n, msg, s') {
      DeliverFrom(stage, s, n, msg, s');
      assert TellsOf(s, r, msg);
      var infos := s.nodes[n].member.value.infos[msg.sender := msg.tally];
      assert |s.nodes| == |s.nodes.Keys|;
      HeardFromAll(s.nodes.Keys, r, infos);
    }
  }

  lemma DeliverFrom(stage: Stage, s: State, n: nat, msg: Control, s': State)
    requires FindsNothing(stage, s, n, msg, s')
    ensures n in s.nodes && msg in s.net
  {
  }

  lemma SavedMeansDone(stage: Stage, s: State)
    requires Quiet(s) && SavedSome(s)
    ensures EmptyMeansDone(stage, s)
  {
    hide Next, FindsNothing;
    var r :| r in s.nodes && Received(s.nodes[r].snap) != map[];
    assert Anchored(s, r);
    hide Anchored;
    forall run: seq<State> | Steps(stage, run) && run[0] == s && |run| > 1
                             && TakesEmptyUnion(stage, run[|run| - 2], run[|run| - 1])
      ensures run[|run| - 2].emitted != []
    {
      AnchoredOn(stage, run, |run| - 2, r);
      var n, msg :| FindsNothing(stage, run[|run| - 2], n, msg, run[|run| - 1]);
      if Anchored(run[|run| - 2], r) {
        AnchoredFindsSome(stage, run[|run| - 2], r, n, msg, run[|run| - 1]);
      }
    }
  }

  // ---------------------------------------------------------------- if none is

  /** Every replica is between two batches and has nothing on record. */
  ghost predicate Bare(s: State, nodes: set<nat>) {
    forall n <- nodes :: n in s.nodes && s.nodes[n].hand.None? && OnRecord(s.nodes[n]) == map[]
  }

  lemma CrashNext(stage: Stage, s: State, n: nat, s': State)
    requires Crash(s, n, s')
    ensures Leads(stage, s, s')
  {
    assert Next(stage, s, s') by {
      hide Crash;
    }
    hide Next;
    LeadsStep(stage, s, s');
  }

  /** Everyone crashes, and what was on record is gone. */
  lemma {:induction false} CrashesAll(stage: Stage, s: State, nodes: set<nat>) returns (s': State)
    requires Quiet(s) && !SavedSome(s) && nodes <= s.nodes.Keys
    ensures Leads(stage, s, s') && Quiet(s') && !SavedSome(s') && Bare(s', nodes) && s'.nodes.Keys == s.nodes.Keys
  {
    if nodes == {} {
      s' := s;
      LeadsNowhere(stage, s);
    } else {
      hide Leads;
      var n :| n in nodes;
      var mid := CrashesAll(stage, s, nodes - {n});
      var node := mid.nodes[n];
      s' := mid.(nodes := mid.nodes[n := node.(hand := None,
                 member := if node.snap.Some? then Some(NEW_MEMBER.(tally := node.snap.value)) else None)]);
      assert Crash(mid, n, s');
      CrashNext(stage, mid, n, s');
      LeadsOn(stage, s, mid, s');
    }
  }

  lemma {:induction false} SomeUnion(parts: set<map<MsgId, nat>>) returns (u: map<MsgId, nat>)
    ensures IsUnion(parts, u)
  {
    if parts == {} {
      u := map[];
    } else {
      hide IsUnion;
      var p :| p in parts;
      u := SomeUnion(parts - {p});
      UnionGrows(parts - {p}, u, p);
      assert parts - {p} + {p} == parts;
      u := u + p;
    }
  }

  lemma {:induction false} SomeUnions(infos: map<nat, Tally>, keys: set<Key>) returns (u: map<Key, map<MsgId, nat>>)
    ensures u.Keys == keys && forall key <- keys :: IsUnion(SentParts(infos, key), u[key])
  {
    hide IsUnion, SentParts;
    if keys == {} {
      u := map[];
    } else {
      var key :| key in keys;
      u := SomeUnions(infos, keys - {key});
      var one := SomeUnion(SentParts(infos, key));
      u := u[key := one];
    }
  }

  lemma SomeSentUnion(infos: map<nat, Tally>) returns (u: map<Key, map<MsgId, nat>>)
    ensures IsSentUnion(infos, u)
  {
    hide IsUnion;
    u := SomeUnions(infos, set n <- infos, key <- infos[n].sent :: key);
    forall key <- u ensures SentParts(infos, key) != {} {
      var n :| n in infos && key in infos[n].sent;
      assert infos[n].sent[key] in SentParts(infos, key);
    }
  }

  /** One replica leads, asks, and finds nothing. */
  lemma FindsNothingNext(stage: Stage, s: State, n: nat, counts: map<Key, int>) returns (ready: State, last: State)
    requires Quiet(s) && Bare(s, s.nodes.Keys) && n in s.nodes && counts in stage.eofs && stage.Read(counts) > 0
    ensures Leads(stage, s, ready) && Next(stage, ready, last) && TakesEmptyUnion(stage, ready, last)
            && ready.emitted == []
  {
    hide Leads, Asked, Next, TakesEmptyUnion;
    var lead := Asking(s, n, stage.Read(counts), 0);
    Syncs(stage, s, n, counts, 0);
    ready := AsksAll(stage, lead, n);
    LeadsOn(stage, s, lead, ready);
    assert forall k <- lead.nodes :: TallyOf(lead, k).rcv == map[];
    last := LastFindsNothing(stage, lead, n, ready);
    AskedEmitted(lead, n, ready);
  }

  lemma AskedEmitted(s: State, n: nat, s': State)
    requires Leader(s, n) && Asked(s, n, s.nodes.Keys - {n}, s')
    ensures s'.emitted == s.emitted
  {
  }

  lemma NothingHeard(s: State, n: nat, s': State)
    requires Leader(s, n) && Asked(s, n, s.nodes.Keys - {n}, s') && forall k <- s.nodes :: TallyOf(s, k).rcv == map[]
    ensures n in s'.nodes && s'.nodes[n].member.Some? && s'.nodes[n].hand == s.nodes[n].hand
    ensures var m := s'.nodes[n].member.value; var infos := m.infos[n := TallyOf(s, n)];
            m.leader && m.expected == s.nodes[n].member.value.expected && NoneReceived(infos) && |infos| == |s'.nodes|
  {
    AllHeard(s, n, s');
  }

  /** An empty union ends a leadership that expects something. */
  lemma EmptyUnionEnds(cfg: Settings, m: Member, k: nat, t: Tally)
    requires m.leader && |m.infos[k := t]| == cfg.nodes && m.expected > 0 && NoneReceived(m.infos[k := t])
    ensures Responded(cfg, Some(m), k, t, None, FireIf(m.ack))
  {
    hide Sum, IsSentUnion;
    var heard := m.(infos := m.infos[k := t]);
    var sent := SomeSentUnion(heard.infos);
    assert IsUnion(ReceivedParts(heard.infos), map[]) by {
      EmptyIsUnion(heard.infos);
    }
    EmptyReceived(heard.infos, map[]);
    hide IsUnion, ReceivedParts;
    assert Decided(cfg, heard, map[], sent, None, FireIf(m.ack));
  }

  lemma EmptyIsUnion(infos: map<nat, Tally>)
    requires NoneReceived(infos)
    ensures IsUnion(ReceivedParts(infos), map[])
  {
  }

  lemma LastFindsNothing(stage: Stage, s: State, n: nat, s': State) returns (last: State)
    requires Leader(s, n) && Asked(s, n, s.nodes.Keys - {n}, s') && AmountResponse(n, n, TallyOf(s, n)) in s'.net
    requires s.nodes[n].hand.None? && s.nodes[n].member.value.expected > 0
    requires forall k <- s.nodes :: TallyOf(s, k).rcv == map[]
    ensures Next(stage, s', last) && TakesEmptyUnion(stage, s', last)
  {
    hide Asked, Responded, NoneReceived, Next, Deliver;
    NothingHeard(s, n, s');
    var m, msg := s'.nodes[n].member.value, AmountResponse(n, n, TallyOf(s, n));
    EmptyUnionEnds(SettingsOf(stage, s', n), m, n, TallyOf(s, n));
    DeliversQuietly(stage, s', n, msg, None, FireIf(m.ack));
    last := s'.(nodes := s'.nodes[n := s'.nodes[n].(member := None)], net := s'.net + {},
                terms := TermsBehind(s', s'.nodes[n], FireIf(m.ack)));
    DeliverNext(stage, s', n, msg, None, FireIf(m.ack), last);
    assert FindsNothing(stage, s', n, msg, last);
  }

  lemma NoneSavedNotDone(stage: Stage, s: State, counts: map<Key, int>)
    requires Quiet(s) && !SavedSome(s) && s.nodes != map[] && counts in stage.eofs && stage.Read(counts) > 0
    ensures !EmptyMeansDone(stage, s)
  {
    hide Leads, Next, TakesEmptyUnion, Quiet, SavedSome;
    var bare := CrashesAll(stage, s, s.nodes.Keys);
    var n :| n in s.nodes;
    var ready, last := FindsNothingNext(stage, bare, n, counts);
    LeadsOn(stage, s, bare, ready);
    RunsInto(stage, s, ready, last);
  }

  lemma RunsInto(stage: Stage, s: State, ready: State, last: State)
    requires Leads(stage, s, ready) && Next(stage, ready, last) && TakesEmptyUnion(stage, ready, last)
             && ready.emitted == []
    ensures !EmptyMeansDone(stage, s)
  {
    hide Next, TakesEmptyUnion;
    var run: seq<State> :| Steps(stage, run) && run[0] == s && run[|run| - 1] == ready;
    assert Steps(stage, [ready, last]);
    StepsAppend(stage, run, [ready, last]);
    var more := run + [ready, last][1..];
    assert more[|more| - 2] == ready && more[|more| - 1] == last;
  }

  // ---------------------------------------------------------------- exactly when

  /** Leaders wait for totals that were announced. */
  ghost predicate Waits(stage: Stage, s: State) {
    forall n <- s.nodes :: s.nodes[n].member.Some? && s.nodes[n].member.value.leader ==>
                             s.nodes[n].member.value.expected in stage.Totals()
  }

  lemma NextWaits(stage: Stage, s: State, s': State)
    requires Waits(stage, s) && Next(stage, s, s')
    ensures Waits(stage, s')
  {
    hide Tally.WithSent, IsUnion, IsSentUnion, ReceivedParts, Sum, Totals, NoneReceived;
  }

  lemma {:induction false} WaitsOn(stage: Stage, run: seq<State>, i: nat)
    requires Steps(stage, run) && i < |run| && Waits(stage, run[0])
    ensures Waits(stage, run[i])
  {
    hide Next, Waits;
    if i > 0 {
      WaitsOn(stage, run, i - 1);
      NextWaits(stage, run[i - 1], run[i]);
    }
  }

  lemma NothingExpected(stage: Stage, s: State)
    requires Quiet(s) && forall counts <- stage.eofs :: stage.Read(counts) <= 0
    ensures EmptyMeansDone(stage, s)
  {
    hide Next, Deliver;
    forall run: seq<State> | Steps(stage, run) && run[0] == s && |run| > 1
      ensures !TakesEmptyUnion(stage, run[|run| - 2], run[|run| - 1])
    {
      WaitsOn(stage, run, |run| - 2);
      NeverTaken(stage, run[|run| - 2], run[|run| - 1]);
    }
  }

  lemma NeverTaken(stage: Stage, s: State, s': State)
    requires Waits(stage, s) && forall counts <- stage.eofs :: stage.Read(counts) <= 0
    ensures !TakesEmptyUnion(stage, s, s')
  {
    hide Deliver;
    forall n, msg ensures !FindsNothing(stage, s, n, msg, s') {
      if FindsNothing(stage, s, n, msg, s') {
        DeliverFrom(stage, s, n, msg, s');
      }
    }
  }

  /** An empty union shows that an earlier leader finished, in all runs from before the first EOF, exactly if
      some replica has a batch on record and saved by then, or no EOF announces anything. In the run that shows
      the converse every replica has lost its record when the EOF comes, so that a Flush in front of SyncEof
      has nothing to save; a single replica must then be given the EOF in front of the batches put back. */
  lemma EmptyMeansDoneIff(stage: Stage, s: State)
    requires Quiet(s) && s.nodes != map[]
    ensures EmptyMeansDone(stage, s) <==> SavedSome(s) || forall counts <- stage.eofs :: stage.Read(counts) <= 0
  {
    hide EmptyMeansDone, Quiet, SavedSome;
    if SavedSome(s) {
      SavedMeansDone(stage, s);
    } else if forall counts <- stage.eofs :: stage.Read(counts) <= 0 {
      NothingExpected(stage, s);
    } else {
      var counts :| counts in stage.eofs && stage.Read(counts) > 0;
      NoneSavedNotDone(stage, s, counts);
    }
  }

  /** So in a whole run: the branch is taken behind an emission if a batch was saved when the EOF came. */
  lemma SavedBeforeEof(stage: Stage, run: seq<State>, i: nat, j: nat)
    requires IsRun(stage, run) && i <= j < |run| - 1 && run[i].terms == [] && run[i].emitted == []
    requires SavedSome(run[i]) && TakesEmptyUnion(stage, run[j], run[j + 1])
    ensures run[j].emitted != []
  {
    hide Next, TakesEmptyUnion, Quiet, SavedSome;
    QuietBeforeEof(stage, run, i);
    SavedMeansDone(stage, run[i]);
    var part := run[i..j + 2];
    assert part[0] == run[i] && part[|part| - 2] == run[j] && part[|part| - 1] == run[j + 1];
    assert Steps(stage, part);
  }
}
