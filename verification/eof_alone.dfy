// A stage of one replica: it leads once, so that no cleanup can come before its count unless
// a flush signal was passed on.
module EofAlone {
  import opened Bytes
  import opened Dedup
  import opened Sums
  import opened EofControl
  import opened EofBarrier
  import opened EofRounds
  import opened EofRuns
  import opened EofDone
  import opened Coordinators

  /** No replica takes the lead twice: dedup drops the EOF on a replica that has seen it. */
  ghost predicate EachLeadsOnce(s: State) {
    forall i, j :: 0 <= i < j < |s.terms| ==> s.terms[i].leader != s.terms[j].leader
  }

  /** The stage with the client forgotten between batches only. */
  function Ordered(stage: Stage): Stage {
    stage.(orderly := true)
  }

  ghost predicate NoneFlushed(s: State) {
    forall msg <- s.net :: !msg.Flush? && !msg.RetryExceeded?
  }

  ghost predicate AllExact(stage: Stage, s: State) {
    forall e <- s.emitted :: Exact(stage, s.published, e)
  }

  /** Before the replica leads, while it does, and behind that. */
  ghost predicate Alone(stage: Stage, w: nat, s: State) {
    && s.nodes.Keys == {w}
    && if s.terms == [] then s.net == {} && s.emitted == [] && !Leading(s.nodes[w]) && Invariant(Ordered(stage), s)
       else
         && (forall t <- s.terms :: t.leader == w)
         && AllExact(stage, s)
         && (Leading(s.nodes[w]) ==> NoneFlushed(s) && Invariant(Ordered(stage), s))
  }

  /** In an ordered stage that is told enough, what was emitted is exact. */
  lemma OrderedIsExact(stage: Stage, s: State)
    requires Announced(stage) && Invariant(Ordered(stage), s)
    ensures AllExact(stage, s)
  {
    hide NodeInvariant, MessageInvariant, Awaited, ExactCounts, Stage.Totals;
    assert Safe(Ordered(stage)) by {
      assert forall counts :: Ordered(stage).Read(counts) == stage.Read(counts);
    }
    forall e <- s.emitted ensures Exact(stage, s.published, e) {
      assert EmissionInvariant(Ordered(stage), s.published, e);
    }
  }

  lemma LocalIsOrdered(stage: Stage, s: State, n: nat, s': State)
    requires Local(stage, s, n, s')
    ensures Next(Ordered(stage), s, s')
    ensures n in s.nodes && s'.nodes.Keys == s.nodes.Keys
    ensures s'.net == s.net && s'.emitted == s.emitted && s'.terms == s.terms
    ensures s.published <= s'.published && (Leading(s'.nodes[n]) ==> Leading(s.nodes[n]))
  {
    hide Tally.WithSent;
    if b :| Take(stage, s, n, b, s') {
      assert Take(Ordered(stage), s, n, b, s');
    } else if o :| Publish(stage, s, n, o, s') {
      assert Publish(Ordered(stage), s, n, o, s');
    } else if o :| RecordSent(stage, s, n, o, s') {
      assert RecordSent(Ordered(stage), s, n, o, s');
    } else if RecordReceived(stage, s, n, s') {
      assert RecordReceived(Ordered(stage), s, n, s');
    }
  }

  lemma LocalAlone(stage: Stage, w: nat, s: State, n: nat, s': State)
    requires Announced(stage) && Alone(stage, w, s) && Local(stage, s, n, s')
    ensures Alone(stage, w, s')
  {
    hide Local, Next, Announced, Invariant, Exact;
    LocalIsOrdered(stage, s, n, s');
    if s.terms == [] || Leading(s.nodes[w]) {
      NextKeeps(Ordered(stage), s, s');
    }
    ExactGrows(stage, s, s');
  }

  lemma ExactGrows(stage: Stage, s: State, s': State)
    requires s'.emitted == s.emitted && s.published <= s'.published
    ensures AllExact(stage, s) ==> AllExact(stage, s')
  {
    hide ExactCounts;
    if AllExact(stage, s) {
      forall e <- s'.emitted ensures Exact(stage, s'.published, e) {
        assert Exact(stage, s.published, e);
      }
    }
  }

  lemma SecondLead(s: State, s': State, w: nat)
    requires s.terms != [] && |s'.terms| == |s.terms| + 1 && s'.terms[..|s.terms|] == s.terms
    requires s'.terms[|s.terms|].leader == w && forall t <- s.terms :: t.leader == w
    ensures !EachLeadsOnce(s')
  {
    assert s'.terms[0] == s.terms[0] && s.terms[0] in s.terms;
  }

  lemma SyncAlone(stage: Stage, w: nat, s: State, n: nat, counts: map<Key, int>, ack: AckTag, m': Option<Member>,
                  out: seq<Effect>, s': State)
    requires Alone(stage, w, s) && Sync(stage, s, n, counts, ack, m', out, s') && EachLeadsOnce(s')
    requires stage.Read(counts) != -1
    ensures Alone(stage, w, s')
  {
    hide Invariant, Exact;
    assert n == w && m'.Some?;
    if s.terms != [] {
      SecondLead(s, s', w);
    }
    assert Sync(Ordered(stage), s, n, counts, ack, m', out, s');
    SyncKeeps(Ordered(stage), s, n, counts, ack, m', out, s');
    OneEffect(Send(AmountRequest(n)));
  }

  /** What a leader that goes on sends, and that it goes on leading. */
  lemma GoesOn(cfg: Settings, m: Member, msg: Control, m': Option<Member>, out: seq<Effect>)
    requires EofControl.Handled(cfg, Some(m), msg, m', out) && m.leader && m'.Some?
    ensures m'.value.leader && Emissions(out) == []
    ensures forall sent <- Sends(out) :: !sent.Flush? && !sent.RetryExceeded?
  {
    hide Sum, IsUnion, IsSentUnion, ReceivedParts, Totals, NoneReceived;
    NoEffect();
    if out != [] {
      OneEffect(out[0]);
    }
  }

  /** A replica that does not lead emits no counts and does not start to lead. */
  lemma FollowerIsQuiet(cfg: Settings, m: Option<Member>, msg: Control, m': Option<Member>, out: seq<Effect>,
                        e: Emission)
    requires EofControl.Handled(cfg, m, msg, m', out) && (m.None? || !m.value.leader)
    ensures m'.None? || !m'.value.leader
    ensures e in Emissions(out) ==> !e.Counted?
  {
    hide Checked, Emissions;
    if e in Emissions(out) && e.Counted? {
      EmissionsFrom(out, e);
    }
  }

  lemma DeliverFrame(stage: Stage, s: State, n: nat, msg: Control, m': Option<Member>, out: seq<Effect>, s': State)
    requires Deliver(stage, s, n, msg, m', out, s')
    ensures n in s.nodes && s'.nodes == s.nodes[n := s.nodes[n].(member := m')] && s'.published == s.published
    ensures s'.net == s.net + Sends(out) && s'.emitted == s.emitted + Emissions(out) && msg in s.net
    ensures |s'.terms| == |s.terms| && forall i :: 0 <= i < |s.terms| ==> s'.terms[i].leader == s.terms[i].leader
    ensures EofControl.Handled(SettingsOf(stage, s, n), s.nodes[n].member, msg, m', out)
  {
    hide EofControl.Handled, Sends, Emissions, Rounds, Flushes;
  }

  lemma SameLeaders(s: State, s': State, w: nat)
    requires |s'.terms| == |s.terms| && forall i :: 0 <= i < |s.terms| ==> s'.terms[i].leader == s.terms[i].leader
    requires forall t <- s.terms :: t.leader == w
    ensures forall t <- s'.terms :: t.leader == w
  {
    forall t <- s'.terms ensures t.leader == w {
      var i :| 0 <= i < |s'.terms| && s'.terms[i] == t;
      assert s.terms[i] in s.terms;
    }
  }

  /** A leader's message that it survives. */
  lemma LeaderGoesOn(stage: Stage, w: nat, s: State, msg: Control, m': Option<Member>, out: seq<Effect>, s': State)
    requires Alone(stage, w, s) && Leading(s.nodes[w]) && Deliver(stage, s, w, msg, m', out, s') && m'.Some?
    ensures Alone(stage, w, s')
  {
    hide Invariant, Exact, Deliver, EofControl.Handled, Sends, Emissions;
    DeliverFrame(stage, s, w, msg, m', out, s');
    SameLeaders(s, s', w);
    GoesOn(SettingsOf(stage, s, w), s.nodes[w].member.value, msg, m', out);
    assert Deliver(Ordered(stage), s, w, msg, m', out, s') by {
      DeliverOrdered(stage, s, w, msg, m', out, s');
    }
    DeliverKeeps(Ordered(stage), s, w, msg, m', out, s');
    assert s'.emitted == s.emitted;
    ExactGrows(stage, s, s');
  }

  lemma DeliverOrdered(stage: Stage, s: State, n: nat, msg: Control, m': Option<Member>, out: seq<Effect>, s': State)
    requires Deliver(stage, s, n, msg, m', out, s') && m'.Some?
    ensures Deliver(Ordered(stage), s, n, msg, m', out, s')
  {
    hide EofControl.Handled, Sends, Emissions, Rounds, Flushes;
  }

  /** The message that ends the lead: whatever is emitted on it is exact. */
  lemma LeaderEnds(stage: Stage, w: nat, s: State, msg: Control, m': Option<Member>, out: seq<Effect>, s': State)
    requires Announced(stage) && Alone(stage, w, s) && Leading(s.nodes[w]) && Deliver(stage, s, w, msg, m', out, s')
    requires m'.None?
    ensures Alone(stage, w, s')
  {
    hide Exact, Deliver, EofControl.Handled, Sends, Emissions, HonestMember, MessageInvariant, Safe, Announced;
    DeliverFrame(stage, s, w, msg, m', out, s');
    SameLeaders(s, s', w);
    var so := Ordered(stage);
    assert NodeInvariant(so, s.published, s.nodes[w]) && MessageInvariant(so, s.published, msg);
    HandledIsHonest(so, s.published, SettingsOf(stage, s, w), s.nodes[w].member, msg, m', out);
    OrderedIsSafe(stage);
    forall e <- s'.emitted ensures Exact(stage, s'.published, e) {
      if e in Emissions(out) {
        EndsExact(stage, s.published, out, e);
      } else {
        assert e in s.emitted;
      }
    }
  }

  lemma OrderedIsSafe(stage: Stage)
    requires Announced(stage)
    ensures Safe(Ordered(stage))
  {
    assert forall counts :: Ordered(stage).Read(counts) == stage.Read(counts);
  }

  lemma EndsExact(stage: Stage, published: set<MsgId>, out: seq<Effect>, e: Emission)
    requires Safe(Ordered(stage)) && e in Emissions(out)
    requires forall f <- out :: HonestEffect(Ordered(stage), published, f)
    ensures Exact(stage, published, e)
  {
    hide Safe, Emissions, ExactCounts, MessageInvariant, Stage.Totals;
    if e.Counted? {
      EmissionsFrom(out, e);
      assert HonestEffect(Ordered(stage), published, LeaderFlush(e.counts));
    }
  }

  lemma DeliverAlone(stage: Stage, w: nat, s: State, n: nat, msg: Control, m': Option<Member>, out: seq<Effect>,
                     s': State)
    requires Announced(stage) && Alone(stage, w, s) && Deliver(stage, s, n, msg, m', out, s')
    ensures Alone(stage, w, s')
  {
    hide Invariant, Exact, Deliver, EofControl.Handled, Sends, Emissions, Announced;
    DeliverFrame(stage, s, n, msg, m', out, s');
    if !Leading(s.nodes[w]) {
      SameLeaders(s, s', w);
      forall e <- s'.emitted ensures Exact(stage, s'.published, e) {
        if e !in s.emitted {
          FollowerIsQuiet(SettingsOf(stage, s, n), s.nodes[n].member, msg, m', out, e);
          NotCounted(stage, s.published, e);
        }
      }
      FollowerIsQuiet(SettingsOf(stage, s, n), s.nodes[n].member, msg, m', out, GaveUp);
    } else if m'.Some? {
      LeaderGoesOn(stage, w, s, msg, m', out, s');
    } else {
      LeaderEnds(stage, w, s, msg, m', out, s');
    }
  }

  lemma NotCounted(stage: Stage, published: set<MsgId>, e: Emission)
    requires !e.Counted?
    ensures Exact(stage, published, e)
  {
  }

  lemma NextAlone(stage: Stage, w: nat, s: State, s': State)
    requires Announced(stage) && Alone(stage, w, s) && Next(stage, s, s') && EachLeadsOnce(s')
    requires forall counts <- stage.eofs :: stage.Read(counts) != -1
    ensures Alone(stage, w, s')
  {
    hide Alone, Local, Announced, Sync, Deliver, Take, Publish, RecordSent, RecordReceived, SaveSnapshot, Crash,
         EachLeadsOnce;
    if n, counts, ack, m', out :| Sync(stage, s, n, counts, ack, m', out, s') {
      SyncFrom(stage, s, n, counts, ack, m', out, s');
      SyncAlone(stage, w, s, n, counts, ack, m', out, s');
    } else if n, msg, m', out :| Deliver(stage, s, n, msg, m', out, s') {
      DeliverAlone(stage, w, s, n, msg, m', out, s');
    } else {
      var n := LocalSomewhere(stage, s, s');
      LocalAlone(stage, w, s, n, s');
    }
  }

  lemma SyncFrom(stage: Stage, s: State, n: nat, counts: map<Key, int>, ack: AckTag, m': Option<Member>,
                 out: seq<Effect>, s': State)
    requires Sync(stage, s, n, counts, ack, m', out, s')
    ensures counts in stage.eofs
  {
  }

  /** Leaders are not forgotten, so a run whose end has none twice has none twice anywhere. */
  lemma LeadersStay(stage: Stage, s: State, s': State)
    requires Next(stage, s, s') && EachLeadsOnce(s')
    ensures EachLeadsOnce(s)
  {
    hide EofControl.Handled, Synced, Sends, Emissions, Rounds, Flushes, Tally.WithSent;
    if n, counts, ack, m', out :| Sync(stage, s, n, counts, ack, m', out, s') {
      assert forall i :: 0 <= i < |s.terms| ==> s'.terms[i].leader == s.terms[i].leader;
    } else if n, msg, m', out :| Deliver(stage, s, n, msg, m', out, s') {
      DeliverFrame(stage, s, n, msg, m', out, s');
    } else {
      assert s'.terms == s.terms;
    }
  }

  lemma {:induction false} AloneOn(stage: Stage, w: nat, run: seq<State>, i: nat)
    requires Announced(stage) && IsRun(stage, run) && i < |run| && run[0].nodes.Keys == {w} && EachLeadsOnce(run[i])
    requires forall counts <- stage.eofs :: stage.Read(counts) != -1
    ensures Alone(stage, w, run[i])
  {
    hide Next, Announced, EachLeadsOnce;
    if i == 0 {
      hide Invariant;
      Reachable(Ordered(stage), [run[0]], 0);
    } else {
      hide Alone;
      LeadersStay(stage, run[i - 1], run[i]);
      AloneOn(stage, w, run, i - 1);
      NextAlone(stage, w, run[i - 1], run[i]);
    }
  }

  /** A single replica that leads once and is told enough, and never to flush, emits exact counts, also if its
      client may be forgotten in the middle of a batch. */
  lemma AloneIsExact(stage: Stage, run: seq<State>, e: Emission)
    requires Announced(stage) && IsRun(stage, run) && |run[0].nodes| == 1 && EachLeadsOnce(run[|run| - 1])
    requires forall counts <- stage.eofs :: stage.Read(counts) != -1
    requires e in run[|run| - 1].emitted && e.Counted?
    ensures e.counts == ExactCounts(stage.work) && stage.work.outs.Keys <= run[|run| - 1].published
  {
    hide Next, Announced, EachLeadsOnce, Invariant, ExactCounts;
    var w :| w in run[0].nodes;
    assert run[0].nodes.Keys == {w} by {
      OnlyOne(run[0].nodes.Keys, w);
      assert |run[0].nodes| == |run[0].nodes.Keys|;
    }
    AloneOn(stage, w, run, |run| - 1);
    assert Exact(stage, run[|run| - 1].published, e);
  }

  lemma OnlyOne(s: set<nat>, x: nat)
    requires |s| == 1 && x in s
    ensures s == {x}
  {
    assert |s - {x}| == 0;
  }
}
