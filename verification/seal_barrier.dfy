// The seal barrier: N replicas publish their heavy accounts to each other over queues that
// are FIFO per sender, save before they ack, crash, restore and publish again. One client.
module SealBarrier {
  import opened Bytes
  import opened Accounts
  import opened HeavyMonitor

  /** `pos[q]` counts the messages of replica q this one has acked; `current` is the message being
      processed, with whether its effect is saved; `publishing` is what is left to send. */
  datatype Replica = Replica(
    mem: Degree, snap: Degree, readies: nat, completed: bool,
    pos: seq<nat>, current: Option<(nat, bool)>, publishing: Option<seq<PeerMessage>>)

  /** `sent[q]` is everything replica q ever published; the fanout delivers it to all in that order. */
  datatype State = State(replicas: seq<Replica>, sent: seq<seq<PeerMessage>>)

  /** The local heavy accounts of each replica. */
  type Locals = seq<Heavy>

  function Fresh(n: nat): Replica {
    Replica(NO_DEGREE, NO_DEGREE, 0, false, seq(n, _ => 0), None, None)
  }

  ghost predicate Init(local: Locals, s: State) {
    s == State(seq(|local|, _ => Fresh(|local|)), seq(|local|, _ => []))
  }

  function Target(local: Locals): nat {
    if |local| < 1 then 0 else |local| - 1
  }

  ghost predicate Shaped(local: Locals, s: State) {
    && |s.replicas| == |s.sent| == |local|
    && forall r :: 0 <= r < |local| ==> |s.replicas[r].pos| == |local|
  }

  /** The EOF arrives, possibly again: a replica that is not sealed publishes its heavy accounts. */
  ghost predicate StartPublishing(local: Locals, s: State, r: nat, msgs: seq<PeerMessage>, s': State) {
    && Shaped(local, s) && r < |local| && Publication(msgs, local[r])
    && var p := s.replicas[r];
       && !p.mem.sealed && !p.completed && p.publishing.None?
       && s' == s.(replicas := s.replicas[r := p.(publishing := Some(msgs))])
  }

  ghost predicate Publish(local: Locals, s: State, r: nat, s': State) {
    && Shaped(local, s) && r < |local|
    && var p := s.replicas[r];
       && p.publishing.Some? && p.publishing.value != []
       && s' == State(s.replicas[r := p.(publishing := Some(p.publishing.value[1..]))],
                      s.sent[r := s.sent[r] + [p.publishing.value[0]]])
  }

  function Answered(p: Replica, answer: (Degree, bool)): Replica {
    p.(mem := answer.0, readies := p.readies + if answer.1 then 1 else 0)
  }

  /** Everything is published: the local part is done. */
  ghost predicate FinishLocal(local: Locals, s: State, r: nat, s': State) {
    && Shaped(local, s) && r < |local|
    && var p := s.replicas[r];
       && p.publishing == Some([])
       && s' == s.(replicas := s.replicas[r := Answered(p.(publishing := None),
          MergedLocal(p.mem, local[r], Target(local)))])
  }

  /** The next message of sender q is recorded; of itself, or once completed, nothing is recorded. */
  ghost predicate Record(local: Locals, s: State, r: nat, q: nat, s': State) {
    && Shaped(local, s) && r < |local| && q < |local|
    && var p := s.replicas[r];
       && p.current.None? && p.pos[q] < |s.sent[q]|
       && var m := s.sent[q][p.pos[q]];
          var after := if q == r || p.completed then p
                       else if m.Done? then Answered(p, RecordedDone(p.mem, q, Target(local)))
                       else p.(mem := RecordedBatch(p.mem, m.side, SetOf(m.accounts)));
          s' == s.(replicas := s.replicas[r := after.(current := Some((q, q == r || p.completed)))])
  }

  /** A checkpoint. */
  ghost predicate Save(local: Locals, s: State, r: nat, s': State) {
    && Shaped(local, s) && r < |local|
    && var p := s.replicas[r];
       s' == s.(replicas := s.replicas[r := p.(snap := p.mem,
                current := if p.current.Some? then Some((p.current.value.0, true)) else None)])
  }

  ghost predicate Ack(local: Locals, s: State, r: nat, s': State) {
    && Shaped(local, s) && r < |local|
    && var p := s.replicas[r];
       && p.current.Some? && p.current.value.1 && p.current.value.0 < |local|
       && var q := p.current.value.0;
          s' == s.(replicas := s.replicas[r := p.(current := None, pos := p.pos[q := p.pos[q] + 1])])
  }

  /** The cross product is out and the tombstone saved; the exchange state is dropped. */
  ghost predicate Complete(local: Locals, s: State, r: nat, s': State) {
    && Shaped(local, s) && r < |local|
    && var p := s.replicas[r];
       && p.mem.sealed && p.current.None? && p.publishing.None?
       && s' == s.(replicas := s.replicas[r := p.(completed := true, mem := NO_DEGREE, snap := NO_DEGREE,
          readies := 0)])
  }

  ghost predicate Crash(local: Locals, s: State, r: nat, s': State) {
    && Shaped(local, s) && r < |local|
    && s' == s.(replicas := s.replicas[r := s.replicas[r].(mem := s.replicas[r].snap, readies := 0, current := None,
       publishing := None)])
  }

  ghost predicate Next(local: Locals, s: State, s': State) {
    || (exists r, msgs :: StartPublishing(local, s, r, msgs, s'))
    || (exists r :: Publish(local, s, r, s'))
    || (exists r :: FinishLocal(local, s, r, s'))
    || (exists r, q :: Record(local, s, r, q, s'))
    || (exists r :: Save(local, s, r, s'))
    || (exists r :: Ack(local, s, r, s'))
    || (exists r :: Complete(local, s, r, s'))
    || (exists r :: Crash(local, s, r, s'))
  }

  ghost predicate IsRun(local: Locals, run: seq<State>) {
    && |run| > 0 && Init(local, run[0])
    && forall i :: 0 <= i < |run| - 1 ==> Next(local, run[i], run[i + 1])
  }

  // ---------------------------------------------------------------- invariant

  /** The heavy accounts of all replicas together. */
  function Union(local: Locals): Heavy {
    if local == [] then NO_HEAVY else Union(local[..|local| - 1]).Plus(local[|local| - 1])
  }

  /** A replica that is ready is sealed. */
  ghost predicate Timely(local: Locals, d: Degree) {
    d.localDone && |d.donePeers| >= Target(local) ==> d.sealed
  }

  ghost predicate DegreeInvariant(local: Locals, sent: seq<seq<PeerMessage>>, r: nat, pos: seq<nat>, d: Degree)
    requires |sent| == |local| == |pos| && r < |local|
  {
    Collects(local, sent, r, pos, d) && Timely(local, d)
  }

  /** What a replica's exchange state may hold, given how much of every queue it has worked off. */
  ghost predicate Collects(local: Locals, sent: seq<seq<PeerMessage>>, r: nat, pos: seq<nat>, d: Degree)
    requires |sent| == |local| == |pos| && r < |local|
  {
    && d.heavy.Within(Union(local))
    && (forall q <- d.donePeers :: q < |local| && q != r && local[q].Within(d.heavy))
    && (d.localDone ==> local[r].Within(d.heavy))
    && (d.sealed ==> d.heavy == Union(local))
    && (forall q: nat, i: nat :: q < |local| && q != r && i < pos[q] <= |sent[q]| && sent[q][i].Done? ==>
          d.sealed || q in d.donePeers)
    && (forall q: nat :: q < |local| && q != r ==> pos[q] <= |sent[q]| && Carried(sent[q][..pos[q]]).Within(d.heavy))
  }

  /** A done marker stands behind everything the sender has. */
  ghost predicate QueueInvariant(heavy: Heavy, msgs: seq<PeerMessage>) {
    && Carried(msgs).Within(heavy)
    && forall i :: 0 <= i < |msgs| && msgs[i].Done? ==> heavy.Within(Carried(msgs[..i]))
  }

  /** A publication in progress: what is sent and what is left cover everything, and the marker is last. */
  ghost predicate PublishingInvariant(heavy: Heavy, sent: seq<PeerMessage>, rest: seq<PeerMessage>) {
    && Carried(rest).Within(heavy) && heavy.Within(Carried(sent).Plus(Carried(rest)))
    && forall i :: 0 <= i < |rest| && rest[i].Done? ==> i == |rest| - 1
  }

  ghost predicate ReplicaInvariant(local: Locals, sent: seq<seq<PeerMessage>>, r: nat, p: Replica)
    requires |sent| == |local| && r < |local|
  {
    && |p.pos| == |local| && (forall q :: 0 <= q < |local| ==> p.pos[q] <= |sent[q]|)
    && (!p.completed ==>
          DegreeInvariant(local, sent, r, p.pos, p.mem) && DegreeInvariant(local, sent, r, p.pos, p.snap))
    && (p.completed ==> !p.mem.sealed && !p.snap.sealed && p.publishing.None?)
    && p.readies <= 1 && (p.readies == 1 ==> p.mem.sealed)
    && (p.publishing.Some? ==> PublishingInvariant(local[r], sent[r], p.publishing.value))
    && (p.current.Some? ==>
          var (q, saved) := p.current.value;
          && q < |local| && p.pos[q] < |sent[q]|
          && (!p.completed && q != r ==> Processed(local, sent[q][p.pos[q]], q, p.mem))
          && (!p.completed && q != r && saved ==> Processed(local, sent[q][p.pos[q]], q, p.snap)))
  }

  /** The message's content has reached the exchange state. */
  ghost predicate Processed(local: Locals, m: PeerMessage, q: nat, d: Degree) {
    match m
    case HeavyBatch(side, accounts) => NO_HEAVY.Add(side, SetOf(accounts)).Within(d.heavy)
    case Done => d.sealed || q in d.donePeers
  }

  ghost predicate Invariant(local: Locals, s: State) {
    && Shaped(local, s)
    && (forall q: nat :: q < |local| ==> QueueInvariant(local[q], s.sent[q]))
    && (forall r: nat :: r < |local| ==> ReplicaInvariant(local, s.sent, r, s.replicas[r]))
  }

  // ---------------------------------------------------------------- unions

  lemma {:induction false} LocalWithin(local: Locals, q: nat)
    requires q < |local|
    ensures local[q].Within(Union(local))
  {
    if q < |local| - 1 {
      LocalWithin(local[..|local| - 1], q);
    }
  }

  lemma {:induction false} UnionLeast(local: Locals, h: Heavy)
    requires forall q :: 0 <= q < |local| ==> local[q].Within(h)
    ensures Union(local).Within(h)
  {
    if local != [] {
      UnionLeast(local[..|local| - 1], h);
    }
  }

  lemma {:induction false} Below(n: nat, s: set<nat>)
    requires forall x <- s :: x < n
    ensures |s| <= n && (|s| == n ==> forall x: nat :: x < n ==> x in s)
  {
    if n > 0 {
      Below(n - 1, s - {n - 1});
      if n - 1 in s {
        assert s == (s - {n - 1}) + {n - 1};
      } else {
        assert s - {n - 1} == s;
      }
    } else {
      assert s == {};
    }
  }

  /** N - 1 peers that are not oneself are all of them. */
  lemma AllPeers(n: nat, r: nat, peers: set<nat>)
    requires r < n && (forall q <- peers :: q < n && q != r) && |peers| >= n - 1
    ensures forall q: nat :: q < n && q != r ==> q in peers
  {
    Below(n, peers + {r});
    assert |peers + {r}| == |peers| + 1;
  }

  // ---------------------------------------------------------------- exchange states

  /** Sealing happens only when every replica's accounts are there. */
  lemma ReadyKeeps(local: Locals, sent: seq<seq<PeerMessage>>, r: nat, pos: seq<nat>, d: Degree)
    requires |sent| == |local| == |pos| && r < |local|
    requires Collects(local, sent, r, pos, d)
    ensures DegreeInvariant(local, sent, r, pos, Ready(d, Target(local)).0)
  {
    hide Carried;
    if Ready(d, Target(local)).1 {
      AllPeers(|local|, r, d.donePeers);
      forall q | 0 <= q < |local| ensures local[q].Within(d.heavy) {
      }
      UnionLeast(local, d.heavy);
    }
  }

  lemma PlusKeeps(local: Locals, sent: seq<seq<PeerMessage>>, r: nat, pos: seq<nat>, d: Degree, h: Heavy)
    requires |sent| == |local| == |pos| && r < |local|
    requires DegreeInvariant(local, sent, r, pos, d) && h.Within(Union(local))
    ensures DegreeInvariant(local, sent, r, pos, d.(heavy := d.heavy.Plus(h)))
  {
    hide Carried, Union;
    if d.sealed {
      assert d.heavy.Plus(h) == d.heavy;
    }
  }

  lemma MergedLocalKeeps(local: Locals, sent: seq<seq<PeerMessage>>, r: nat, pos: seq<nat>, d: Degree)
    requires |sent| == |local| == |pos| && r < |local|
    requires DegreeInvariant(local, sent, r, pos, d)
    ensures DegreeInvariant(local, sent, r, pos, MergedLocal(d, local[r], Target(local)).0)
  {
    if !d.sealed {
      LocalWithin(local, r);
      PlusKeeps(local, sent, r, pos, d, local[r]);
      hide Carried, Union;
      var merged := d.(heavy := d.heavy.Plus(local[r]), localDone := true);
      assert Collects(local, sent, r, pos, merged);
      ReadyKeeps(local, sent, r, pos, merged);
    }
  }

  lemma {:induction false} CarriedMember(msgs: seq<PeerMessage>, i: nat)
    requires i < |msgs| && msgs[i].HeavyBatch?
    ensures NO_HEAVY.Add(msgs[i].side, SetOf(msgs[i].accounts)).Within(Carried(msgs))
    decreases |msgs|
  {
    if i < |msgs| - 1 {
      CarriedMember(msgs[..|msgs| - 1], i);
    }
  }

  lemma RecordedBatchKeeps(local: Locals, sent: seq<seq<PeerMessage>>, r: nat, pos: seq<nat>, d: Degree, q: nat,
                           m: PeerMessage)
    requires |sent| == |local| == |pos| && r < |local| && q < |local| && m in sent[q] && m.HeavyBatch?
    requires DegreeInvariant(local, sent, r, pos, d) && QueueInvariant(local[q], sent[q])
    ensures var d' := RecordedBatch(d, m.side, SetOf(m.accounts));
            DegreeInvariant(local, sent, r, pos, d') && Processed(local, m, q, d')
  {
    var h := NO_HEAVY.Add(m.side, SetOf(m.accounts));
    CarriedByQueue(local, sent, q, m);
    PlusKeeps(local, sent, r, pos, d, h);
    AddIsPlus(d.heavy, m.side, SetOf(m.accounts));
    hide *;
    if d.sealed {
      SealedHoldsAll(local, sent, r, pos, d);
    }
    RecordedIsProcessed(local, d, q, m);
  }

  lemma CarriedByQueue(local: Locals, sent: seq<seq<PeerMessage>>, q: nat, m: PeerMessage)
    requires |sent| == |local| && q < |local| && m in sent[q] && m.HeavyBatch? && QueueInvariant(local[q], sent[q])
    ensures NO_HEAVY.Add(m.side, SetOf(m.accounts)).Within(Union(local))
  {
    var i :| 0 <= i < |sent[q]| && sent[q][i] == m;
    CarriedMember(sent[q], i);
    LocalWithin(local, q);
    hide Carried, Union;
  }

  lemma AddIsPlus(heavy: Heavy, side: Side, accounts: set<Account>)
    ensures heavy.Add(side, accounts) == heavy.Plus(NO_HEAVY.Add(side, accounts))
  {
  }

  lemma RecordedIsProcessed(local: Locals, d: Degree, q: nat, m: PeerMessage)
    requires m.HeavyBatch?
    requires d.sealed ==> d.heavy == Union(local)
    requires NO_HEAVY.Add(m.side, SetOf(m.accounts)).Within(Union(local))
    ensures RecordedBatch(d, m.side, SetOf(m.accounts)) ==
            if d.sealed then d else d.(heavy := d.heavy.Add(m.side, SetOf(m.accounts)))
    ensures Processed(local, m, q, RecordedBatch(d, m.side, SetOf(m.accounts)))
  {
    hide Union;
  }

  lemma SealedHoldsAll(local: Locals, sent: seq<seq<PeerMessage>>, r: nat, pos: seq<nat>, d: Degree)
    requires |sent| == |local| == |pos| && r < |local|
    requires DegreeInvariant(local, sent, r, pos, d) && d.sealed
    ensures d.heavy == Union(local)
  {
  }

  lemma RecordedDoneKeeps(local: Locals, sent: seq<seq<PeerMessage>>, r: nat, pos: seq<nat>, d: Degree, q: nat)
    requires |sent| == |local| == |pos| && r < |local| && q < |local| && q != r
    requires DegreeInvariant(local, sent, r, pos, d) && QueueInvariant(local[q], sent[q])
    requires pos[q] < |sent[q]| && sent[q][pos[q]].Done?
    ensures DegreeInvariant(local, sent, r, pos, RecordedDone(d, q, Target(local)).0)
  {
    hide Carried, Union;
    if !d.sealed {
      var more := d.(donePeers := d.donePeers + {q});
      assert Collects(local, sent, r, pos, more);
      ReadyKeeps(local, sent, r, pos, more);
    }
  }

  // ---------------------------------------------------------------- steps

  lemma OneReplicaKeeps(local: Locals, s: State, r: nat, s': State)
    requires Invariant(local, s) && r < |local| && |s'.replicas| == |local|
    requires s'.sent == s.sent && s'.replicas == s.replicas[r := s'.replicas[r]]
    requires ReplicaInvariant(local, s.sent, r, s'.replicas[r])
    ensures Invariant(local, s')
  {
    hide QueueInvariant;
    forall q: nat | q < |local| ensures ReplicaInvariant(local, s'.sent, q, s'.replicas[q]) {
      assert ReplicaInvariant(local, s.sent, q, s.replicas[q]);
    }
    hide ReplicaInvariant;
  }

  lemma ReplicaAt(local: Locals, s: State, r: nat)
    requires Invariant(local, s) && r < |local|
    ensures |s.replicas| == |s.sent| == |local| && ReplicaInvariant(local, s.sent, r, s.replicas[r])
    ensures QueueInvariant(local[r], s.sent[r])
  {
    hide ReplicaInvariant, QueueInvariant;
  }

  lemma LocalStepKeeps(local: Locals, s: State, r: nat, s': State)
    requires Invariant(local, s)
    requires Save(local, s, r, s') || Complete(local, s, r, s') || Crash(local, s, r, s')
    ensures Invariant(local, s')
  {
    hide Invariant, DegreeInvariant, PublishingInvariant, Processed;
    ReplicaAt(local, s, r);
    assert ReplicaInvariant(local, s.sent, r, s'.replicas[r]);
    hide ReplicaInvariant;
    OneReplicaKeeps(local, s, r, s');
  }

  lemma FinishLocalKeeps(local: Locals, s: State, r: nat, s': State)
    requires Invariant(local, s) && FinishLocal(local, s, r, s')
    ensures Invariant(local, s')
  {
    hide Invariant, DegreeInvariant, PublishingInvariant, Carried, Union;
    ReplicaAt(local, s, r);
    var p := s.replicas[r];
    MergedLocalKeeps(local, s.sent, r, p.pos, p.mem);
    assert ReplicaInvariant(local, s.sent, r, s'.replicas[r]);
    hide ReplicaInvariant;
    OneReplicaKeeps(local, s, r, s');
  }

  lemma RecordKeeps(local: Locals, s: State, r: nat, q: nat, s': State)
    requires Invariant(local, s) && Record(local, s, r, q, s')
    ensures Invariant(local, s')
  {
    hide Invariant, DegreeInvariant, PublishingInvariant, QueueInvariant, Carried, Union;
    ReplicaAt(local, s, r);
    ReplicaAt(local, s, q);
    var p := s.replicas[r];
    var m := s.sent[q][p.pos[q]];
    if q != r && !p.completed {
      if m.Done? {
        RecordedDoneKeeps(local, s.sent, r, p.pos, p.mem, q);
      } else {
        RecordedBatchKeeps(local, s.sent, r, p.pos, p.mem, q, m);
      }
    }
    assert ReplicaInvariant(local, s.sent, r, s'.replicas[r]);
    hide ReplicaInvariant;
    OneReplicaKeeps(local, s, r, s');
  }

  lemma AckedPrefix(local: Locals, sent: seq<seq<PeerMessage>>, r: nat, pos: seq<nat>, q: nat, d: Degree)
    requires |sent| == |local| == |pos| && r < |local| && q < |local| && pos[q] < |sent[q]|
    requires DegreeInvariant(local, sent, r, pos, d) && (q != r ==> Processed(local, sent[q][pos[q]], q, d))
    ensures DegreeInvariant(local, sent, r, pos[q := pos[q] + 1], d)
  {
    hide Union;
    var m := sent[q][pos[q]];
    assert sent[q][..pos[q] + 1] == sent[q][..pos[q]] + [m];
    CarriedSnoc(sent[q][..pos[q]], m);
    hide Carried;
  }

  lemma AckKeeps(local: Locals, s: State, r: nat, s': State)
    requires Invariant(local, s) && Ack(local, s, r, s')
    ensures Invariant(local, s')
  {
    hide Invariant, DegreeInvariant, PublishingInvariant, Carried, Union, Processed;
    ReplicaAt(local, s, r);
    var p := s.replicas[r];
    if !p.completed {
      AckedPrefix(local, s.sent, r, p.pos, p.current.value.0, p.mem);
      AckedPrefix(local, s.sent, r, p.pos, p.current.value.0, p.snap);
    }
    assert ReplicaInvariant(local, s.sent, r, s'.replicas[r]);
    hide ReplicaInvariant;
    OneReplicaKeeps(local, s, r, s');
  }

  lemma StartPublishingKeeps(local: Locals, s: State, r: nat, msgs: seq<PeerMessage>, s': State)
    requires Invariant(local, s) && StartPublishing(local, s, r, msgs, s')
    ensures Invariant(local, s')
  {
    hide Invariant, DegreeInvariant, Carried, Union, Processed;
    ReplicaAt(local, s, r);
    assert ReplicaInvariant(local, s.sent, r, s'.replicas[r]);
    hide ReplicaInvariant;
    OneReplicaKeeps(local, s, r, s');
  }

  /** One more message at the end of a queue changes nothing for what was already worked off. */
  lemma QueueGrows(local: Locals, s: State, r: nat, m: PeerMessage, n: nat, p: Replica, p': Replica)
    requires |s.sent| == |local| && r < |local| && n < |local| && ReplicaInvariant(local, s.sent, n, p)
    requires p' == p.(publishing := p'.publishing) && (p.publishing.None? ==> p'.publishing.None?)
    requires var sent' := s.sent[r := s.sent[r] + [m]];
             p'.publishing.Some? ==> PublishingInvariant(local[n], sent'[n], p'.publishing.value)
    ensures ReplicaInvariant(local, s.sent[r := s.sent[r] + [m]], n, p')
  {
    hide Carried, Union, PublishingInvariant;
    var sent' := s.sent[r := s.sent[r] + [m]];
    assert forall q: nat, k: nat :: q < |local| && k <= |s.sent[q]| ==> sent'[q][..k] == s.sent[q][..k];
    assert forall q: nat, k: nat :: q < |local| && k < |s.sent[q]| ==> sent'[q][k] == s.sent[q][k];
    assert forall q: nat :: q < |local| ==> |s.sent[q]| <= |sent'[q]|;
    if !p.completed {
      assert DegreeInvariant(local, sent', n, p.pos, p.mem);
      assert DegreeInvariant(local, sent', n, p.pos, p.snap);
    }
    if p.current.Some? {
      var q := p.current.value.0;
      assert sent'[q][p.pos[q]] == s.sent[q][p.pos[q]];
    }
    hide DegreeInvariant;
  }

  lemma PublishQueue(heavy: Heavy, sent: seq<PeerMessage>, rest: seq<PeerMessage>)
    requires QueueInvariant(heavy, sent) && PublishingInvariant(heavy, sent, rest) && rest != []
    ensures QueueInvariant(heavy, sent + [rest[0]]) && PublishingInvariant(heavy, sent + [rest[0]], rest[1..])
  {
    var m := rest[0];
    assert rest == [m] + rest[1..];
    CarriedAppend([m], rest[1..]);
    CarriedSnoc([], m);
    CarriedSnoc(sent, m);
    var more := sent + [m];
    forall i | 0 <= i < |more| && more[i].Done? ensures heavy.Within(Carried(more[..i])) {
      if i < |sent| {
        assert more[..i] == sent[..i];
      } else {
        assert more[..i] == sent && rest == [m];
      }
    }
    assert [] + [m] == [m];
  }

  lemma PublishKeeps(local: Locals, s: State, r: nat, s': State)
    requires Invariant(local, s) && Publish(local, s, r, s')
    ensures Invariant(local, s')
  {
    hide QueueInvariant, ReplicaInvariant, PublishingInvariant, Carried, Union;
    var p := s.replicas[r];
    var m := p.publishing.value[0];
    PublishingOf(local, s.sent, r, p);
    PublishQueue(local[r], s.sent[r], p.publishing.value);
    forall n: nat | n < |local| ensures ReplicaInvariant(local, s'.sent, n, s'.replicas[n]) {
      if n != r && s.replicas[n].publishing.Some? {
        PublishingOf(local, s.sent, n, s.replicas[n]);
      }
      QueueGrows(local, s, r, m, n, s.replicas[n], s'.replicas[n]);
    }
  }

  lemma PublishingOf(local: Locals, sent: seq<seq<PeerMessage>>, r: nat, p: Replica)
    requires |sent| == |local| && r < |local| && ReplicaInvariant(local, sent, r, p) && p.publishing.Some?
    ensures PublishingInvariant(local[r], sent[r], p.publishing.value)
  {
  }

  lemma NextKeeps(local: Locals, s: State, s': State)
    requires Invariant(local, s) && Next(local, s, s')
    ensures Invariant(local, s')
  {
    hide Invariant, StartPublishing, Publish, FinishLocal, Record, Save, Ack, Complete, Crash;
    if r, msgs :| StartPublishing(local, s, r, msgs, s') {
      StartPublishingKeeps(local, s, r, msgs, s');
    } else if r :| Publish(local, s, r, s') {
      PublishKeeps(local, s, r, s');
    } else if r :| FinishLocal(local, s, r, s') {
      FinishLocalKeeps(local, s, r, s');
    } else if r, q :| Record(local, s, r, q, s') {
      RecordKeeps(local, s, r, q, s');
    } else if r :| Save(local, s, r, s') {
      LocalStepKeeps(local, s, r, s');
    } else if r :| Ack(local, s, r, s') {
      AckKeeps(local, s, r, s');
    } else if r :| Complete(local, s, r, s') {
      LocalStepKeeps(local, s, r, s');
    } else if r :| Crash(local, s, r, s') {
      LocalStepKeeps(local, s, r, s');
    }
  }

  lemma {:induction false} Reachable(local: Locals, run: seq<State>, i: nat)
    requires IsRun(local, run) && i < |run|
    ensures Invariant(local, run[i])
  {
    hide Next;
    if i > 0 {
      Reachable(local, run, i - 1);
      hide Invariant;
      NextKeeps(local, run[i - 1], run[i]);
    } else {
      assert forall q: nat :: q < |local| ==> Carried(run[0].sent[q][..0]) == NO_HEAVY;
    }
  }

  /** A done marker of sender q is among what was worked off. */
  ghost predicate DoneWorkedOff(sent: seq<seq<PeerMessage>>, pos: seq<nat>, q: nat) {
    && q < |sent| && q < |pos| && pos[q] <= |sent[q]|
    && exists k: nat :: k < pos[q] && sent[q][k] == Done
  }

  /** A replica that has its local part and has worked off a done marker of every other one is sealed: no order
      of messages, repetition, crash or restart keeps it from starting the cross product. */
  lemma AllDoneMeansSealed(local: Locals, run: seq<State>, i: nat, r: nat)
    requires IsRun(local, run) && i < |run| && r < |local|
    ensures |run[i].replicas| == |local|
    ensures var p := run[i].replicas[r];
            !p.completed && p.mem.localDone
            && (forall q: nat :: q < |local| && q != r ==> DoneWorkedOff(run[i].sent, p.pos, q)) ==>
              p.mem.sealed
  {
    Reachable(local, run, i);
    ReplicaAt(local, run[i], r);
    hide IsRun, Invariant, Carried, Union, QueueInvariant;
    var p := run[i].replicas[r];
    if !p.completed && !p.mem.sealed
       && forall q: nat :: q < |local| && q != r ==> DoneWorkedOff(run[i].sent, p.pos, q)
    {
      forall q: nat | q < |local| && q != r ensures q in p.mem.donePeers {
        assert DoneWorkedOff(run[i].sent, p.pos, q);
      }
      EveryPeer(|local|, r, p.mem.donePeers);
    }
  }

  lemma EveryPeer(n: nat, r: nat, peers: set<nat>)
    requires r < n && forall q: nat :: q < n && q != r ==> q in peers
    ensures |peers| >= n - 1
  {
    AtLeast(n, peers + {r});
  }

  lemma {:induction false} AtLeast(n: nat, s: set<nat>)
    requires forall x: nat :: x < n ==> x in s
    ensures |s| >= n
  {
    if n > 0 {
      AtLeast(n - 1, s - {n - 1});
    }
  }

  /** In every reachable state of any number of replicas: a sealed replica, in memory or as saved, holds
      exactly the union of all replicas' heavy accounts; and between two restarts it was told at most once
      that it is ready. */
  lemma SealedIsUnion(local: Locals, run: seq<State>, i: nat, r: nat)
    requires IsRun(local, run) && i < |run| && r < |local|
    ensures |run[i].replicas| == |local|
    ensures run[i].replicas[r].mem.sealed ==> run[i].replicas[r].mem.heavy == Union(local)
    ensures run[i].replicas[r].snap.sealed ==> run[i].replicas[r].snap.heavy == Union(local)
    ensures run[i].replicas[r].readies <= 1
  {
    Reachable(local, run, i);
    ReplicaAt(local, run[i], r);
    hide IsRun, Invariant, Carried, Union;
  }
}
