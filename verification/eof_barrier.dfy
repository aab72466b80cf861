// The distributed EOF barrier: N replicas of one stage, one client. Any batch may be
// handled by any replica at any time, also repeatedly; replicas crash and restore their
// last snapshot; control messages are never removed from the network, so each may be
// delivered late, again, or never.
module EofBarrier {
  import opened Bytes
  import opened Dedup
  import opened Sums
  import opened EofControl
  import opened Coordinators

  /** One message a stage derives from a batch: its key and how many transactions it carries. */
  datatype Output = Output(parent: MsgId, key: Key, count: nat)

  /** What a stage has to do for a client: the batches sent to it with their sizes, and, by
      id, every message it derives from them. Ids of derived messages are distinct. */
  datatype Work = Work(sizes: map<MsgId, nat>, outs: map<MsgId, Output>)

  /** Nothing is derived from an unknown batch or from an empty one. */
  ghost predicate Derived(work: Work) {
    forall o <- work.outs :: work.outs[o].parent in work.sizes && work.sizes[work.outs[o].parent] > 0
  }

  /** Every message carries a transaction. */
  ghost predicate NoneEmpty(work: Work) {
    forall o <- work.outs :: work.outs[o].count > 0
  }

  /** A total that cannot be received without every batch that has outputs. */
  ghost predicate Awaited(work: Work, total: int) {
    forall o <- work.outs ::
      work.outs[o].parent in work.sizes && total + work.sizes[work.outs[o].parent] > Sum(work.sizes)
  }

  /** The messages counted under a key. */
  function OnKey(work: Work, key: Key): map<MsgId, nat> {
    map o <- work.outs | key == KEY_NIL || work.outs[o].key == key :: work.outs[o].count
  }

  function KeysUsed(work: Work): set<Key> {
    (set o <- work.outs :: work.outs[o].key) + (if work.outs == map[] then {} else {KEY_NIL})
  }

  /** The exact EOF of the stage: for every key used, the transactions sent on it. */
  ghost function ExactCounts(work: Work): map<Key, int> {
    map key <- KeysUsed(work) :: Sum(OnKey(work, key))
  }

  // ---------------------------------------------------------------- the system

  /** A batch being handled, and which of its outputs are already recorded as sent. */
  datatype Hand = Hand(batch: MsgId, sent: set<MsgId>)

  datatype Node = Node(member: Option<Member>, hand: Option<Hand>, snap: Option<Tally>, term: nat)

  datatype Emission = Counted(counts: map<Key, int>) | PassedOn(counts: map<Key, int>) | GaveUp

  /** One leadership, from SyncEof on: whose, how often amounts were asked for, how often it flushed, the ack of
      its EOF, and the acks that fired in it. */
  datatype Term = Term(leader: nat, rounds: nat, flushes: nat, ack: AckTag, fired: seq<AckTag>) {
    function With(out: seq<Effect>): Term {
      this.(rounds := rounds + Rounds(out), flushes := flushes + Flushes(out), fired := fired + AcksIn(out))
    }
  }

  datatype State = State(
    nodes: map<nat, Node>, net: set<Control>, published: set<MsgId>, emitted: seq<Emission>, terms: seq<Term>)

  /** The stage: its work, the EOFs it may be sent, the key it reads them under, the retry limit, and
      whether the client is forgotten only between batches. */
  datatype Stage = Stage(work: Work, eofs: set<map<Key, int>>, key: Key, maxRetries: int, orderly: bool) {
    function Read(counts: map<Key, int>): int {
      EofControl.Expected(Some(counts), key)
    }

    /** What a leader of this stage may wait for. */
    function Totals(): set<int> {
      set counts <- eofs | Read(counts) != -1 :: Read(counts)
    }
  }

  /** Every EOF is a flush signal to this stage, or announces enough. */
  ghost predicate Announced(stage: Stage) {
    forall counts <- stage.eofs :: stage.Read(counts) == -1 || Awaited(stage.work, stage.Read(counts))
  }

  function Sends(out: seq<Effect>): set<Control> {
    set e <- out | e.Send? :: e.msg
  }

  function Count(out: seq<Effect>, p: Effect -> bool): nat {
    if out == [] then 0 else (if p(out[0]) then 1 else 0) + Count(out[1..], p)
  }

  function Rounds(out: seq<Effect>): nat {
    Count(out, (e: Effect) => e.Send? && e.msg.AmountRequest?)
  }

  function Flushes(out: seq<Effect>): nat {
    Count(out, (e: Effect) => e.LeaderFlush?)
  }

  /** Behind the acks a leader held comes that of the EOF that is passed on. */
  function AllButLast(acks: seq<AckTag>): seq<AckTag> {
    if acks == [] then [] else acks[..|acks| - 1]
  }

  function Emissions(out: seq<Effect>): seq<Emission> {
    if out == [] then []
    else (match out[0]
          case LeaderFlush(counts) => [Counted(counts)]
          case OnRetryExceeded => [GaveUp]
          case _ => []) + Emissions(out[1..])
  }

  ghost predicate Init(s: State) {
    && (forall n <- s.nodes :: s.nodes[n] == Node(None, None, None, 0))
    && s.net == {} && s.published == {} && s.emitted == [] && s.terms == []
  }

  ghost predicate Take(stage: Stage, s: State, n: nat, b: MsgId, s': State) {
    && n in s.nodes && s.nodes[n].hand.None? && b in stage.work.sizes
    && s' == s.(nodes := s.nodes[n := s.nodes[n].(hand := Some(Hand(b, {})))])
  }

  ghost predicate InHand(stage: Stage, s: State, n: nat, o: MsgId) {
    && n in s.nodes && s.nodes[n].hand.Some? && o in stage.work.outs
    && stage.work.outs[o].parent == s.nodes[n].hand.value.batch
  }

  ghost predicate Publish(stage: Stage, s: State, n: nat, o: MsgId, s': State) {
    InHand(stage, s, n, o) && s' == s.(published := s.published + {o})
  }

  ghost predicate RecordSent(stage: Stage, s: State, n: nat, o: MsgId, s': State) {
    && InHand(stage, s, n, o) && o in s.published
    && var (node, out) := (s.nodes[n], stage.work.outs[o]);
       var m := Known(node.member);
       s' == s.(nodes := s.nodes[n := node.(member := Some(m.(tally := m.tally.WithSent(out.key, o, out.count))),
                                            hand := Some(node.hand.value.(sent := node.hand.value.sent + {o})))])
  }

  /** The handler's last act, once all outputs of the batch are recorded. */
  ghost predicate RecordReceived(stage: Stage, s: State, n: nat, s': State) {
    && n in s.nodes && s.nodes[n].hand.Some?
    && var (node, b) := (s.nodes[n], s.nodes[n].hand.value.batch);
       var m := Known(node.member);
       && b in stage.work.sizes
       && (forall o <- stage.work.outs :: stage.work.outs[o].parent == b ==> o in node.hand.value.sent)
       && s' == s.(nodes := s.nodes[n := node.(
                     member := Some(m.(tally := m.tally.WithReceived(b, stage.work.sizes[b]))), hand := None)])
  }

  /** A committed checkpoint of the replica's EOF slot; it may fall in the middle of a batch. */
  ghost predicate SaveSnapshot(s: State, n: nat, s': State) {
    && n in s.nodes
    && var node := s.nodes[n];
       s' == s.(nodes := s.nodes[n := node.(snap := if node.member.Some? then Some(node.member.value.tally) else None)])
  }

  /** Crash and restart: the snapshot is all that is left. */
  ghost predicate Crash(s: State, n: nat, s': State) {
    && n in s.nodes
    && var node := s.nodes[n];
       s' == s.(nodes := s.nodes[n := node.(hand := None,
                member := if node.snap.Some? then Some(NEW_MEMBER.(tally := node.snap.value)) else None)])
  }

  /** Forgetting the client in the middle of a batch would lose some of its outputs but not the batch. */
  predicate Orderly(node: Node, m': Option<Member>) {
    m'.None? ==> node.hand.None? || node.hand.value.sent == {}
  }

  function SettingsOf(stage: Stage, s: State, n: nat): Settings {
    Settings(n, |s.nodes|, stage.maxRetries)
  }

  /** An EOF reaches a replica, between two batches and perhaps not for the first time. */
  ghost predicate Sync(stage: Stage, s: State, n: nat, counts: map<Key, int>, ack: AckTag, m': Option<Member>,
                       out: seq<Effect>, s': State) {
    && n in s.nodes && counts in stage.eofs
    && var node := s.nodes[n];
       && node.hand.None?
       && Synced(SettingsOf(stage, s, n), node.member, Some(counts), stage.key, Some(ack), m', out)
       && s' == s.(nodes := s.nodes[n := node.(member := m', term := if m'.Some? then |s.terms| else node.term)],
                   net := s.net + Sends(out),
                   emitted := if m'.Some? then s.emitted else s.emitted + [PassedOn(counts)],
                   terms := if m'.Some? then s.terms + [Term(n, 0, 0, ack, []).With(out)]
                            else if node.member.Some? && node.member.value.leader && node.term < |s.terms|
                            then var t := s.terms[node.term];
                                 s.terms[node.term := t.(fired := t.fired + AllButLast(AcksIn(out)))]
                            else s.terms)
  }

  /** What a replica does while it leads belongs to its leadership. */
  function TermsBehind(s: State, node: Node, out: seq<Effect>): seq<Term> {
    if node.member.Some? && node.member.value.leader && node.term < |s.terms|
    then s.terms[node.term := s.terms[node.term].With(out)]
    else s.terms
  }

  /** A control message from the network: requests, flushes and give-ups go to everyone, a
      response to its requester. */
  ghost predicate Deliver(stage: Stage, s: State, n: nat, msg: Control, m': Option<Member>, out: seq<Effect>,
                          s': State) {
    && n in s.nodes && msg in s.net && (msg.AmountResponse? ==> msg.requester == n)
    && var node := s.nodes[n];
       && EofControl.Handled(SettingsOf(stage, s, n), node.member, msg, m', out)
       && (stage.orderly ==> Orderly(node, m'))
       && s' == s.(nodes := s.nodes[n := node.(member := m')],
                   net := s.net + Sends(out),
                   emitted := s.emitted + Emissions(out),
                   terms := TermsBehind(s, node, out))
  }

  ghost predicate Next(stage: Stage, s: State, s': State) {
    || (exists n, b :: Take(stage, s, n, b, s'))
    || (exists n, o :: Publish(stage, s, n, o, s'))
    || (exists n, o :: RecordSent(stage, s, n, o, s'))
    || (exists n :: RecordReceived(stage, s, n, s'))
    || (exists n :: SaveSnapshot(s, n, s'))
    || (exists n :: Crash(s, n, s'))
    || (exists n, counts, ack, m', out :: Sync(stage, s, n, counts, ack, m', out, s'))
    || (exists n, msg, m', out :: Deliver(stage, s, n, msg, m', out, s'))
  }

  ghost predicate Steps(stage: Stage, run: seq<State>) {
    |run| > 0 && forall i :: 0 <= i < |run| - 1 ==> Next(stage, run[i], run[i + 1])
  }

  ghost predicate IsRun(stage: Stage, run: seq<State>) {
    Steps(stage, run) && Init(run[0])
  }

  // ---------------------------------------------------------------- truthful tallies

  ghost predicate Recorded(work: Work, t: Tally, o: MsgId)
    requires o in work.outs
  {
    o in t.SentOn(work.outs[o].key) && o in t.SentOn(KEY_NIL)
  }

  /** Right about all it counts; an output is counted under both of its keys or under none. */
  ghost predicate Right(work: Work, published: set<MsgId>, t: Tally) {
    && (forall b <- t.rcv :: b in work.sizes && t.rcv[b] == work.sizes[b])
    && (forall key <- t.sent :: t.sent[key] != map[])
    && (forall key <- t.sent, o <- t.sent[key] ::
          && o in published && o in work.outs && t.sent[key][o] == work.outs[o].count
          && (key == KEY_NIL || key == work.outs[o].key))
    && (forall o <- work.outs :: o in t.SentOn(work.outs[o].key) <==> o in t.SentOn(KEY_NIL))
  }

  /** Complete about the outputs of every batch it counts as received. */
  ghost predicate OutputsComplete(work: Work, t: Tally) {
    forall o <- work.outs :: work.outs[o].parent in t.rcv ==> Recorded(work, t, o)
  }

  ghost predicate Truthful(work: Work, published: set<MsgId>, t: Tally) {
    Right(work, published, t) && OutputsComplete(work, t)
  }

  /** What every tally is: right always, complete if clients are forgotten between batches only. */
  ghost predicate Honest(stage: Stage, published: set<MsgId>, t: Tally) {
    Right(stage.work, published, t) && (stage.orderly ==> OutputsComplete(stage.work, t))
  }

  ghost predicate HonestMember(stage: Stage, published: set<MsgId>, m: Member) {
    && Honest(stage, published, m.tally)
    && (forall n <- m.infos :: Honest(stage, published, m.infos[n]))
    && (m.leader ==> m.expected in stage.Totals())
  }

  ghost predicate NodeInvariant(stage: Stage, published: set<MsgId>, node: Node) {
    && (node.member.Some? ==> HonestMember(stage, published, node.member.value))
    && (node.snap.Some? ==> Honest(stage, published, node.snap.value))
    && (node.hand.Some? ==>
          forall o <- node.hand.value.sent ::
            o in stage.work.outs && (stage.orderly ==> Recorded(stage.work, Known(node.member).tally, o)))
  }

  ghost predicate MessageInvariant(stage: Stage, published: set<MsgId>, msg: Control) {
    msg.AmountResponse? ==> Honest(stage, published, msg.tally)
  }

  /** Nothing can make the counts of this stage wrong. */
  ghost predicate Safe(stage: Stage) {
    Announced(stage) && (stage.orderly || stage.work.outs == map[])
  }

  ghost predicate Exact(stage: Stage, published: set<MsgId>, e: Emission) {
    e.Counted? ==> e.counts == ExactCounts(stage.work) && stage.work.outs.Keys <= published
  }

  /** Some announced total was within reach, and counts are exact if the stage is safe. */
  ghost predicate EmissionInvariant(stage: Stage, published: set<MsgId>, e: Emission) {
    && (e.Counted? ==> exists total <- stage.Totals() :: total <= Sum(stage.work.sizes))
    && (Safe(stage) ==> Exact(stage, published, e))
  }

  ghost predicate Invariant(stage: Stage, s: State) {
    && (forall n <- s.nodes :: NodeInvariant(stage, s.published, s.nodes[n]))
    && (forall msg <- s.net :: MessageInvariant(stage, s.published, msg))
    && (forall e <- s.emitted :: EmissionInvariant(stage, s.published, e))
  }

  lemma NothingIsHonest(stage: Stage, published: set<MsgId>)
    ensures Honest(stage, published, NOTHING)
  {
  }

  lemma TruthfulReceived(work: Work, published: set<MsgId>, t: Tally, b: MsgId)
    requires Truthful(work, published, t) && b in t.rcv
    ensures b in work.sizes && t.rcv[b] == work.sizes[b]
    ensures forall o <- work.outs :: work.outs[o].parent == b ==> Recorded(work, t, o)
  {
  }

  lemma TruthfulSent(work: Work, published: set<MsgId>, t: Tally, key: Key, o: MsgId)
    requires Truthful(work, published, t) && key in t.sent && o in t.sent[key]
    ensures o in published && o in OnKey(work, key) && t.sent[key][o] == OnKey(work, key)[o]
  {
  }

  /** An output that is on the key. */
  lemma OnKeyUsed(work: Work, key: Key, o: MsgId)
    requires o in OnKey(work, key)
    ensures key in KeysUsed(work)
  {
  }

  lemma KeyHasOutput(work: Work, key: Key)
    requires key in KeysUsed(work)
    ensures exists o :: o in OnKey(work, key)
  {
    var o :| o in work.outs && (key == KEY_NIL || key == work.outs[o].key);
    assert o in OnKey(work, key);
  }

  ghost predicate AllTruthful(work: Work, published: set<MsgId>, infos: map<nat, Tally>) {
    forall n <- infos :: Truthful(work, published, infos[n])
  }

  /** The output of a received batch: some report counts it, under its key and under KEY_NIL. */
  lemma OutputReported(work: Work, published: set<MsgId>, infos: map<nat, Tally>,
                       received: map<MsgId, nat>, sent: map<Key, map<MsgId, nat>>, o: MsgId, key: Key)
    requires AllTruthful(work, published, infos)
    requires IsUnion(ReceivedParts(infos), received) && IsSentUnion(infos, sent)
    requires o in OnKey(work, key) && o in work.outs && work.outs[o].parent in received
    ensures o in published && key in sent && o in sent[key]
  {
    hide Truthful, IsUnion, IsSentUnion, ReceivedParts, AllTruthful, Recorded, OnKey;
    var b := work.outs[o].parent;
    var n := ReceivedFrom(infos, received, b);
    TruthfulOf(work, published, infos, n);
    TruthfulReceived(work, published, infos[n], b);
    RecordedOn(work, infos[n], o, key);
    TruthfulSent(work, published, infos[n], key, o);
    SentReported(infos, sent, n, key, o);
  }

  lemma TruthfulOf(work: Work, published: set<MsgId>, infos: map<nat, Tally>, n: nat)
    requires AllTruthful(work, published, infos) && n in infos
    ensures Truthful(work, published, infos[n])
  {
    hide Truthful;
  }

  lemma RecordedOn(work: Work, t: Tally, o: MsgId, key: Key)
    requires o in OnKey(work, key) && o in work.outs && Recorded(work, t, o)
    ensures key in t.sent && o in t.sent[key]
  {
  }

  lemma SentReported(infos: map<nat, Tally>, sent: map<Key, map<MsgId, nat>>, n: nat, key: Key, o: MsgId)
    requires IsSentUnion(infos, sent) && n in infos && key in infos[n].sent && o in infos[n].sent[key]
    ensures key in sent && o in sent[key]
  {
    assert infos[n].sent[key] in SentParts(infos, key);
  }

  lemma SentEntry(work: Work, published: set<MsgId>, infos: map<nat, Tally>, sent: map<Key, map<MsgId, nat>>, key: Key,
                  o: MsgId)
    requires AllTruthful(work, published, infos) && IsSentUnion(infos, sent) && key in sent && o in sent[key]
    ensures o in OnKey(work, key) && sent[key][o] == OnKey(work, key)[o]
  {
    hide Truthful, OnKey, IsSentUnion, AllTruthful;
    var n := SentFrom(infos, sent, key, o);
    TruthfulOf(work, published, infos, n);
    TruthfulSent(work, published, infos[n], key, o);
  }

  lemma NoEmptyKey(work: Work, published: set<MsgId>, t: Tally, key: Key)
    requires Truthful(work, published, t) && key in t.sent
    ensures t.sent[key] != map[]
  {
  }

  lemma SentNonempty(work: Work, published: set<MsgId>, infos: map<nat, Tally>,
                     sent: map<Key, map<MsgId, nat>>, key: Key) returns (o: MsgId)
    requires AllTruthful(work, published, infos) && IsSentUnion(infos, sent) && key in sent
    ensures o in sent[key]
  {
    hide AllTruthful, IsSentUnion, Truthful;
    var n := KeyFrom(infos, sent, key);
    TruthfulOf(work, published, infos, n);
    assert infos[n].sent[key] != map[] by {
      NoEmptyKey(work, published, infos[n], key);
    }
    o :| o in infos[n].sent[key];
    SentReported(infos, sent, n, key, o);
  }

  lemma SentIsExact(work: Work, published: set<MsgId>, infos: map<nat, Tally>,
                    received: map<MsgId, nat>, sent: map<Key, map<MsgId, nat>>, key: Key)
    requires AllTruthful(work, published, infos)
    requires IsUnion(ReceivedParts(infos), received) && IsSentUnion(infos, sent)
    requires forall o <- work.outs :: work.outs[o].parent in received
    ensures key in sent <==> key in KeysUsed(work)
    ensures key in sent ==> sent[key] == OnKey(work, key)
  {
    hide AllTruthful, IsUnion, IsSentUnion, ReceivedParts;
    forall o <- OnKey(work, key) ensures key in sent && o in sent[key] {
      OutputReported(work, published, infos, received, sent, o, key);
    }
    if key in KeysUsed(work) {
      KeyHasOutput(work, key);
    }
    if key in sent {
      var o := SentNonempty(work, published, infos, sent, key);
      forall o <- sent[key] ensures o in OnKey(work, key) && sent[key][o] == OnKey(work, key)[o] {
        SentEntry(work, published, infos, sent, key, o);
      }
      OnKeyUsed(work, key, o);
    }
  }

  /** A union of right reports counts no more than there is, and less by any batch it lacks. */
  lemma ReceivedAtMost(work: Work, published: set<MsgId>, infos: map<nat, Tally>, received: map<MsgId, nat>)
    requires forall n <- infos :: Right(work, published, infos[n])
    requires IsUnion(ReceivedParts(infos), received)
    ensures forall b <- received :: b in work.sizes && received[b] == work.sizes[b]
    ensures Sum(received) <= Sum(work.sizes)
    ensures forall b <- work.sizes :: b !in received ==> Sum(received) + work.sizes[b] <= Sum(work.sizes)
  {
    hide Right, IsUnion, ReceivedParts, Sum;
    forall b <- received ensures b in work.sizes && received[b] == work.sizes[b] {
      var n := ReceivedFrom(infos, received, b);
      RightReceived(work, published, infos[n], b);
    }
    SumPart(received, work.sizes);
    forall b <- work.sizes | b !in received ensures Sum(received) + work.sizes[b] <= Sum(work.sizes) {
      SumRemove(work.sizes, b);
      SumPart(received, work.sizes - {b});
    }
  }

  lemma RightReceived(work: Work, published: set<MsgId>, t: Tally, b: MsgId)
    requires Right(work, published, t) && b in t.rcv
    ensures b in work.sizes && t.rcv[b] == work.sizes[b]
  {
  }

  lemma AllRight(work: Work, published: set<MsgId>, infos: map<nat, Tally>)
    requires AllTruthful(work, published, infos)
    ensures forall n <- infos :: Right(work, published, infos[n])
  {
    hide Right, OutputsComplete;
  }

  /** Once the received total of a union of truthful reports is one that no batch with outputs can be missing
      from, nothing is missing: the merged counts are exact and every output is published. */
  lemma MergedIsExact(work: Work, published: set<MsgId>, infos: map<nat, Tally>,
                      received: map<MsgId, nat>, sent: map<Key, map<MsgId, nat>>)
    requires AllTruthful(work, published, infos)
    requires IsUnion(ReceivedParts(infos), received) && IsSentUnion(infos, sent)
    requires Awaited(work, Sum(received))
    ensures Totals(sent) == ExactCounts(work) && work.outs.Keys <= published
    ensures forall o <- work.outs :: work.outs[o].parent in received
  {
    hide IsUnion, IsSentUnion, AllTruthful, ReceivedParts, KeysUsed, Sum;
    AllRight(work, published, infos);
    ReceivedAtMost(work, published, infos, received);
    forall key ensures key in sent <==> key in KeysUsed(work)
      ensures key in sent ==> sent[key] == OnKey(work, key) {
      SentIsExact(work, published, infos, received, sent, key);
    }
    forall o <- work.outs ensures o in published {
      OutputReported(work, published, infos, received, sent, o, KEY_NIL);
    }
    hide OnKey;
  }

  // ---------------------------------------------------------------- steps keep the invariant

  lemma HonestGrows(stage: Stage, published: set<MsgId>, more: set<MsgId>, t: Tally)
    requires Honest(stage, published, t) && published <= more
    ensures Honest(stage, more, t)
  {
  }

  lemma PublishKeeps(stage: Stage, s: State, s': State)
    requires Invariant(stage, s) && s.published <= s'.published && s' == s.(published := s'.published)
    ensures Invariant(stage, s')
  {
    hide Honest, Recorded, ExactCounts, Safe;
    forall t: Tally | Honest(stage, s.published, t) ensures Honest(stage, s'.published, t) {
      HonestGrows(stage, s.published, s'.published, t);
    }
    forall n <- s.nodes ensures NodeInvariant(stage, s'.published, s.nodes[n]) {
      assert NodeInvariant(stage, s.published, s.nodes[n]);
    }
    forall msg <- s.net ensures MessageInvariant(stage, s'.published, msg) {
      assert MessageInvariant(stage, s.published, msg);
    }
    forall e <- s.emitted ensures EmissionInvariant(stage, s'.published, e) {
      assert EmissionInvariant(stage, s.published, e);
    }
  }

  lemma OneNodeKeeps(stage: Stage, s: State, n: nat, s': State)
    requires Invariant(stage, s) && n in s'.nodes && s'.nodes == s.nodes[n := s'.nodes[n]]
             && s'.published == s.published
    requires NodeInvariant(stage, s.published, s'.nodes[n])
    requires forall msg <- s'.net :: msg in s.net || MessageInvariant(stage, s.published, msg)
    requires forall e <- s'.emitted :: e in s.emitted || EmissionInvariant(stage, s.published, e)
    ensures Invariant(stage, s')
  {
    hide NodeInvariant, MessageInvariant, EmissionInvariant;
  }

  lemma WithSentCounts(t: Tally, key: Key, o: MsgId, count: nat, k: Key, x: MsgId)
    ensures var t' := t.WithSent(key, o, count);
            && t'.rcv == t.rcv
            && (x in t'.SentOn(k) <==> x in t.SentOn(k) || (x == o && (k == key || k == KEY_NIL)))
            && (x in t'.SentOn(k) ==>
                  t'.SentOn(k)[x] == if x == o && (k == key || k == KEY_NIL) then count else t.SentOn(k)[x])
            && (k in t'.sent ==> k in t.sent || o in t'.SentOn(k))
  {
  }

  lemma WithSentNonEmpty(t: Tally, key: Key, o: MsgId, count: nat, k: Key)
    requires (k in t.sent ==> t.sent[k] != map[]) && k in t.WithSent(key, o, count).sent
    ensures t.WithSent(key, o, count).sent[k] != map[]
  {
    if k in t.sent {
      var x :| x in t.sent[k];
      WithSentCounts(t, key, o, count, k, x);
    } else {
      WithSentCounts(t, key, o, count, k, o);
    }
  }

  /** An entry that a right tally may have. */
  ghost predicate RightEntry(work: Work, published: set<MsgId>, t: Tally, key: Key, o: MsgId) {
    o in t.SentOn(key) ==>
      && o in published && o in work.outs && t.SentOn(key)[o] == work.outs[o].count
      && (key == KEY_NIL || key == work.outs[o].key)
  }

  lemma RightHasEntry(work: Work, published: set<MsgId>, t: Tally, key: Key, o: MsgId)
    requires Right(work, published, t)
    ensures RightEntry(work, published, t, key, o)
  {
  }

  lemma EntriesAreRight(work: Work, published: set<MsgId>, t: Tally)
    requires forall key, o :: RightEntry(work, published, t, key, o)
    ensures forall key <- t.sent, o <- t.sent[key] ::
              && o in published && o in work.outs && t.sent[key][o] == work.outs[o].count
              && (key == KEY_NIL || key == work.outs[o].key)
  {
    forall key <- t.sent, o <- t.sent[key]
      ensures RightEntry(work, published, t, key, o) && t.SentOn(key) == t.sent[key]
    {
    }
  }

  lemma WithSentEntry(work: Work, published: set<MsgId>, t: Tally, o: MsgId, key: Key, x: MsgId)
    requires Right(work, published, t) && o in work.outs && o in published
    ensures RightEntry(work, published, t.WithSent(work.outs[o].key, o, work.outs[o].count), key, x)
  {
    RightHasEntry(work, published, t, key, x);
    WithSentCounts(t, work.outs[o].key, o, work.outs[o].count, key, x);
    hide Tally.WithSent, Tally.SentOn, Right;
  }

  lemma WithSentPaired(work: Work, published: set<MsgId>, t: Tally, o: MsgId, x: MsgId)
    requires Right(work, published, t) && o in work.outs && x in work.outs
    ensures var t' := t.WithSent(work.outs[o].key, o, work.outs[o].count);
            x in t'.SentOn(work.outs[x].key) <==> x in t'.SentOn(KEY_NIL)
  {
    WithSentCounts(t, work.outs[o].key, o, work.outs[o].count, work.outs[x].key, x);
    WithSentCounts(t, work.outs[o].key, o, work.outs[o].count, KEY_NIL, x);
    assert x in t.SentOn(work.outs[x].key) <==> x in t.SentOn(KEY_NIL);
    hide Tally.WithSent, Tally.SentOn, Right;
  }

  lemma RightKeys(work: Work, published: set<MsgId>, t: Tally)
    requires Right(work, published, t)
    ensures (forall b <- t.rcv :: b in work.sizes && t.rcv[b] == work.sizes[b])
    ensures forall key <- t.sent :: t.sent[key] != map[]
  {
  }

  lemma IsRight(work: Work, published: set<MsgId>, t: Tally)
    requires (forall b <- t.rcv :: b in work.sizes && t.rcv[b] == work.sizes[b])
    requires forall key <- t.sent :: t.sent[key] != map[]
    requires forall key, o :: RightEntry(work, published, t, key, o)
    requires forall o <- work.outs :: o in t.SentOn(work.outs[o].key) <==> o in t.SentOn(KEY_NIL)
    ensures Right(work, published, t)
  {
    EntriesAreRight(work, published, t);
    hide Tally.SentOn, RightEntry;
  }

  lemma WithSentRight(work: Work, published: set<MsgId>, t: Tally, o: MsgId)
    requires Right(work, published, t) && o in work.outs && o in published
    ensures Right(work, published, t.WithSent(work.outs[o].key, o, work.outs[o].count))
  {
    hide Tally.WithSent, Tally.SentOn, Right, RightEntry;
    var out := work.outs[o];
    var t' := t.WithSent(out.key, o, out.count);
    RightKeys(work, published, t);
    WithSentCounts(t, out.key, o, out.count, KEY_NIL, o);
    forall key <- t'.sent ensures t'.sent[key] != map[] {
      WithSentNonEmpty(t, out.key, o, out.count, key);
    }
    forall key, x ensures RightEntry(work, published, t', key, x) {
      WithSentEntry(work, published, t, o, key, x);
    }
    forall x <- work.outs ensures x in t'.SentOn(work.outs[x].key) <==> x in t'.SentOn(KEY_NIL) {
      WithSentPaired(work, published, t, o, x);
    }
    IsRight(work, published, t');
  }

  lemma WithSentRecorded(work: Work, t: Tally, o: MsgId, x: MsgId)
    requires o in work.outs && x in work.outs
    ensures var t' := t.WithSent(work.outs[o].key, o, work.outs[o].count);
            t'.rcv == t.rcv && (Recorded(work, t, x) || x == o ==> Recorded(work, t', x))
  {
    WithSentCounts(t, work.outs[o].key, o, work.outs[o].count, work.outs[x].key, x);
    WithSentCounts(t, work.outs[o].key, o, work.outs[o].count, KEY_NIL, x);
  }

  lemma WithSentHonest(stage: Stage, published: set<MsgId>, t: Tally, o: MsgId)
    requires Honest(stage, published, t) && o in stage.work.outs && o in published
    ensures var t' := t.WithSent(stage.work.outs[o].key, o, stage.work.outs[o].count);
            && Honest(stage, published, t') && Recorded(stage.work, t', o)
            && forall x <- stage.work.outs :: Recorded(stage.work, t, x) ==> Recorded(stage.work, t', x)
  {
    hide Right, Recorded, Tally.WithSent;
    WithSentRight(stage.work, published, t, o);
    forall x <- stage.work.outs
      ensures var t' := t.WithSent(stage.work.outs[o].key, o, stage.work.outs[o].count);
              t'.rcv == t.rcv && (Recorded(stage.work, t, x) || x == o ==> Recorded(stage.work, t', x))
    {
      WithSentRecorded(stage.work, t, o, x);
    }
  }

  lemma WithReceivedHonest(stage: Stage, published: set<MsgId>, t: Tally, b: MsgId)
    requires Honest(stage, published, t) && b in stage.work.sizes
    requires stage.orderly ==>
               forall o <- stage.work.outs :: stage.work.outs[o].parent == b ==> Recorded(stage.work, t, o)
    ensures Honest(stage, published, t.WithReceived(b, stage.work.sizes[b]))
  {
    var t' := t.WithReceived(b, stage.work.sizes[b]);
    forall o <- stage.work.outs | stage.orderly && stage.work.outs[o].parent in t'.rcv
      ensures Recorded(stage.work, t', o)
    {
      assert Recorded(stage.work, t, o);
    }
  }

  lemma RecordSentKeeps(stage: Stage, s: State, n: nat, o: MsgId, s': State)
    requires Invariant(stage, s) && RecordSent(stage, s, n, o, s')
    ensures Invariant(stage, s')
  {
    hide Honest, Recorded, MessageInvariant, EmissionInvariant, Tally.WithSent;
    var m := Known(s.nodes[n].member);
    assert NodeInvariant(stage, s.published, s.nodes[n]);
    NothingIsHonest(stage, s.published);
    WithSentHonest(stage, s.published, m.tally, o);
    assert NodeInvariant(stage, s.published, s'.nodes[n]);
    hide NodeInvariant;
    OneNodeKeeps(stage, s, n, s');
  }

  lemma RecordReceivedKeeps(stage: Stage, s: State, n: nat, s': State)
    requires Invariant(stage, s) && RecordReceived(stage, s, n, s')
    ensures Invariant(stage, s')
  {
    hide Honest, Recorded, MessageInvariant, EmissionInvariant;
    var m := Known(s.nodes[n].member);
    assert NodeInvariant(stage, s.published, s.nodes[n]);
    NothingIsHonest(stage, s.published);
    WithReceivedHonest(stage, s.published, m.tally, s.nodes[n].hand.value.batch);
    assert NodeInvariant(stage, s.published, s'.nodes[n]);
    hide NodeInvariant;
    OneNodeKeeps(stage, s, n, s');
  }

  lemma LocalKeeps(stage: Stage, s: State, n: nat, s': State)
    requires Invariant(stage, s) && (SaveSnapshot(s, n, s') || Crash(s, n, s'))
    ensures Invariant(stage, s')
  {
    hide Honest, Recorded, MessageInvariant, EmissionInvariant;
    assert NodeInvariant(stage, s.published, s.nodes[n]);
    assert NodeInvariant(stage, s.published, s'.nodes[n]);
    hide NodeInvariant;
    OneNodeKeeps(stage, s, n, s');
  }

  /** What one member may do to the outside: true responses, right counts. */
  ghost predicate HonestEffect(stage: Stage, published: set<MsgId>, e: Effect) {
    && (e.Send? ==> MessageInvariant(stage, published, e.msg))
    && (e.LeaderFlush? ==> EmissionInvariant(stage, published, Counted(e.counts)))
  }

  lemma AwaitedMore(work: Work, total: int, more: int)
    requires Awaited(work, total) && total <= more
    ensures Awaited(work, more)
  {
  }

  lemma HonestIsTruthful(stage: Stage, published: set<MsgId>, infos: map<nat, Tally>)
    requires forall n <- infos :: Honest(stage, published, infos[n])
    ensures forall n <- infos :: Right(stage.work, published, infos[n])
    ensures Safe(stage) ==> AllTruthful(stage.work, published, infos)
  {
    hide Right, Recorded, Announced;
  }

  lemma TotalIsAwaited(stage: Stage, total: int)
    requires Announced(stage) && total in stage.Totals()
    ensures Awaited(stage.work, total)
  {
    hide Awaited;
  }

  /** The flush branch: the announced total was reached, and if the stage is safe the counts are exact. */
  lemma FlushIsHonest(stage: Stage, published: set<MsgId>, m: Member, received: map<MsgId, nat>,
                      sent: map<Key, map<MsgId, nat>>)
    requires HonestMember(stage, published, m) && m.leader && Sum(received) >= m.expected
    requires IsUnion(ReceivedParts(m.infos), received) && IsSentUnion(m.infos, sent)
    ensures EmissionInvariant(stage, published, Counted(Totals(sent)))
  {
    hide Honest, IsUnion, IsSentUnion, ReceivedParts, Announced, Awaited, Totals, ExactCounts, AllTruthful,
         Stage.Totals;
    HonestIsTruthful(stage, published, m.infos);
    ReceivedAtMost(stage.work, published, m.infos, received);
    assert m.expected in stage.Totals() && m.expected <= Sum(stage.work.sizes);
    if Safe(stage) {
      TotalIsAwaited(stage, m.expected);
      AwaitedMore(stage.work, m.expected, Sum(received));
      MergedIsExact(stage.work, published, m.infos, received, sent);
    }
  }

  lemma DecidedIsHonest(stage: Stage, published: set<MsgId>, cfg: Settings, m: Member, m': Option<Member>,
                        out: seq<Effect>)
    requires HonestMember(stage, published, m) && m.leader && Checked(cfg, m, m', out)
    ensures forall e <- out :: HonestEffect(stage, published, e)
    ensures m'.Some? ==> HonestMember(stage, published, m'.value) && m'.value.tally == m.tally
  {
    hide Honest, IsUnion, IsSentUnion, Totals, ReceivedParts, EmissionInvariant, Stage.Totals;
    var received: map<MsgId, nat>, sent: map<Key, map<MsgId, nat>> :|
      IsUnion(ReceivedParts(m.infos), received) && IsSentUnion(m.infos, sent)
      && Decided(cfg, m, received, sent, m', out);
    if Sum(received) >= m.expected {
      FlushIsHonest(stage, published, m, received, sent);
    }
  }

  lemma HandledIsHonest(stage: Stage, published: set<MsgId>, cfg: Settings, m: Option<Member>, msg: Control,
                        m': Option<Member>, out: seq<Effect>)
    requires m.Some? ==> HonestMember(stage, published, m.value)
    requires MessageInvariant(stage, published, msg) && Handled(cfg, m, msg, m', out)
    ensures forall e <- out :: HonestEffect(stage, published, e)
    ensures m'.Some? ==> HonestMember(stage, published, m'.value) && m'.value.tally == Known(m).tally
  {
    hide Honest, Checked, EmissionInvariant, Stage.Totals;
    match msg {
      case AmountRequest(_) => NothingIsHonest(stage, published);
      case AmountResponse(_, sender, tally) =>
        if m.Some? && m.value.leader {
          var heard := m.value.(infos := m.value.infos[sender := tally]);
          assert HonestMember(stage, published, heard);
          if |heard.infos| == cfg.nodes {
            DecidedIsHonest(stage, published, cfg, heard, m', out);
          }
        }
      case Flush(_) =>
      case RetryExceeded =>
    }
  }

  lemma {:induction false} EmissionsFrom(out: seq<Effect>, e: Emission)
    requires e in Emissions(out) && e.Counted?
    ensures LeaderFlush(e.counts) in out
  {
    if out[0] != LeaderFlush(e.counts) {
      EmissionsFrom(out[1..], e);
    }
  }

  lemma DeliverKeeps(stage: Stage, s: State, n: nat, msg: Control, m': Option<Member>, out: seq<Effect>, s': State)
    requires Invariant(stage, s) && Deliver(stage, s, n, msg, m', out, s')
    ensures Invariant(stage, s')
  {
    hide Handled, MessageInvariant, Honest, Recorded, EmissionInvariant, HonestMember;
    assert NodeInvariant(stage, s.published, s.nodes[n]);
    HandledIsHonest(stage, s.published, SettingsOf(stage, s, n), s.nodes[n].member, msg, m', out);
    assert NodeInvariant(stage, s.published, s'.nodes[n]);
    hide NodeInvariant;
    forall e <- Emissions(out) ensures EmissionInvariant(stage, s.published, e) {
      if e.Counted? {
        EmissionsFrom(out, e);
        assert HonestEffect(stage, s.published, LeaderFlush(e.counts));
      } else {
        OtherEmission(stage, s.published, e);
      }
    }
    hide Emissions;
    OneNodeKeeps(stage, s, n, s');
  }

  lemma OtherEmission(stage: Stage, published: set<MsgId>, e: Emission)
    requires !e.Counted?
    ensures EmissionInvariant(stage, published, e)
  {
  }

  lemma SyncedIsHonest(stage: Stage, published: set<MsgId>, cfg: Settings, m: Option<Member>, counts: map<Key, int>,
                       ack: AckTag, m': Option<Member>, out: seq<Effect>)
    requires (m.Some? ==> HonestMember(stage, published, m.value)) && counts in stage.eofs
    requires Synced(cfg, m, Some(counts), stage.key, Some(ack), m', out)
    ensures forall msg <- Sends(out) :: MessageInvariant(stage, published, msg)
    ensures m'.Some? ==> HonestMember(stage, published, m'.value) && m'.value.tally == Known(m).tally
  {
    hide Honest;
    NothingIsHonest(stage, published);
  }

  lemma SyncKeeps(stage: Stage, s: State, n: nat, counts: map<Key, int>, ack: AckTag, m': Option<Member>,
                  out: seq<Effect>, s': State)
    requires Invariant(stage, s) && Sync(stage, s, n, counts, ack, m', out, s')
    ensures Invariant(stage, s')
  {
    hide Synced, MessageInvariant, Honest, Recorded, HonestMember, EmissionInvariant, Sends;
    assert NodeInvariant(stage, s.published, s.nodes[n]);
    SyncedIsHonest(stage, s.published, SettingsOf(stage, s, n), s.nodes[n].member, counts, ack, m', out);
    assert NodeInvariant(stage, s.published, s'.nodes[n]);
    hide NodeInvariant;
    OtherEmission(stage, s.published, PassedOn(counts));
    OneNodeKeeps(stage, s, n, s');
  }

  lemma NextKeeps(stage: Stage, s: State, s': State)
    requires Invariant(stage, s) && Next(stage, s, s')
    ensures Invariant(stage, s')
  {
    hide Invariant, RecordSent, RecordReceived, SaveSnapshot, Crash, Sync, Deliver, Publish, Take;
    if n, b :| Take(stage, s, n, b, s') {
      TakeKeeps(stage, s, n, b, s');
    } else if n, o :| Publish(stage, s, n, o, s') {
      assert s.published <= s'.published && s' == s.(published := s'.published) by {
        PublishFrame(stage, s, n, o, s');
      }
      PublishKeeps(stage, s, s');
    } else if n, o :| RecordSent(stage, s, n, o, s') {
      RecordSentKeeps(stage, s, n, o, s');
    } else if n :| RecordReceived(stage, s, n, s') {
      RecordReceivedKeeps(stage, s, n, s');
    } else if n :| SaveSnapshot(s, n, s') {
      LocalKeeps(stage, s, n, s');
    } else if n :| Crash(s, n, s') {
      LocalKeeps(stage, s, n, s');
    } else if n, counts, ack, m', out :| Sync(stage, s, n, counts, ack, m', out, s') {
      SyncKeeps(stage, s, n, counts, ack, m', out, s');
    } else if n, msg, m', out :| Deliver(stage, s, n, msg, m', out, s') {
      DeliverKeeps(stage, s, n, msg, m', out, s');
    }
  }

  lemma PublishFrame(stage: Stage, s: State, n: nat, o: MsgId, s': State)
    requires Publish(stage, s, n, o, s')
    ensures s.published <= s'.published && s' == s.(published := s'.published)
  {
  }

  lemma TakeKeeps(stage: Stage, s: State, n: nat, b: MsgId, s': State)
    requires Invariant(stage, s) && Take(stage, s, n, b, s')
    ensures Invariant(stage, s')
  {
    hide Honest, Recorded, MessageInvariant, EmissionInvariant, HonestMember;
    assert NodeInvariant(stage, s.published, s.nodes[n]);
    assert NodeInvariant(stage, s.published, s'.nodes[n]);
    hide NodeInvariant;
    OneNodeKeeps(stage, s, n, s');
  }

  lemma {:induction false} Reachable(stage: Stage, run: seq<State>, i: nat)
    requires IsRun(stage, run) && i < |run|
    ensures Invariant(stage, run[i])
  {
    hide Next;
    if i > 0 {
      Reachable(stage, run, i - 1);
      hide Invariant;
      NextKeeps(stage, run[i - 1], run[i]);
    }
  }

  // ---------------------------------------------------------------- completeness, exactness, agreement

  /** Whenever a leader has counted the stage complete, every output of every batch was published and
      the EOF it emitted is exact, key by key. */
  lemma CountedIsExact(stage: Stage, run: seq<State>, i: nat, e: Emission)
    requires Safe(stage) && IsRun(stage, run) && i < |run| && e in run[i].emitted && e.Counted?
    ensures e.counts == ExactCounts(stage.work)
    ensures stage.work.outs.Keys <= run[i].published
  {
    Reachable(stage, run, i);
    hide IsRun, Safe, NodeInvariant, MessageInvariant, ExactCounts;
    assert EmissionInvariant(stage, run[i].published, e);
  }

  /** Every union of right reports has the same batches. */
  lemma UnionsAgree(work: Work, published: set<MsgId>, infos: map<nat, Tally>, u: map<MsgId, nat>, v: map<MsgId, nat>)
    requires (forall n <- infos :: Right(work, published, infos[n]))
    requires IsUnion(ReceivedParts(infos), u) && IsUnion(ReceivedParts(infos), v)
    ensures u == v
  {
    hide Right, ReceivedParts, IsUnion, Sum;
    ReceivedAtMost(work, published, infos, u);
    ReceivedAtMost(work, published, infos, v);
    forall id ensures (id in u ==> id in v) && (id in v ==> id in u) {
      SameId(ReceivedParts(infos), u, v, id);
      SameId(ReceivedParts(infos), v, u, id);
    }
  }

  lemma SameId(parts: set<map<MsgId, nat>>, u: map<MsgId, nat>, v: map<MsgId, nat>, id: MsgId)
    requires IsUnion(parts, u) && IsUnion(parts, v)
    ensures id in u ==> id in v
  {
    if id in u {
      var p :| p in parts && id in p && p[id] == u[id];
    }
  }

  /** The only message on which a member emits counts: the last missing answer, with a sufficient total. */
  lemma CountsFrom(cfg: Settings, m: Option<Member>, msg: Control, m': Option<Member>, out: seq<Effect>,
                   counts: map<Key, int>)
    returns (received: map<MsgId, nat>)
    requires EofControl.Handled(cfg, m, msg, m', out) && LeaderFlush(counts) in out
    ensures msg.AmountResponse? && m.Some? && m.value.leader && Sum(received) >= m.value.expected
    ensures IsUnion(ReceivedParts(m.value.infos[msg.sender := msg.tally]), received)
  {
    hide Sum, IsUnion, IsSentUnion, ReceivedParts, Totals;
    var heard := m.value.(infos := m.value.infos[msg.sender := msg.tally]);
    var u: map<MsgId, nat>, sent: map<Key, map<MsgId, nat>> :|
      IsUnion(ReceivedParts(heard.infos), u) && IsSentUnion(heard.infos, sent) && Decided(cfg, heard, u, sent, m', out);
    received := u;
  }

  /** Whenever a leader that waits for at least what the stage was sent counts it complete, the union of the
      reported ids is all batches but empty ones, with their sizes, however it is merged. */
  lemma CountedHasAll(stage: Stage, run: seq<State>, i: nat, n: nat, msg: Control, m': Option<Member>, out: seq<Effect>,
                      counts: map<Key, int>, u: map<MsgId, nat>)
    requires IsRun(stage, run) && i + 1 < |run| && Deliver(stage, run[i], n, msg, m', out, run[i + 1])
    requires LeaderFlush(counts) in out && forall total <- stage.Totals() :: total >= Sum(stage.work.sizes)
    requires msg.AmountResponse? && run[i].nodes[n].member.Some?
    requires IsUnion(ReceivedParts(run[i].nodes[n].member.value.infos[msg.sender := msg.tally]), u)
    ensures forall b <- u :: b in stage.work.sizes && u[b] == stage.work.sizes[b]
    ensures forall b <- stage.work.sizes :: b in u || stage.work.sizes[b] == 0
  {
    hide Sum, IsUnion, ReceivedParts, IsRun, Stage.Totals, EofControl.Handled, Right, OutputsComplete;
    var s, work := run[i], stage.work;
    var m := s.nodes[n].member.value;
    var infos := m.infos[msg.sender := msg.tally];
    Reachable(stage, run, i);
    assert NodeInvariant(stage, s.published, s.nodes[n]) && MessageInvariant(stage, s.published, msg);
    var received := CountsFrom(SettingsOf(stage, s, n), s.nodes[n].member, msg, m', out, counts);
    UnionsAgree(work, s.published, infos, u, received);
    ReceivedAtMost(work, s.published, infos, u);
  }

  /** Any two such EOFs are equal, whoever emitted them. */
  lemma Agreement(stage: Stage, run: seq<State>, i: nat, j: nat, e: Emission, f: Emission)
    requires Safe(stage) && IsRun(stage, run) && i < |run| && j < |run|
    requires e in run[i].emitted && f in run[j].emitted && e.Counted? && f.Counted?
    ensures e == f
  {
    hide IsRun, Safe, ExactCounts;
    CountedIsExact(stage, run, i, e);
    CountedIsExact(stage, run, j, f);
  }

  /** A stage that forgets clients between batches only is safe if every EOF it reads is a flush signal or
      announces at least what it was sent. */
  lemma EnoughIsSafe(stage: Stage)
    requires stage.orderly && Derived(stage.work)
    requires forall counts <- stage.eofs :: stage.Read(counts) == -1 || stage.Read(counts) >= Sum(stage.work.sizes)
    ensures Safe(stage)
  {
    hide Sum;
  }

  /** The next stage reads from this EOF exactly what it will receive: the messages on its key. */
  lemma NextStageExpects(work: Work, key: Key)
    ensures EofControl.Expected(Some(ExactCounts(work)), key) == Sum(OnKey(work, key))
  {
    if key !in KeysUsed(work) {
      forall o ensures o !in OnKey(work, key) {
        if o in OnKey(work, key) {
          OnKeyUsed(work, key, o);
        }
      }
      assert OnKey(work, key) == map[];
    }
  }
}
