// HeavyAccountsMonitor, the barrier that collects every replica's heavy accounts, and
// PublishHeavy, which sends one replica's own: all batches strictly before the done marker.
module HeavyMonitor {
  import opened Bytes
  import opened Accounts
  import opened Dedup

  datatype Side = Source | Sink

  /** Heavy accounts of both kinds. */
  datatype Heavy = Heavy(sources: set<Account>, sinks: set<Account>) {
    function Add(side: Side, accounts: set<Account>): Heavy {
      if side.Sink? then this.(sinks := sinks + accounts) else this.(sources := sources + accounts)
    }

    function Plus(other: Heavy): Heavy {
      Heavy(sources + other.sources, sinks + other.sinks)
    }

    predicate Within(other: Heavy) {
      sources <= other.sources && sinks <= other.sinks
    }
  }

  function SetOf(accounts: seq<Account>): set<Account> {
    set a <- accounts
  }

  const NO_HEAVY := Heavy({}, {})

  datatype Degree = Degree(heavy: Heavy, donePeers: set<nat>, localDone: bool, sealed: bool)

  const NO_DEGREE := Degree(NO_HEAVY, {}, false, false)

  /** isReady: seals when the local part and all peers are done, and answers true just then. */
  function Ready(d: Degree, target: nat): (Degree, bool) {
    if d.sealed || !d.localDone || |d.donePeers| < target then (d, false) else (d.(sealed := true), true)
  }

  function MergedLocal(d: Degree, local: Heavy, target: nat): (Degree, bool) {
    if d.sealed then (d, false) else Ready(d.(heavy := d.heavy.Plus(local), localDone := true), target)
  }

  function RecordedBatch(d: Degree, side: Side, accounts: set<Account>): Degree {
    if d.sealed then d else d.(heavy := d.heavy.Add(side, accounts))
  }

  function RecordedDone(d: Degree, sender: nat, target: nat): (Degree, bool) {
    if d.sealed then (d, false) else Ready(d.(donePeers := d.donePeers + {sender}), target)
  }

  class HeavyAccountsMonitor {
    const self: nat
    const peerTarget: nat
    var perClient: map<ClientId, Degree>

    constructor (self: nat, workers: int)
      ensures this.self == self && peerTarget == (if workers < 1 then 0 else workers - 1) && perClient == map[]
    {
      this.self := self;
      peerTarget := if workers < 1 then 0 else workers - 1;
      perClient := map[];
    }

    function Of(c: ClientId): Degree
      reads this
    {
      if c in perClient then perClient[c] else NO_DEGREE
    }

    method IsReady(c: ClientId) returns (ready: bool)
      requires c in perClient
      modifies this
      ensures perClient == old(perClient)[c := Ready(old(Of(c)), peerTarget).0]
              && ready == Ready(old(Of(c)), peerTarget).1
      ensures ready <==> !old(Of(c)).sealed && old(Of(c)).localDone && |old(Of(c)).donePeers| >= peerTarget
      ensures Of(c) == old(Of(c)).(sealed := old(Of(c)).sealed || ready)
    {
      var d := perClient[c];
      if d.sealed || !d.localDone || |d.donePeers| < peerTarget {
        return false;
      }
      perClient := perClient[c := d.(sealed := true)];
      return true;
    }

    method MergeLocal(c: ClientId, local: Heavy) returns (ready: bool)
      modifies this
      ensures var (d, r) := MergedLocal(old(Of(c)), local, peerTarget);
              perClient == old(perClient)[c := d] && ready == r
      ensures old(Of(c)).sealed ==> Of(c) == old(Of(c)) && !ready
      ensures !old(Of(c)).sealed ==>
                && Of(c).heavy.sources == old(Of(c)).heavy.sources + local.sources
                && Of(c).heavy.sinks == old(Of(c)).heavy.sinks + local.sinks
                && Of(c).localDone && Of(c).donePeers == old(Of(c)).donePeers
                && (ready <==> Of(c).sealed) && (Of(c).sealed <==> |old(Of(c)).donePeers| >= peerTarget)
    {
      var d := Of(c);
      perClient := perClient[c := d];
      if d.sealed {
        return false;
      }
      perClient := perClient[c := d.(heavy := d.heavy.Plus(local), localDone := true)];
      ready := IsReady(c);
    }

    method RecordHeavyBatch(c: ClientId, sender: nat, side: Side, accounts: seq<Account>)
      modifies this
      ensures perClient == if sender == self then old(perClient)
                           else old(perClient)[c := RecordedBatch(old(Of(c)), side, SetOf(accounts))]
      ensures sender != self && !old(Of(c)).sealed ==>
                var (before, after) := (old(Of(c)).heavy, Of(c).heavy);
                && (forall a :: a in after.sinks <==> a in before.sinks || (side == Sink && a in accounts))
                && (forall a :: a in after.sources <==> a in before.sources || (side == Source && a in accounts))
                && Of(c) == old(Of(c)).(heavy := after)
    {
      if sender == self {
        return;
      }
      var d := Of(c);
      if !d.sealed {
        var found := if side.Sink? then d.heavy.sinks else d.heavy.sources;
        ghost var before := found;
        for i := 0 to |accounts|
          invariant found == before + SetOf(accounts[..i])
        {
          assert SetOf(accounts[..i + 1]) == SetOf(accounts[..i]) + {accounts[i]};
          found := found + {accounts[i]};
        }
        assert accounts[..|accounts|] == accounts;
        d := d.(heavy := if side.Sink? then d.heavy.(sinks := found) else d.heavy.(sources := found));
      }
      perClient := perClient[c := d];
    }

    method RecordDone(c: ClientId, sender: nat) returns (ready: bool)
      modifies this
      ensures if sender == self then perClient == old(perClient) && !ready
              else
                var (d, r) := RecordedDone(old(Of(c)), sender, peerTarget);
                perClient == old(perClient)[c := d] && ready == r
      ensures sender != self && old(Of(c)).sealed ==> Of(c) == old(Of(c)) && !ready
      ensures sender != self && !old(Of(c)).sealed ==>
                && Of(c).donePeers == old(Of(c)).donePeers + {sender}
                && Of(c).heavy == old(Of(c)).heavy && Of(c).localDone == old(Of(c)).localDone
                && (ready <==> Of(c).sealed)
                && (Of(c).sealed <==> old(Of(c)).localDone && |old(Of(c)).donePeers + {sender}| >= peerTarget)
    {
      if sender == self {
        return false;
      }
      var d := Of(c);
      perClient := perClient[c := d];
      if d.sealed {
        return false;
      }
      perClient := perClient[c := d.(donePeers := d.donePeers + {sender})];
      ready := IsReady(c);
    }

    /** What a checkpoint saves of the client: nothing if it is not known, else what restoring puts in place. */
    method Snapshot(c: ClientId) returns (d: Option<Degree>)
      ensures d.None? <==> c !in perClient
      ensures d.Some? ==> d.value == Of(c) && perClient[c := d.value] == perClient
    {
      d := if c in perClient then Some(perClient[c]) else None;
    }

    method Restore(c: ClientId, d: Degree)
      modifies this
      ensures perClient == old(perClient)[c := d]
    {
      perClient := perClient[c := d];
    }

    method Forget(c: ClientId)
      modifies this
      ensures perClient == old(perClient) - {c}
    {
      perClient := perClient - {c};
    }
  }

  // ---------------------------------------------------------------- publishing

  datatype PeerMessage = HeavyBatch(side: Side, accounts: seq<Account>) | Done

  const HEAVY_BATCH_SIZE := 1000

  /** All accounts the batches of a message list carry. */
  function Carried(msgs: seq<PeerMessage>): Heavy {
    if msgs == [] then NO_HEAVY
    else
      var m := msgs[|msgs| - 1];
      var before := Carried(msgs[..|msgs| - 1]);
      if m.Done? then before else before.Add(m.side, SetOf(m.accounts))
  }

  lemma CarriedSnoc(msgs: seq<PeerMessage>, m: PeerMessage)
    ensures Carried(msgs + [m]) == if m.Done? then Carried(msgs) else Carried(msgs).Add(m.side, SetOf(m.accounts))
  {
    assert (msgs + [m])[..|msgs|] == msgs;
  }

  lemma {:induction false} CarriedAppend(a: seq<PeerMessage>, b: seq<PeerMessage>)
    ensures Carried(a + b) == Carried(a).Plus(Carried(b))
    decreases |b|
  {
    if b == [] {
      assert a + b == a;
    } else {
      var init, m := b[..|b| - 1], b[|b| - 1];
      assert a + b == (a + init) + [m] && b == init + [m];
      CarriedSnoc(a + init, m);
      CarriedSnoc(init, m);
      CarriedAppend(a, init);
    }
  }

  /** A complete publication: the replica's heavy accounts in batches, then the marker. */
  ghost predicate Publication(msgs: seq<PeerMessage>, heavy: Heavy) {
    && msgs != [] && msgs[|msgs| - 1] == Done && Carried(msgs) == heavy
    && forall i :: 0 <= i < |msgs| - 1 ==> msgs[i].HeavyBatch? && 0 < |msgs[i].accounts| <= HEAVY_BATCH_SIZE
  }

  ghost predicate BoundedBatches(msgs: seq<PeerMessage>) {
    forall m <- msgs :: m.HeavyBatch? && 0 < |m.accounts| <= HEAVY_BATCH_SIZE
  }

  /** publishBatches: the set in any order, cut into batches. */
  method PublishBatches(side: Side, accounts: set<Account>) returns (msgs: seq<PeerMessage>)
    ensures BoundedBatches(msgs) && Carried(msgs) == NO_HEAVY.Add(side, accounts)
  {
    msgs := [];
    var batch: seq<Account> := [];
    var todo := accounts;
    while todo != {}
      invariant todo <= accounts && |batch| < HEAVY_BATCH_SIZE && BoundedBatches(msgs)
      invariant Carried(msgs).Add(side, SetOf(batch)) == NO_HEAVY.Add(side, accounts - todo)
      decreases todo
    {
      var a :| a in todo;
      ghost var before := batch;
      batch := batch + [a];
      assert SetOf(batch) == SetOf(before) + {a};
      AddTwice(Carried(msgs), side, SetOf(before), {a});
      AddTwice(NO_HEAVY, side, accounts - todo, {a});
      assert accounts - (todo - {a}) == (accounts - todo) + {a};
      todo := todo - {a};
      if |batch| >= HEAVY_BATCH_SIZE {
        CarriedSnoc(msgs, HeavyBatch(side, batch));
        AddNothing(Carried(msgs + [HeavyBatch(side, batch)]), side);
        msgs := msgs + [HeavyBatch(side, batch)];
        batch := [];
      }
    }
    assert accounts - todo == accounts;
    if batch != [] {
      CarriedSnoc(msgs, HeavyBatch(side, batch));
      msgs := msgs + [HeavyBatch(side, batch)];
    } else {
      AddNothing(Carried(msgs), side);
    }
  }

  lemma AddTwice(h: Heavy, side: Side, a: set<Account>, b: set<Account>)
    ensures h.Add(side, a).Add(side, b) == h.Add(side, a + b)
  {
    assert h.sinks + a + b == h.sinks + (a + b) && h.sources + a + b == h.sources + (a + b);
  }

  lemma AddNothing(h: Heavy, side: Side)
    ensures h.Add(side, SetOf([])) == h
  {
    assert SetOf([]) == {} && h.sinks + {} == h.sinks && h.sources + {} == h.sources;
  }

  /** PublishHeavy. */
  method PublishHeavy(heavy: Heavy) returns (msgs: seq<PeerMessage>)
    ensures Publication(msgs, heavy)
  {
    var sources := PublishBatches(Source, heavy.sources);
    var sinks := PublishBatches(Sink, heavy.sinks);
    CarriedAppend(sources, sinks);
    CarriedSnoc(sources + sinks, Done);
    assert {} + heavy.sources == heavy.sources && {} + heavy.sinks == heavy.sinks
           && heavy.sources + {} == heavy.sources;
    msgs := sources + sinks + [Done];
  }
}
