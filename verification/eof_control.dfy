// SyncEOFController: every replica of a stage tallies the batches it received and
// sent; a leader merges the tallies and emits the stage's EOF once they are complete.
module EofControl {
  import opened Bytes
  import opened Dedup
  import opened Coordinators
  import opened Sums

  /** A routing key. */
  type Key = string

  /** The key under which every sent batch is also counted. */
  const KEY_NIL: Key := ""

  /** Transactions per batch id: received, and sent per key. */
  datatype Tally = Tally(rcv: map<MsgId, nat>, sent: map<Key, map<MsgId, nat>>) {
    function WithReceived(id: MsgId, count: nat): Tally {
      this.(rcv := rcv[id := count])
    }

    function SentOn(key: Key): map<MsgId, nat> {
      if key in sent then sent[key] else map[]
    }

    function WithSentOn(key: Key, id: MsgId, count: nat): Tally {
      this.(sent := sent[key := SentOn(key)[id := count]])
    }

    /** MessageSentWithKey: under its own key and under KEY_NIL. */
    function WithSent(key: Key, id: MsgId, count: nat): Tally {
      if key == KEY_NIL then WithSentOn(KEY_NIL, id, count)
      else WithSentOn(key, id, count).WithSentOn(KEY_NIL, id, count)
    }
  }

  const NOTHING := Tally(map[], map[])

  /** What one replica knows of one client. `infos` holds the responses by sender. */
  datatype Member = Member(
    tally: Tally, expected: int, retries: nat, leader: bool, ack: Option<AckTag>, infos: map<nat, Tally>)

  const NEW_MEMBER := Member(NOTHING, 0, 0, false, None, map[])

  datatype Control =
    | AmountRequest(requester: nat)
    | AmountResponse(requester: nat, sender: nat, tally: Tally)
    | Flush(requester: nat)
    | RetryExceeded

  /** What a controller does to its surroundings: control messages, callbacks, the EOF's ack. */
  datatype Effect =
    | Send(msg: Control)
    | LeaderFlush(counts: map<Key, int>)
    | OnFlush
    | OnRetryExceeded
    | FireAck(ack: AckTag)

  function FireIf(ack: Option<AckTag>): seq<Effect> {
    if ack.Some? then [FireAck(ack.value)] else []
  }

  /** cleanupClientState: only a leader holds an EOF to acknowledge. */
  function CleanupEffects(m: Option<Member>): seq<Effect> {
    if m.Some? && m.value.leader then FireIf(m.value.ack) else []
  }

  /** The acks that fire, in order. */
  function AcksIn(out: seq<Effect>): seq<AckTag> {
    if out == [] then [] else (if out[0].FireAck? then [out[0].ack] else []) + AcksIn(out[1..])
  }

  /** The ack that is held if the client is led. */
  function HeldAck(m: Option<Member>): seq<AckTag> {
    if m.Some? && m.value.leader && m.value.ack.Some? then [m.value.ack.value] else []
  }

  lemma {:induction false} AcksAppend(a: seq<Effect>, b: seq<Effect>)
    ensures AcksIn(a + b) == AcksIn(a) + AcksIn(b)
  {
    if a == [] {
      assert a + b == b;
    } else {
      assert (a + b)[1..] == a[1..] + b && (a + b)[0] == a[0];
      AcksAppend(a[1..], b);
      var first := if a[0].FireAck? then [a[0].ack] else [];
      assert AcksIn(a + b) == first + AcksIn(a[1..] + b) && AcksIn(a) == first + AcksIn(a[1..]);
      hide AcksIn;
      assert first + (AcksIn(a[1..]) + AcksIn(b)) == first + AcksIn(a[1..]) + AcksIn(b);
    }
  }

  /** Forgetting a client acknowledges the EOF it was led with, and nothing else. */
  lemma CleanupAcks(m: Option<Member>, a: Effect, b: Effect)
    requires !a.FireAck? && !b.FireAck?
    ensures AcksIn(CleanupEffects(m)) == HeldAck(m) && AcksIn([]) == AcksIn([a]) == AcksIn([a, b]) == []
    ensures AcksIn([a] + CleanupEffects(m)) == AcksIn([a, b] + CleanupEffects(m)) == HeldAck(m)
  {
    var out := CleanupEffects(m);
    assert out == [] || out[1..] == [];
    assert [a][1..] == [] && [a, b][1..] == [b] && [b][1..] == [];
    AcksAppend([a], out);
    AcksAppend([a, b], out);
  }

  // ---------------------------------------------------------------- merging

  /** One entry per id that occurs in some part, with the count some part gives it. */
  ghost predicate IsUnion(parts: set<map<MsgId, nat>>, u: map<MsgId, nat>) {
    && (forall p <- parts, id <- p :: id in u)
    && (forall id <- u :: exists p <- parts :: id in p && p[id] == u[id])
  }

  ghost function ReceivedParts(infos: map<nat, Tally>): set<map<MsgId, nat>> {
    set n <- infos :: infos[n].rcv
  }

  ghost function SentParts(infos: map<nat, Tally>, key: Key): set<map<MsgId, nat>> {
    set n <- infos | key in infos[n].sent :: infos[n].sent[key]
  }

  ghost predicate IsSentUnion(infos: map<nat, Tally>, u: map<Key, map<MsgId, nat>>) {
    && (forall n <- infos, key <- infos[n].sent :: key in u)
    && (forall key <- u :: SentParts(infos, key) != {} && IsUnion(SentParts(infos, key), u[key]))
  }

  ghost function Totals(u: map<Key, map<MsgId, nat>>): map<Key, int> {
    map key <- u :: Sum(u[key])
  }

  predicate NoneReceived(infos: map<nat, Tally>) {
    forall n <- infos :: infos[n].rcv == map[]
  }

  /** Every entry of a merged map comes from some replica's report. */
  lemma ReceivedFrom(infos: map<nat, Tally>, u: map<MsgId, nat>, id: MsgId) returns (n: nat)
    requires IsUnion(ReceivedParts(infos), u) && id in u
    ensures n in infos && id in infos[n].rcv && infos[n].rcv[id] == u[id]
  {
    hide ReceivedParts;
    var p :| p in ReceivedParts(infos) && id in p && p[id] == u[id];
    n := ReceivedPartFrom(infos, p);
  }

  lemma ReceivedPartFrom(infos: map<nat, Tally>, p: map<MsgId, nat>) returns (n: nat)
    requires p in ReceivedParts(infos)
    ensures n in infos && infos[n].rcv == p
  {
    n :| n in infos && infos[n].rcv == p;
  }

  lemma PartFrom(infos: map<nat, Tally>, key: Key, p: map<MsgId, nat>) returns (n: nat)
    requires p in SentParts(infos, key)
    ensures n in infos && key in infos[n].sent && infos[n].sent[key] == p
  {
    n :| n in infos && key in infos[n].sent && infos[n].sent[key] == p;
  }

  lemma SentFrom(infos: map<nat, Tally>, u: map<Key, map<MsgId, nat>>, key: Key, id: MsgId) returns (n: nat)
    requires IsSentUnion(infos, u) && key in u && id in u[key]
    ensures n in infos && key in infos[n].sent && id in infos[n].sent[key] && infos[n].sent[key][id] == u[key][id]
  {
    hide SentParts;
    var p :| p in SentParts(infos, key) && id in p && p[id] == u[key][id];
    n := PartFrom(infos, key, p);
  }

  lemma KeyFrom(infos: map<nat, Tally>, u: map<Key, map<MsgId, nat>>, key: Key) returns (n: nat)
    requires IsSentUnion(infos, u) && key in u
    ensures n in infos && key in infos[n].sent
  {
    hide SentParts;
    var p :| p in SentParts(infos, key);
    n := PartFrom(infos, key, p);
  }

  // ---------------------------------------------------------------- one member's steps

  datatype Settings = Settings(self: nat, nodes: nat, maxRetries: int)

  function Known(m: Option<Member>): Member {
    if m.Some? then m.value else NEW_MEMBER
  }

  function Expected(counts: Option<map<Key, int>>, key: Key): int {
    if counts.Some? && key in counts.value then counts.value[key] else 0
  }

  /** SyncEof: -1 passes a flush on, anything else makes this replica the leader. */
  predicate Synced(cfg: Settings, m: Option<Member>, counts: Option<map<Key, int>>, key: Key, ack: Option<AckTag>,
                   m': Option<Member>, out: seq<Effect>) {
    if counts.Some? && Expected(counts, key) == -1 then
      && m' == None
      && out == [Send(Flush(cfg.self)), LeaderFlush(counts.value)] + CleanupEffects(m) + FireIf(ack)
    else
      && m' == Some(Known(m).(expected := Expected(counts, key), retries := 0, leader := true, ack := ack))
      && out == [Send(AmountRequest(cfg.self))]
  }

  predicate Requested(cfg: Settings, m: Option<Member>, requester: nat, m': Option<Member>, out: seq<Effect>) {
    m' == Some(Known(m)) && out == [Send(AmountResponse(requester, cfg.self, Known(m).tally))]
  }

  /** retryAmountRequest: forget the responses and ask again, or give up. */
  predicate Retried(cfg: Settings, m: Member, m': Option<Member>, out: seq<Effect>) {
    if cfg.maxRetries > 0 && m.retries + 1 > cfg.maxRetries then
      m' == None && out == [Send(RetryExceeded), OnRetryExceeded] + CleanupEffects(Some(m))
    else
      m' == Some(m.(retries := m.retries + 1, infos := map[])) && out == [Send(AmountRequest(cfg.self))]
  }

  /** checkTotalAndFlush, once merged: complete, already done by another leader, or retry. */
  ghost predicate Decided(cfg: Settings, m: Member, received: map<MsgId, nat>, sent: map<Key, map<MsgId, nat>>,
                          m': Option<Member>, out: seq<Effect>) {
    if Sum(received) >= m.expected then
      m' == None && out == [LeaderFlush(Totals(sent)), Send(Flush(cfg.self))] + CleanupEffects(Some(m))
    else if NoneReceived(m.infos) then
      m' == None && out == CleanupEffects(Some(m))
    else
      Retried(cfg, m, m', out)
  }

  ghost predicate Checked(cfg: Settings, m: Member, m': Option<Member>, out: seq<Effect>) {
    exists received: map<MsgId, nat>, sent: map<Key, map<MsgId, nat>> ::
      IsUnion(ReceivedParts(m.infos), received) && IsSentUnion(m.infos, sent)
          && Decided(cfg, m, received, sent, m', out)
  }

  /** processAmountResponse: only a leader listens; the last missing response triggers the check. */
  ghost predicate Responded(cfg: Settings, m: Option<Member>, sender: nat, tally: Tally, m': Option<Member>,
                            out: seq<Effect>) {
    if m.None? || !m.value.leader then
      m' == m && out == []
    else
      var heard := m.value.(infos := m.value.infos[sender := tally]);
      if |heard.infos| == cfg.nodes then Checked(cfg, heard, m', out)
      else m' == Some(heard) && out == []
  }

  /** processFlush and processRetryExceeded: run the callback and forget the client. */
  predicate Forgotten(m: Option<Member>, callback: Effect, m': Option<Member>, out: seq<Effect>) {
    m' == None && out == [callback] + CleanupEffects(m)
  }

  /** handleControlMessage for one client. */
  ghost predicate Handled(cfg: Settings, m: Option<Member>, msg: Control, m': Option<Member>, out: seq<Effect>) {
    match msg
    case AmountRequest(requester) => Requested(cfg, m, requester, m', out)
    case AmountResponse(_, sender, tally) => Responded(cfg, m, sender, tally, m', out)
    case Flush(_) => Forgotten(m, OnFlush, m', out)
    case RetryExceeded => Forgotten(m, OnRetryExceeded, m', out)
  }

  // ---------------------------------------------------------------- what the steps acknowledge and call

  /** An EOF passed on is acknowledged once, behind the one that was led with; an EOF that is led is not yet. */
  lemma SyncedAcks(cfg: Settings, m: Option<Member>, counts: Option<map<Key, int>>, key: Key, ack: Option<AckTag>,
                   m': Option<Member>, out: seq<Effect>)
    requires Synced(cfg, m, counts, key, ack, m', out)
    ensures AcksIn(out) ==
            if m'.None? then HeldAck(m) + (if ack.Some? then [ack.value] else []) else []
    ensures m'.None? <==> counts.Some? && key in counts.value && counts.value[key] == -1
    ensures m'.None? ==> LeaderFlush(counts.value) in out && Send(Flush(cfg.self)) in out
  {
    if m'.None? {
      var calls := [Send(Flush(cfg.self)), LeaderFlush(counts.value)];
      CleanupAcks(m, calls[0], calls[1]);
      AcksAppend(calls + CleanupEffects(m), FireIf(ack));
      assert FireIf(ack) == [] || FireIf(ack)[1..] == [];
      assert out[0] == calls[0] && out[1] == calls[1];
    } else {
      CleanupAcks(m, Send(AmountRequest(cfg.self)), OnFlush);
    }
  }

  lemma CheckedAcks(cfg: Settings, m: Member, m': Option<Member>, out: seq<Effect>)
    requires Checked(cfg, m, m', out)
    ensures AcksIn(out) == if m'.None? then HeldAck(Some(m)) else []
    ensures (exists counts :: LeaderFlush(counts) in out) <==> Send(Flush(cfg.self)) in out
    ensures Send(Flush(cfg.self)) in out ==> m'.None?
  {
    hide IsUnion, IsSentUnion, ReceivedParts, NoneReceived, Totals, AcksIn;
    var received: map<MsgId, nat>, sent: map<Key, map<MsgId, nat>> :|
      IsUnion(ReceivedParts(m.infos), received) && IsSentUnion(m.infos, sent)
      && Decided(cfg, m, received, sent, m', out);
    CleanupAcks(Some(m), LeaderFlush(Totals(sent)), Send(Flush(cfg.self)));
    CleanupAcks(Some(m), Send(RetryExceeded), OnRetryExceeded);
    CleanupAcks(Some(m), Send(AmountRequest(cfg.self)), OnFlush);
    if Sum(received) >= m.expected {
      assert out[0] == LeaderFlush(Totals(sent)) && out[1] == Send(Flush(cfg.self));
    }
  }

  /** A control message acknowledges an EOF exactly if it makes the replica that leads with it forget the client. */
  lemma HandledAcks(cfg: Settings, m: Option<Member>, msg: Control, m': Option<Member>, out: seq<Effect>)
    requires Handled(cfg, m, msg, m', out)
    ensures AcksIn(out) == if m'.None? then HeldAck(m) else []
    ensures msg.Flush? ==> m'.None? && OnFlush in out
    ensures msg.RetryExceeded? ==> m'.None? && OnRetryExceeded in out
  {
    hide Checked, AcksIn;
    CleanupAcks(m, OnFlush, OnFlush);
    CleanupAcks(m, OnRetryExceeded, OnRetryExceeded);
    match msg
    case AmountRequest(requester) =>
      CleanupAcks(m, Send(AmountResponse(requester, cfg.self, Known(m).tally)), OnFlush);
    case AmountResponse(_, sender, tally) =>
      if m.Some? && m.value.leader {
        var heard := m.value.(infos := m.value.infos[sender := tally]);
        if |heard.infos| == cfg.nodes {
          CheckedAcks(cfg, heard, m', out);
        }
      }
    case Flush(_) => assert out[0] == OnFlush;
    case RetryExceeded => assert out[0] == OnRetryExceeded;
  }

  // ---------------------------------------------------------------- the controller

  method Absorb(u: map<MsgId, nat>, part: map<MsgId, nat>) returns (r: map<MsgId, nat>)
    ensures r == u + part
  {
    r := u;
    var todo := part.Keys;
    while todo != {}
      invariant todo <= part.Keys
      invariant r == u + (part - todo)
      decreases todo
    {
      var id :| id in todo;
      r := r[id := part[id]];
      todo := todo - {id};
    }
    assert part - {} == part;
  }

  lemma UnionGrows(parts: set<map<MsgId, nat>>, u: map<MsgId, nat>, p: map<MsgId, nat>)
    requires IsUnion(parts, u)
    ensures IsUnion(parts + {p}, u + p)
  {
    forall id <- u + p ensures exists q <- parts + {p} :: id in q && q[id] == (u + p)[id] {
      if id in p {
        assert p in parts + {p};
      } else {
        var q :| q in parts && id in q && q[id] == u[id];
        assert q in parts + {p};
      }
    }
  }

  lemma ReceivedPartsGrow(infos: map<nat, Tally>, n: nat)
    requires n !in infos
    ensures forall t: Tally :: ReceivedParts(infos[n := t]) == ReceivedParts(infos) + {t.rcv}
  {
    forall t: Tally ensures ReceivedParts(infos[n := t]) == ReceivedParts(infos) + {t.rcv} {
      var more := infos[n := t];
      assert more[n] == t;
      forall k <- infos ensures infos[k].rcv in ReceivedParts(more) {
        assert more[k] == infos[k];
      }
    }
  }

  lemma EmptyUnion()
    ensures IsUnion(ReceivedParts(map[]), map[])
  {
  }

  method MergeReceived(infos: map<nat, Tally>) returns (total: nat, ghost received: map<MsgId, nat>)
    ensures IsUnion(ReceivedParts(infos), received) && total == Sum(received)
    ensures exists u: map<MsgId, nat> :: IsUnion(ReceivedParts(infos), u) && total == Sum(u)
  {
    hide IsUnion, ReceivedParts, Sum;
    EmptyUnion();
    var union: map<MsgId, nat> := map[];
    var todo := infos.Keys;
    ghost var done: map<nat, Tally> := map[];
    while todo != {}
      invariant todo <= infos.Keys && done == infos - todo
      invariant IsUnion(ReceivedParts(done), union)
      decreases todo
    {
      var n :| n in todo;
      UnionGrows(ReceivedParts(done), union, infos[n].rcv);
      ReceivedPartsGrow(done, n);
      union := Absorb(union, infos[n].rcv);
      done, todo := done[n := infos[n]], todo - {n};
    }
    assert done == infos;
    received := union;
    total := Total(union);
  }

  /** One more entry of one node's sent map. */
  function Grown(infos: map<nat, Tally>, n: nat, key: Key, part: map<MsgId, nat>): map<nat, Tally>
    requires n in infos
  {
    infos[n := infos[n].(sent := infos[n].sent[key := part])]
  }

  lemma SentPartsGrow(infos: map<nat, Tally>, n: nat, key: Key, part: map<MsgId, nat>, k: Key)
    requires n in infos && key !in infos[n].sent
    ensures SentParts(Grown(infos, n, key, part), k) == if k == key then SentParts(infos, k) + {part}
            else SentParts(infos, k)
  {
    var more := Grown(infos, n, key, part);
    if k == key {
      assert more[n].sent[key] == part;
    }
    forall x <- infos | k in infos[x].sent ensures infos[x].sent[k] in SentParts(more, k) {
      assert more[x].sent[k] == infos[x].sent[k];
    }
    forall p <- SentParts(more, k) ensures p in SentParts(infos, k) || (k == key && p == part) {
      var x :| x in more && k in more[x].sent && more[x].sent[k] == p;
      assert x != n || k != key ==> infos[x].sent[k] == p;
    }
  }

  lemma SentUnionGrows(infos: map<nat, Tally>, n: nat, key: Key, part: map<MsgId, nat>, u: map<Key, map<MsgId, nat>>)
    requires n in infos && key !in infos[n].sent && IsSentUnion(infos, u)
    ensures IsSentUnion(Grown(infos, n, key, part), u[key := (if key in u then u[key] else map[]) + part])
  {
    hide IsUnion, SentParts;
    var before := if key in u then u[key] else map[];
    var u' := u[key := before + part];
    assert IsUnion(SentParts(infos, key), before) by {
      if key !in u {
        NoSentParts(infos, key);
      }
    }
    UnionGrows(SentParts(infos, key), before, part);
    forall k <- u'
      ensures SentParts(Grown(infos, n, key, part), k) != {} && IsUnion(SentParts(Grown(infos, n, key, part), k), u'[k])
    {
      SentPartsGrow(infos, n, key, part, k);
      assert part in SentParts(infos, key) + {part};
    }
  }

  lemma NoSentParts(infos: map<nat, Tally>, key: Key)
    requires forall n <- infos :: key !in infos[n].sent
    ensures SentParts(infos, key) == {} && IsUnion({}, map[])
  {
  }

  lemma SentUnionJoins(infos: map<nat, Tally>, n: nat, t: Tally, u: map<Key, map<MsgId, nat>>)
    requires n !in infos && t.sent == map[] && IsSentUnion(infos, u)
    ensures IsSentUnion(infos[n := t], u)
  {
    var more := infos[n := t];
    forall k ensures SentParts(more, k) == SentParts(infos, k) {
      forall x <- infos | k in infos[x].sent ensures infos[x].sent[k] in SentParts(more, k) {
        assert more[x] == infos[x];
      }
    }
  }

  lemma EmptySentUnion()
    ensures IsSentUnion(map[], map[])
  {
  }

  method MergeSentOf(t: Tally, n: nat, u: map<Key, map<MsgId, nat>>, ghost infos: map<nat, Tally>)
    returns (r: map<Key, map<MsgId, nat>>)
    requires n !in infos && IsSentUnion(infos, u)
    ensures IsSentUnion(infos[n := t], r)
  {
    hide IsSentUnion;
    ghost var done := infos[n := t.(sent := map[])];
    SentUnionJoins(infos, n, t.(sent := map[]), u);
    assert t.sent - t.sent.Keys == map[];
    r := u;
    var todo := t.sent.Keys;
    while todo != {}
      invariant todo <= t.sent.Keys
      invariant done == infos[n := t.(sent := t.sent - todo)] && IsSentUnion(done, r)
      decreases todo
    {
      var key :| key in todo;
      SentUnionGrows(done, n, key, t.sent[key], r);
      var merged := Absorb(if key in r then r[key] else map[], t.sent[key]);
      r := r[key := merged];
      done := Grown(done, n, key, t.sent[key]);
      assert t.sent - (todo - {key}) == (t.sent - todo)[key := t.sent[key]];
      todo := todo - {key};
    }
    assert t.sent - {} == t.sent;
  }

  method MergeSent(infos: map<nat, Tally>) returns (counts: map<Key, int>, ghost sent: map<Key, map<MsgId, nat>>)
    ensures IsSentUnion(infos, sent) && counts == Totals(sent)
    ensures exists u: map<Key, map<MsgId, nat>> :: IsSentUnion(infos, u) && counts == Totals(u)
  {
    hide IsSentUnion, Totals;
    assert IsSentUnion(map[], map[]) by {
      EmptySentUnion();
    }
    var union: map<Key, map<MsgId, nat>> := map[];
    var todo := infos.Keys;
    ghost var done: map<nat, Tally> := map[];
    while todo != {}
      invariant todo <= infos.Keys && done == infos - todo && IsSentUnion(done, union)
      decreases todo
    {
      var n :| n in todo;
      union := MergeSentOf(infos[n], n, union, done);
      done, todo := done[n := infos[n]], todo - {n};
    }
    assert done == infos;
    sent := union;
    counts := KeyTotals(union);
  }

  method KeyTotals(u: map<Key, map<MsgId, nat>>) returns (counts: map<Key, int>)
    ensures counts == Totals(u)
  {
    counts := map[];
    var keys := u.Keys;
    while keys != {}
      invariant keys <= u.Keys && counts == Totals(u - keys)
      decreases keys
    {
      var key :| key in keys;
      var sum := Total(u[key]);
      counts := counts[key := sum];
      keys := keys - {key};
    }
    assert u - {} == u;
  }

  class SyncEofController {
    const cfg: Settings
    var clients: map<ClientId, Member>

    constructor (cfg: Settings)
      ensures this.cfg == cfg && clients == map[]
    {
      this.cfg := cfg;
      clients := map[];
    }

    function MemberOf(c: ClientId): Option<Member>
      reads this
    {
      if c in clients then Some(clients[c]) else None
    }

    ghost predicate OnlyChanged(c: ClientId, before: map<ClientId, Member>)
      reads this
    {
      clients - {c} == before - {c}
    }

    method MessageReceived(c: ClientId, id: MsgId, count: nat)
      modifies this
      ensures OnlyChanged(c, old(clients))
      ensures var m := Known(old(MemberOf(c)));
              MemberOf(c) == Some(m.(tally := m.tally.WithReceived(id, count)))
    {
      var m := Known(MemberOf(c));
      clients := clients[c := m.(tally := m.tally.WithReceived(id, count))];
    }

    method MessageSentWithKey(c: ClientId, key: Key, id: MsgId, count: nat)
      modifies this
      ensures OnlyChanged(c, old(clients))
      ensures var m := Known(old(MemberOf(c)));
              MemberOf(c) == Some(m.(tally := m.tally.WithSent(key, id, count)))
    {
      var m := Known(MemberOf(c));
      var t := m.tally;
      if key == KEY_NIL {
        t := t.WithSentOn(KEY_NIL, id, count);
      } else {
        t := t.WithSentOn(key, id, count);
        t := t.WithSentOn(KEY_NIL, id, count);
      }
      clients := clients[c := m.(tally := t)];
    }

    method CleanupClientState(c: ClientId) returns (out: seq<Effect>)
      modifies this
      ensures OnlyChanged(c, old(clients)) && MemberOf(c) == None && out == CleanupEffects(old(MemberOf(c)))
      ensures AcksIn(out) == HeldAck(old(MemberOf(c)))
    {
      CleanupAcks(MemberOf(c), OnFlush, OnFlush);
      out := [];
      if c in clients && clients[c].leader {
        out := FireIf(clients[c].ack);
      }
      clients := clients - {c};
    }

    method SyncEof(c: ClientId, counts: Option<map<Key, int>>, key: Key, ack: Option<AckTag>) returns (out: seq<Effect>)
      modifies this
      ensures OnlyChanged(c, old(clients)) && Synced(cfg, old(MemberOf(c)), counts, key, ack, MemberOf(c), out)
      ensures if counts.Some? && key in counts.value && counts.value[key] == -1 then
                && MemberOf(c) == None && LeaderFlush(counts.value) in out && Send(Flush(cfg.self)) in out
                && AcksIn(out) == HeldAck(old(MemberOf(c))) + (if ack.Some? then [ack.value] else [])
              else
                && MemberOf(c).Some? && MemberOf(c).value.leader && MemberOf(c).value.ack == ack
                && MemberOf(c).value.expected == (if counts.Some? && key in counts.value then counts.value[key] else 0)
                && MemberOf(c).value.retries == 0 && MemberOf(c).value.tally == Known(old(MemberOf(c))).tally
                && out == [Send(AmountRequest(cfg.self))] && AcksIn(out) == []
    {
      ghost var before := MemberOf(c);
      var expected := 0;
      if counts.Some? {
        expected := if key in counts.value then counts.value[key] else 0;
      }
      if counts.Some? && expected == -1 {
        out := [Send(Flush(cfg.self)), LeaderFlush(counts.value)];
        var cleanup := CleanupClientState(c);
        out := out + cleanup;
        if ack.Some? {
          out := out + [FireAck(ack.value)];
        }
        SyncedAcks(cfg, before, counts, key, ack, MemberOf(c), out);
        return;
      }
      var m := Known(MemberOf(c));
      clients := clients[c := m.(expected := expected, retries := 0, leader := true, ack := ack)];
      out := [Send(AmountRequest(cfg.self))];
      SyncedAcks(cfg, before, counts, key, ack, MemberOf(c), out);
    }

    method ProcessAmountRequest(c: ClientId, requester: nat) returns (out: seq<Effect>)
      modifies this
      ensures OnlyChanged(c, old(clients)) && Requested(cfg, old(MemberOf(c)), requester, MemberOf(c), out)
      ensures if c in old(clients) then
                && MemberOf(c) == old(MemberOf(c))
                && out == [Send(AmountResponse(requester, cfg.self, old(clients)[c].tally))]
              else
                && MemberOf(c).Some? && !MemberOf(c).value.leader && MemberOf(c).value.tally == Tally(map[], map[])
                && out == [Send(AmountResponse(requester, cfg.self, Tally(map[], map[])))]
    {
      if c !in clients {
        clients := clients[c := NEW_MEMBER];
      }
      out := [Send(AmountResponse(requester, cfg.self, clients[c].tally))];
    }

    method ProcessAmountResponse(c: ClientId, sender: nat, tally: Tally) returns (out: seq<Effect>)
      modifies this
      ensures OnlyChanged(c, old(clients)) && Responded(cfg, old(MemberOf(c)), sender, tally, MemberOf(c), out)
      ensures c !in old(clients) || !old(clients)[c].leader ==> clients == old(clients) && out == []
      ensures c in old(clients) && old(clients)[c].leader && |old(clients)[c].infos[sender := tally]| != cfg.nodes ==>
                && MemberOf(c) == Some(old(clients)[c].(infos := old(clients)[c].infos[sender := tally]))
                && out == []
    {
      out := [];
      if c !in clients || !clients[c].leader {
        return;
      }
      var m := clients[c];
      m := m.(infos := m.infos[sender := tally]);
      clients := clients[c := m];
      if |m.infos| == cfg.nodes {
        out := CheckTotalAndFlush(c);
      }
    }

    method CheckTotalAndFlush(c: ClientId) returns (out: seq<Effect>)
      requires c in clients
      modifies this
      ensures OnlyChanged(c, old(clients)) && Checked(cfg, old(clients)[c], MemberOf(c), out)
      ensures AcksIn(out) == if MemberOf(c).None? then HeldAck(Some(old(clients)[c])) else []
      ensures (exists counts :: LeaderFlush(counts) in out) <==> Send(Flush(cfg.self)) in out
      ensures Send(Flush(cfg.self)) in out ==> MemberOf(c).None?
    {
      var m := clients[c];
      var total, received := MergeReceived(m.infos);
      var counts, sent := MergeSent(m.infos);
      if total >= m.expected {
        out := [LeaderFlush(counts), Send(Flush(cfg.self))];
        var cleanup := CleanupClientState(c);
        out := out + cleanup;
      } else if NoneReceived(m.infos) {
        out := CleanupClientState(c);
      } else {
        out := RetryAmountRequest(c);
      }
      assert Decided(cfg, m, received, sent, MemberOf(c), out);
      CheckedAcks(cfg, m, MemberOf(c), out);
    }

    method RetryAmountRequest(c: ClientId) returns (out: seq<Effect>)
      requires c in clients
      modifies this
      ensures OnlyChanged(c, old(clients)) && Retried(cfg, old(clients)[c], MemberOf(c), out)
      ensures var m := old(clients)[c];
              if cfg.maxRetries > 0 && m.retries >= cfg.maxRetries then
                && MemberOf(c).None? && Send(RetryExceeded) in out && OnRetryExceeded in out
                && AcksIn(out) == HeldAck(Some(m))
              else
                && MemberOf(c) == Some(m.(retries := m.retries + 1, infos := map[]))
                && out == [Send(AmountRequest(cfg.self))]
    {
      var m := clients[c];
      m := m.(retries := m.retries + 1, infos := map[]);
      clients := clients[c := m];
      if cfg.maxRetries > 0 && m.retries > cfg.maxRetries {
        out := [Send(RetryExceeded), OnRetryExceeded];
        var cleanup := CleanupClientState(c);
        assert out[0] in out + cleanup && out[1] in out + cleanup;
        CleanupAcks(Some(m), out[0], out[1]);
        out := out + cleanup;
        return;
      }
      out := [Send(AmountRequest(cfg.self))];
    }

    /** handleControlMessage; a message without a client is refused. */
    method HandleControlMessage(c: ClientId, msg: Control) returns (acked: bool, out: seq<Effect>)
      modifies this
      ensures acked == (c != NIL_CLIENT) && OnlyChanged(c, old(clients))
      ensures if acked then Handled(cfg, old(MemberOf(c)), msg, MemberOf(c), out)
              else clients == old(clients) && out == []
      ensures acked ==> AcksIn(out) == if MemberOf(c).None? then HeldAck(old(MemberOf(c))) else []
      ensures acked && msg.Flush? ==> MemberOf(c).None? && OnFlush in out
      ensures acked && msg.RetryExceeded? ==> MemberOf(c).None? && OnRetryExceeded in out
    {
      if c == NIL_CLIENT {
        return false, [];
      }
      ghost var before := MemberOf(c);
      acked := true;
      match msg {
        case AmountRequest(requester) => out := ProcessAmountRequest(c, requester);
        case AmountResponse(_, sender, tally) => out := ProcessAmountResponse(c, sender, tally);
        case Flush(_) =>
          var cleanup := CleanupClientState(c);
          out := [OnFlush] + cleanup;
        case RetryExceeded =>
          var cleanup := CleanupClientState(c);
          out := [OnRetryExceeded] + cleanup;
      }
      HandledAcks(cfg, before, msg, MemberOf(c), out);
    }

    method SnapshotClient(c: ClientId) returns (t: Option<Tally>)
      ensures t == if c in clients then Some(clients[c].tally) else None
    {
      t := if c in clients then Some(clients[c].tally) else None;
    }

    method RestoreClient(c: ClientId, t: Option<Tally>)
      modifies this
      ensures OnlyChanged(c, old(clients))
      ensures MemberOf(c) == if t.None? then old(MemberOf(c)) else Some(Known(old(MemberOf(c))).(tally := t.value))
    {
      if t.Some? {
        var m := Known(MemberOf(c));
        clients := clients[c := m.(tally := t.value)];
      }
    }
  }
}
