// The exactly-once theorem applied to two workers whose handlers commute: the accumulator
// of partial counts and the set of result accounts.
module CrashFreeResults {
  import opened Bytes
  import opened Dedup
  import opened Publisher
  import opened ExactlyOnce
  import opened Deliveries
  import opened Accounts
  import opened ScatterAndGather
  import opened PairCounts
  import opened Coordinators
  import opened StringOrder
  import C = Checkpoint

  /** A worker's state: what it adds up, and how many upstream EOFs it has counted. */
  datatype Sum<W> = Sum(w: W, eofs: nat)

  const ADD: MsgType := 0
  const EOF: MsgType := 1

  /** A worker that decodes the payload of a message and adds it to its state, and counts EOFs until the last
      one, which is not part of this model. */
  function Adder<W(!new), P(!new)>(init: W, decode: Bytes -> Option<P>, add: (W, P) -> W,
                                   snap: Sum<W> -> Bytes, load: Bytes -> Sum<W>): Worker<Sum<W>> {
    var handler: (Sum<W>, Envelope) -> Handled<Sum<W>> :=
      (s: Sum<W>, env: Envelope) => match decode(env.payload)
                  case None => Handled(s, false)
                  case Some(p) => Handled(s.(w := add(s.w, p)), true);
    var eof: (Sum<W>, Envelope) -> Handled<Sum<W>> :=
      (s: Sum<W>, env: Envelope) => Handled(s.(eofs := s.eofs + 1), true);
    Worker(Sum(init, 0), map[ADD := handler, EOF := eof], snap, s => [],
           (state: Option<Bytes>, eof: Option<Bytes>) => if state.None? then Sum(init, 0) else load(state.value))
  }

  /** The snapshot can be read back. */
  ghost predicate Reloads<W(!new)>(snap: Sum<W> -> Bytes, load: Bytes -> Sum<W>) {
    forall s :: load(snap(s)) == s
  }

  ghost predicate AddCommutes<W(!new), P(!new)>(add: (W, P) -> W) {
    forall w, p, q :: add(add(w, p), q) == add(add(w, q), p)
  }

  lemma AdderIsSound<W(!new), P(!new)>(cfg: C.Config, init: W, decode: Bytes -> Option<P>, add: (W, P) -> W,
                                       snap: Sum<W> -> Bytes, load: Bytes -> Sum<W>)
    requires cfg.hasState && !cfg.hasEof && Reloads(snap, load)
    ensures Sound(cfg, Adder(init, decode, add, snap, load))
  {
    var wk := Adder(init, decode, add, snap, load);
    forall s ensures Faithful(cfg, wk, s) {
      assert load(snap(s)) == s;
    }
  }

  lemma AdderCommutes<W(!new), P(!new)>(init: W, decode: Bytes -> Option<P>, add: (W, P) -> W,
                                        snap: Sum<W> -> Bytes, load: Bytes -> Sum<W>, msgs: seq<Envelope>)
    requires AddCommutes(add)
    ensures Commutes(Adder(init, decode, add, snap, load), msgs)
  {
    var wk := Adder(init, decode, add, snap, load);
    forall s, a, b | a in msgs && b in msgs ensures Effect(wk, Effect(wk, s, a), b) == Effect(wk, Effect(wk, s, b), a) {
      match (decode(a.payload), decode(b.payload))
      case (Some(p), Some(q)) => assert add(add(s.w, p), q) == add(add(s.w, q), p);
      case _ =>
    }
  }

  /** How many of these are EOFs. */
  function EofsIn(msgs: seq<Envelope>): nat {
    if msgs == [] then 0
    else EofsIn(msgs[..|msgs| - 1]) + if msgs[|msgs| - 1].msgType == EOF then 1 else 0
  }

  // ---------------------------------------------------------------- when the last EOF comes

  /** Memory has marked all of these as seen, acked or not, and the client was sent nothing else but EOFs,
      each under an id of its own. */
  ghost predicate Served<W(!new)>(s: Process<Sum<W>>, c: ClientId, adds: set<Envelope>) {
    && s.phase.Working? && c in s.clients
    && (forall m <- adds :: m.msgType == ADD && m.id != ZERO_ID && m.id in s.clients[c].seen)
    && (forall m <- s.delivered :: m.client == c ==> m in adds || m.msgType == EOF)
    && forall m <- s.delivered, n <- adds + s.delivered ::
         m.client == n.client == c && m.msgType == EOF ==> m.id != ZERO_ID && (m.id == n.id ==> m == n)
  }

  lemma {:induction false} EofsAddNothing<W(!new)>(wk: Worker<Sum<W>>, msgs: seq<Envelope>, eofs: seq<Envelope>)
    requires EOF in wk.handlers && forall s, m :: wk.handlers[EOF](s, m).w.w == s.w
    requires forall m <- eofs :: m.msgType == EOF
    ensures Fold(wk, msgs + eofs).w == Fold(wk, msgs).w
    decreases |eofs|
  {
    if eofs == [] {
      assert msgs + eofs == msgs;
    } else {
      var n := |eofs| - 1;
      assert msgs + eofs == (msgs + eofs[..n]) + [eofs[n]];
      EofsAddNothing(wk, msgs, eofs[..n]);
    }
  }

  /** What such a worker has added up when the last EOF comes: what a crash-free one would, whatever crashes,
      repetitions and recoveries came before. */
  lemma ServedIsSum<W(!new), P(!new)>(cfg: C.Config, init: W, decode: Bytes -> Option<P>, add: (W, P) -> W,
                                      snap: Sum<W> -> Bytes, load: Bytes -> Sum<W>,
                                      run: seq<Process<Sum<W>>>, i: nat, c: ClientId, adds: seq<Envelope>)
    requires cfg.hasState && !cfg.hasEof && Reloads(snap, load) && AddCommutes(add) && Input(adds)
    requires forall m <- adds :: m.client == c
    requires IsRun(cfg, Adder(init, decode, add, snap, load), run) && i < |run|
    requires Served(run[i], c, Elements(adds))
    ensures run[i].clients[c].w.w == Fold(Adder(init, decode, add, snap, load), adds).w
  {
    hide IsRun, Sound, Commutes;
    var wk, s := Adder(init, decode, add, snap, load), run[i];
    var eofs := SomeOrder(set m <- s.delivered | m.client == c && m.msgType == EOF && m.id in s.clients[c].seen);
    assert forall m <- eofs :: m in Elements(eofs);
    var msgs := adds + eofs;
    forall i, j | 0 <= i < j < |msgs| ensures msgs[i].id != msgs[j].id {
      assert i < |adds| ==> msgs[i] in Elements(adds);
      assert i >= |adds| ==> msgs[i] in eofs;
      assert j >= |adds| ==> msgs[j] in eofs;
    }
    forall m <- s.delivered | m.client == c ensures m.id != ZERO_ID && (m.id in s.clients[c].seen ==> m in msgs) {
      if m.msgType == EOF {
        assert m.id in s.clients[c].seen ==> m in Elements(eofs);
      } else {
        assert m in Elements(adds);
      }
    }
    AdderIsSound(cfg, init, decode, add, snap, load);
    AdderCommutes(init, decode, add, snap, load, msgs);
    AllSeenIsCrashFree(cfg, wk, run, i, c, msgs);
    EofsAddNothing(wk, adds, eofs);
  }

  // ---------------------------------------------------------------- partial counts

  lemma {:induction false} PairPastList(acc: Counts, m: PairMessage, b: seq<PairMessage>)
    ensures AddedPairs(AddedPair(acc, m), b) == AddedPair(AddedPairs(acc, b), m)
  {
    hide AddedPair;
    if b != [] {
      PairPastList(acc, m, b[..|b| - 1]);
      PairsCommute(AddedPairs(acc, b[..|b| - 1]), m, b[|b| - 1]);
    }
  }

  lemma {:induction false} ListsCommute(acc: Counts, a: seq<PairMessage>, b: seq<PairMessage>)
    ensures AddedPairs(AddedPairs(acc, a), b) == AddedPairs(AddedPairs(acc, b), a)
  {
    hide AddedPair;
    if a != [] {
      var init, m := a[..|a| - 1], a[|a| - 1];
      PairPastList(AddedPairs(acc, init), m, b);
      ListsCommute(acc, init, b);
    }
  }

  /** All pairs of a list of messages, in order. */
  function AllPairs(decode: Bytes -> Option<seq<PairMessage>>, msgs: seq<Envelope>): seq<PairMessage> {
    if msgs == [] then []
    else
      var last := msgs[|msgs| - 1];
      AllPairs(decode, msgs[..|msgs| - 1]) + if last.msgType == ADD then decode(last.payload).GetOr([]) else []
  }

  type PairSnap = Sum<Counts> -> Bytes
  type PairLoad = Bytes -> Sum<Counts>

  function PairWorker(decode: Bytes -> Option<seq<PairMessage>>, snap: PairSnap, load: PairLoad): Worker<Sum<Counts>> {
    Adder(map[], decode, AddedPairs, snap, load)
  }

  lemma {:induction false} PairFold(decode: Bytes -> Option<seq<PairMessage>>, snap: PairSnap, load: PairLoad,
                                    msgs: seq<Envelope>, k: Pair)
    ensures CountOf(Fold(PairWorker(decode, snap, load), msgs).w, k) == SumOn(AllPairs(decode, msgs), k)
    ensures Fold(PairWorker(decode, snap, load), msgs).eofs == EofsIn(msgs)
  {
    if msgs != [] {
      var init, m := msgs[..|msgs| - 1], msgs[|msgs| - 1];
      PairFold(decode, snap, load, init, k);
      var before := Fold(PairWorker(decode, snap, load), init).w;
      var list := decode(m.payload).GetOr([]);
      SumOnAppend(AllPairs(decode, init), list, k);
      SumOnAppend(AllPairs(decode, init), [], k);
      AddedPairsSum(before, list, k);
    }
  }

  lemma {:induction false} AddedAppend(acc: Counts, a: seq<PairMessage>, b: seq<PairMessage>)
    ensures AddedPairs(acc, a + b) == AddedPairs(AddedPairs(acc, a), b)
    decreases |b|
  {
    if b == [] {
      assert a + b == a;
    } else {
      assert (a + b)[..|a + b| - 1] == a + b[..|b| - 1];
      AddedAppend(acc, a, b[..|b| - 1]);
    }
  }

  lemma {:induction false} PairFoldIs(decode: Bytes -> Option<seq<PairMessage>>, snap: PairSnap, load: PairLoad,
                                      msgs: seq<Envelope>)
    ensures Fold(PairWorker(decode, snap, load), msgs).w == AddedPairs(map[], AllPairs(decode, msgs))
  {
    if msgs != [] {
      var init, m := msgs[..|msgs| - 1], msgs[|msgs| - 1];
      PairFoldIs(decode, snap, load, init);
      AddedAppend(map[], AllPairs(decode, init), decode(m.payload).GetOr([]));
      AddedAppend(map[], AllPairs(decode, init), []);
    }
  }

  /** After any crashes, redeliveries and recoveries: once the input is acked, every pair's count in the
      accumulator is the sum over the input, each message taken once, and so is the number of EOFs. */
  lemma AccumulatorIsCrashFree(cfg: C.Config, decode: Bytes -> Option<seq<PairMessage>>, snap: PairSnap, load: PairLoad,
                               run: seq<Process<Sum<Counts>>>, i: nat, c: ClientId, msgs: seq<Envelope>, k: Pair)
    requires cfg.hasState && !cfg.hasEof && Reloads(snap, load)
    requires IsRun(cfg, PairWorker(decode, snap, load), run) && i < |run| && c in run[i].clients && c != NIL_CLIENT
    requires Input(msgs)
    requires forall m <- run[i].delivered :: m.client == c ==> m in msgs
    requires forall m <- msgs :: Acked(run[i], c, m)
    requires run[i].phase.Working?
    ensures CountOf(run[i].clients[c].w.w, k) == SumOn(AllPairs(decode, msgs), k)
    ensures run[i].clients[c].w.eofs == EofsIn(msgs)
  {
    hide IsRun, Sound, Commutes, Acked;
    var wk := PairWorker(decode, snap, load);
    AdderIsSound(cfg, map[], decode, AddedPairs, snap, load);
    forall acc, a, b ensures AddedPairs(AddedPairs(acc, a), b) == AddedPairs(AddedPairs(acc, b), a) {
      ListsCommute(acc, a, b);
    }
    AdderCommutes(map[], decode, AddedPairs, snap, load, msgs);
    AllAckedIsCrashFree(cfg, wk, run, i, c, msgs);
    PairFold(decode, snap, load, msgs, k);
  }

  // ---------------------------------------------------------------- account sets

  function AddedAccounts(all: set<Account>, list: seq<Account>): set<Account> {
    all + Elements(list)
  }

  type SetSnap = Sum<set<Account>> -> Bytes
  type SetLoad = Bytes -> Sum<set<Account>>

  function AccountWorker(decode: Bytes -> Option<seq<Account>>, snap: SetSnap, load: SetLoad)
    : Worker<Sum<set<Account>>>
  {
    Adder({}, decode, AddedAccounts, snap, load)
  }

  ghost predicate Listed(decode: Bytes -> Option<seq<Account>>, msgs: seq<Envelope>, a: Account) {
    exists m <- msgs :: m.msgType == ADD && a in decode(m.payload).GetOr([])
  }

  lemma {:induction false} AccountFold(decode: Bytes -> Option<seq<Account>>, snap: SetSnap, load: SetLoad,
                                       msgs: seq<Envelope>, a: Account)
    ensures a in Fold(AccountWorker(decode, snap, load), msgs).w <==> Listed(decode, msgs, a)
    ensures Fold(AccountWorker(decode, snap, load), msgs).eofs == EofsIn(msgs)
  {
    if msgs != [] {
      var init, m := msgs[..|msgs| - 1], msgs[|msgs| - 1];
      assert msgs == init + [m];
      AccountFold(decode, snap, load, init, a);
      var before := Fold(AccountWorker(decode, snap, load), init).w;
      var after := Fold(AccountWorker(decode, snap, load), msgs).w;
      assert after == if m.msgType != ADD then before
                      else match decode(m.payload) case None => before case Some(list) => AddedAccounts(before, list);
      assert Listed(decode, msgs, a) <==>
             Listed(decode, init, a) || (m.msgType == ADD && a in decode(m.payload).GetOr([]));
    }
  }

  /** The result set of Query 4 is the union of the input's account lists, whatever happened in between. */
  lemma AccountsAreCrashFree(cfg: C.Config, decode: Bytes -> Option<seq<Account>>, snap: SetSnap, load: SetLoad,
                             run: seq<Process<Sum<set<Account>>>>, i: nat, c: ClientId, msgs: seq<Envelope>, a: Account)
    requires cfg.hasState && !cfg.hasEof && Reloads(snap, load)
    requires IsRun(cfg, AccountWorker(decode, snap, load), run) && i < |run| && c in run[i].clients && c != NIL_CLIENT
    requires Input(msgs)
    requires forall m <- run[i].delivered :: m.client == c ==> m in msgs
    requires forall m <- msgs :: Acked(run[i], c, m)
    requires run[i].phase.Working?
    ensures a in run[i].clients[c].w.w <==> Listed(decode, msgs, a)
    ensures run[i].clients[c].w.eofs == EofsIn(msgs)
  {
    hide IsRun, Sound, Commutes, Acked;
    var wk := AccountWorker(decode, snap, load);
    AdderIsSound(cfg, {}, decode, AddedAccounts, snap, load);
    forall all, p, q ensures AddedAccounts(AddedAccounts(all, p), q) == AddedAccounts(AddedAccounts(all, q), p) {
    }
    AdderCommutes({}, decode, AddedAccounts, snap, load, msgs);
    AllAckedIsCrashFree(cfg, wk, run, i, c, msgs);
    AccountFold(decode, snap, load, msgs, a);
  }
}
