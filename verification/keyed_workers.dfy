// DateRange and Spliter: workers that cut a batch into messages by routing key, publish
// each, record it as sent, and record the batch as received last.
module KeyedWorkers {
  import opened Bytes
  import opened Dedup
  import opened Sums
  import opened MsgIds
  import opened EofControl
  import opened EofBarrier
  import opened EofRuns
  import opened Coordinators
  import opened StringOrder
  import opened Accounts
  import opened Positions
  import Query4
  import SG = ScatterAndGather

  /** The fields of a transaction that routing and filtering read. */
  datatype Tx = Tx(timestamp: string, from: Account, to: Account, currency: string)

  /** A message to be: the discriminator of its id, its routing key, the role it names (Unknown if it names none),
      its transactions. */
  datatype Bucket = Bucket(disc: string, key: Key, role: SG.Role, txs: seq<Tx>)

  datatype Message = Message(id: MsgId, key: Key, role: SG.Role, txs: seq<Tx>)

  /** hash16 and the bytes of a string. */
  datatype Naming = Naming(hash: Hash, utf8: string -> Bytes) {
    function IdOf(parent: MsgId, disc: string): MsgId {
      DeriveMsgId(hash, parent, utf8(disc), 0)
    }

    function Preimage(x: (MsgId, Bucket)): Bytes {
      DerivePreimage(x.0, utf8(x.1.disc), 0)
    }

    /** The hash tells the preimages of these messages apart, and their discriminators have distinct bytes. */
    ghost predicate Faithful(split: map<MsgId, set<Bucket>>) {
      && InjectiveOn(hash, set x <- Origins(split) :: Preimage(x))
      && forall x <- Origins(split), y <- Origins(split) :: utf8(x.1.disc) == utf8(y.1.disc) ==> x.1.disc == y.1.disc
    }
  }

  // ---------------------------------------------------------------- a worker's work

  /** A batch's buckets: none empty, all made of the batch, every discriminator once. */
  ghost predicate GoodSplit(naming: Naming, txs: seq<Tx>, buckets: set<Bucket>) {
    && (forall b <- buckets :: b.txs != [] && (forall tx <- b.txs :: tx in txs) && |naming.utf8(b.disc)| < U32_LIMIT)
    && (forall a <- buckets, b <- buckets :: a.disc == b.disc ==> a == b)
  }

  ghost predicate GoodSplits(naming: Naming, batches: map<MsgId, seq<Tx>>, split: map<MsgId, set<Bucket>>) {
    split.Keys == batches.Keys && forall p <- batches :: GoodSplit(naming, batches[p], split[p])
  }

  function Origins(split: map<MsgId, set<Bucket>>): set<(MsgId, Bucket)> {
    set p <- split, b <- split[p] :: (p, b)
  }

  lemma OriginUnique(naming: Naming, batches: map<MsgId, seq<Tx>>, split: map<MsgId, set<Bucket>>, x: (MsgId, Bucket),
                     y: (MsgId, Bucket))
    requires naming.Faithful(split) && GoodSplits(naming, batches, split) && x in Origins(split) && y in Origins(split)
    requires naming.IdOf(x.0, x.1.disc) == naming.IdOf(y.0, y.1.disc)
    ensures x == y
  {
    assert GoodSplit(naming, batches[x.0], split[x.0]) && GoodSplit(naming, batches[y.0], split[y.0]);
    var used := set o <- Origins(split) :: naming.Preimage(o);
    assert naming.Preimage(x) in used && naming.Preimage(y) in used;
    DeriveInjective(x.0, naming.utf8(x.1.disc), 0, y.0, naming.utf8(y.1.disc), 0);
  }

  function OutIds(naming: Naming, split: map<MsgId, set<Bucket>>): set<MsgId> {
    set x <- Origins(split) :: naming.IdOf(x.0, x.1.disc)
  }

  ghost function OriginOf(naming: Naming, split: map<MsgId, set<Bucket>>, o: MsgId): (x: (MsgId, Bucket))
    requires o in OutIds(naming, split)
    ensures x in Origins(split) && naming.IdOf(x.0, x.1.disc) == o
  {
    var x :| x in Origins(split) && naming.IdOf(x.0, x.1.disc) == o;
    x
  }

  ghost function OutsOf(naming: Naming, split: map<MsgId, set<Bucket>>): map<MsgId, Output> {
    map o <- OutIds(naming, split) :: var x := OriginOf(naming, split, o); Output(x.0, x.1.key, |x.1.txs|)
  }

  /** What the barrier has to count for this worker. */
  ghost function WorkOf(naming: Naming, batches: map<MsgId, seq<Tx>>, split: map<MsgId, set<Bucket>>): Work {
    Work(map p <- batches :: |batches[p]|, OutsOf(naming, split))
  }

  lemma OutEntry(naming: Naming, batches: map<MsgId, seq<Tx>>, split: map<MsgId, set<Bucket>>, p: MsgId, b: Bucket)
    requires naming.Faithful(split) && GoodSplits(naming, batches, split) && p in split && b in split[p]
    ensures var outs := OutsOf(naming, split); var id := naming.IdOf(p, b.disc);
            id in outs && outs[id] == Output(p, b.key, |b.txs|)
  {
    var o := naming.IdOf(p, b.disc);
    assert (p, b) in Origins(split) && naming.IdOf((p, b).0, (p, b).1.disc) == o;
    assert o in OutIds(naming, split);
    OriginUnique(naming, batches, split, OriginOf(naming, split, o), (p, b));
  }

  lemma OutOrigin(naming: Naming, batches: map<MsgId, seq<Tx>>, split: map<MsgId, set<Bucket>>, o: MsgId)
    returns (p: MsgId, b: Bucket)
    requires naming.Faithful(split) && GoodSplits(naming, batches, split) && o in OutsOf(naming, split)
    ensures p in split && b in split[p] && o == naming.IdOf(p, b.disc)
    ensures OutsOf(naming, split)[o] == Output(p, b.key, |b.txs|)
  {
    var x := OriginOf(naming, split, o);
    p, b := x.0, x.1;
    OutEntry(naming, batches, split, p, b);
  }

  /** The barrier's premises hold for every such worker: derived messages have distinct ids, known and
      non-empty parents, and are not empty. So its EOF theorems apply to DateRange and Spliter. */
  lemma WorkIsDerived(naming: Naming, batches: map<MsgId, seq<Tx>>, split: map<MsgId, set<Bucket>>)
    requires naming.Faithful(split) && GoodSplits(naming, batches, split)
    ensures Derived(WorkOf(naming, batches, split)) && NoneEmpty(WorkOf(naming, batches, split))
  {
    hide OutsOf;
    var work := WorkOf(naming, batches, split);
    forall o <- work.outs
      ensures work.outs[o].parent in work.sizes && work.sizes[work.outs[o].parent] > 0 && work.outs[o].count > 0
    {
      var p, b := OutOrigin(naming, batches, split, o);
      assert GoodSplit(naming, batches[p], split[p]);
      assert b.txs[0] in batches[p];
    }
  }

  /** The messages of few enough batches can be named so: the premises of what follows can be met, for every
      split of at most 256^16 messages. */
  lemma NamingExists(split: map<MsgId, set<Bucket>>) returns (naming: Naming)
    requires |Origins(split)| <= Pow256(16)
    ensures naming.Faithful(split) && forall disc :: |naming.utf8(disc)| < U32_LIMIT
  {
    hide BigEndian, FromBigEndian, Pow256, DerivePreimage, Origins;
    var discs := set x <- Origins(split) :: x.1.disc;
    var l := SomeOrder(discs);
    ListSize(l);
    ImageCard(Origins(split), (x: (MsgId, Bucket)) => x.1.disc, discs);
    var utf8 := (s: string) => BigEndian(IndexIn(l, s), 16);
    forall x <- Origins(split), y <- Origins(split) | utf8(x.1.disc) == utf8(y.1.disc) ensures x.1.disc == y.1.disc {
      assert x.1.disc in Elements(l) && y.1.disc in Elements(l);
      FixedInjective(IndexIn(l, x.1.disc), IndexIn(l, y.1.disc), Pow256(16), 16);
    }
    var preimage := (x: (MsgId, Bucket)) => DerivePreimage(x.0, utf8(x.1.disc), 0);
    var used := set x <- Origins(split) :: preimage(x);
    ImageCard(Origins(split), preimage, used);
    var hash := HashExists(used);
    naming := Naming(hash, utf8);
    assert used == set x <- Origins(split) :: naming.Preimage(x);
  }

  lemma {:induction false} ImageCard<S, T>(s: set<S>, f: S -> T, image: set<T>)
    requires image == set x <- s :: f(x)
    ensures |image| <= |s|
  {
    if s != {} {
      var x :| x in s;
      var rest := set y <- s - {x} :: f(y);
      assert image == rest + {f(x)};
      ImageCard(s - {x}, f, rest);
    }
  }

  // ---------------------------------------------------------------- handling one batch

  function TalliedBucket(naming: Naming, parent: MsgId, t: Tally, b: Bucket): Tally {
    t.WithSent(b.key, naming.IdOf(parent, b.disc), |b.txs|)
  }

  function Tallied(naming: Naming, parent: MsgId, t: Tally, buckets: seq<Bucket>): Tally {
    if buckets == [] then t
    else TalliedBucket(naming, parent, Tallied(naming, parent, t, buckets[..|buckets| - 1]), buckets[|buckets| - 1])
  }

  function Messages(naming: Naming, parent: MsgId, buckets: seq<Bucket>): seq<Message> {
    seq(|buckets|, i requires 0 <= i < |buckets| => Message(naming.IdOf(parent, buckets[i].disc), buckets[i].key,
        buckets[i].role, buckets[i].txs))
  }

  function IdsOf(naming: Naming, parent: MsgId, buckets: seq<Bucket>): seq<MsgId> {
    seq(|buckets|, i requires 0 <= i < |buckets| => naming.IdOf(parent, buckets[i].disc))
  }

  /** The ids of a batch's buckets are its outputs, all of them. */
  lemma IdsAreOutputs(naming: Naming, batches: map<MsgId, seq<Tx>>, split: map<MsgId, set<Bucket>>, p: MsgId,
                      buckets: seq<Bucket>)
    requires naming.Faithful(split) && GoodSplits(naming, batches, split) && p in split
             && forall b <- buckets :: b in split[p]
    ensures var work := WorkOf(naming, batches, split);
            && OutputsOf(work, p, IdsOf(naming, p, buckets))
            && (split[p] == (set b <- buckets) ==>
                  forall o <- work.outs :: work.outs[o].parent == p ==> o in IdsOf(naming, p, buckets))
  {
    hide OutsOf;
    var work, ids := WorkOf(naming, batches, split), IdsOf(naming, p, buckets);
    forall i | 0 <= i < |ids| ensures ids[i] in work.outs && work.outs[ids[i]].parent == p {
      OutEntry(naming, batches, split, p, buckets[i]);
    }
    if split[p] == set b <- buckets {
      forall o <- work.outs | work.outs[o].parent == p ensures o in ids {
        var q, b := OutOrigin(naming, batches, split, o);
        assert b in buckets;
        var i :| 0 <= i < |buckets| && buckets[i] == b;
        assert ids[i] == o;
      }
    }
  }

  /** The tally of the handler is the one the barrier's steps build. */
  lemma {:induction false} TalliedIsSent(naming: Naming, batches: map<MsgId, seq<Tx>>, split: map<MsgId, set<Bucket>>,
                                         p: MsgId, t: Tally, buckets: seq<Bucket>)
    requires naming.Faithful(split) && GoodSplits(naming, batches, split) && p in split
             && forall b <- buckets :: b in split[p]
    ensures forall o <- IdsOf(naming, p, buckets) :: o in WorkOf(naming, batches, split).outs
    ensures SentAll(WorkOf(naming, batches, split), t, IdsOf(naming, p, buckets)) == Tallied(naming, p, t, buckets)
    decreases |buckets|
  {
    hide OutsOf, Tally.WithSent;
    IdsAreOutputs(naming, batches, split, p, buckets);
    if buckets != [] {
      var init, b := buckets[..|buckets| - 1], buckets[|buckets| - 1];
      assert buckets == init + [b];
      TalliedIsSent(naming, batches, split, p, t, init);
      OutEntry(naming, batches, split, p, b);
      var ids := IdsOf(naming, p, buckets);
      assert ids[..|ids| - 1] == IdsOf(naming, p, init) && ids[|ids| - 1] == naming.IdOf(p, b.disc);
    }
  }

  /** A handler that publishes all buckets of a batch, records each, and the batch last, is one run of the
      barrier's handler steps: it ends with the handler's tally and messages. */
  lemma HandlerIsSteps(naming: Naming, batches: map<MsgId, seq<Tx>>, split: map<MsgId, set<Bucket>>, stage: Stage,
                       s: State, n: nat, p: MsgId, buckets: seq<Bucket>) returns (run: seq<State>)
    requires naming.Faithful(split) && GoodSplits(naming, batches, split)
    requires stage.work == WorkOf(naming, batches, split)
    requires p in split && split[p] == (set b <- buckets) && n in s.nodes && s.nodes[n].hand.None?
    ensures HandlerRun(stage, n, p, run) && run[0] == s
    ensures var last := run[|run| - 1];
            var m := Known(s.nodes[n].member);
            && last == s.(published := last.published, nodes := s.nodes[n := s.nodes[n].(member := Some(m.(
                              tally := Tallied(naming, p, m.tally, buckets).WithReceived(p, |batches[p]|))))])
            && forall o :: o in last.published <==>
                 (o in s.published || exists m <- Messages(naming, p, buckets) :: m.id == o)
  {
    hide OutsOf, Tally.WithSent, HandlerRun;
    IdsAreOutputs(naming, batches, split, p, buckets);
    var ids, t := IdsOf(naming, p, buckets), Known(s.nodes[n].member).tally;
    run := ReachesBehind(stage, s, n, p, ids);
    TalliedIsSent(naming, batches, split, p, t, buckets);
    forall o ensures o in ids <==> exists m <- Messages(naming, p, buckets) :: m.id == o {
      SameIds(naming, p, buckets, o);
    }
    assert stage.work.sizes[p] == |batches[p]|;
    assert forall o :: o in Elements(ids) <==> o in ids;
  }

  lemma SameIds(naming: Naming, p: MsgId, buckets: seq<Bucket>, o: MsgId)
    ensures o in IdsOf(naming, p, buckets) <==> exists m <- Messages(naming, p, buckets) :: m.id == o
  {
    var ids, messages := IdsOf(naming, p, buckets), Messages(naming, p, buckets);
    if o in ids {
      var i :| 0 <= i < |ids| && ids[i] == o;
      assert messages[i].id == o;
    }
    if m :| m in messages && m.id == o {
      var i :| 0 <= i < |messages| && messages[i] == m;
      assert ids[i] == o;
    }
  }

  // ---------------------------------------------------------------- DateRange

  const DOLLAR := "US Dollar"
  const KEY_DOLLAR: Key := "tx.usd"
  const KEY_NON_DOLLAR: Key := "tx.non-usd"

  predicate InRange(from: string, to: string, tx: Tx) {
    tx.timestamp != "" && !Less(tx.timestamp, from) && !Less(to, tx.timestamp)
  }

  function Kept(from: string, to: string, dollar: bool, txs: seq<Tx>): seq<Tx> {
    if txs == [] then []
    else
      var tx := txs[|txs| - 1];
      Kept(from, to, dollar, txs[..|txs| - 1])
      + if InRange(from, to, tx) && (tx.currency == DOLLAR) == dollar then [tx] else []
  }

  lemma {:induction false} KeptWithin(from: string, to: string, dollar: bool, txs: seq<Tx>)
    ensures forall tx :: tx in Kept(from, to, dollar, txs) <==>
                         tx in txs && InRange(from, to, tx) && (tx.currency == DOLLAR) == dollar
  {
    if txs != [] {
      KeptWithin(from, to, dollar, txs[..|txs| - 1]);
      assert txs == txs[..|txs| - 1] + [txs[|txs| - 1]];
    }
  }

  function NonEmpty(b: Bucket): seq<Bucket> {
    if b.txs == [] then [] else [b]
  }

  /** Dollar transactions of the range under one key, the others under the other; an empty batch is not sent. */
  function DateBuckets(from: string, to: string, txs: seq<Tx>): seq<Bucket> {
    NonEmpty(Bucket(KEY_DOLLAR, KEY_DOLLAR, SG.Unknown, Kept(from, to, true, txs)))
    + NonEmpty(Bucket(KEY_NON_DOLLAR, KEY_NON_DOLLAR, SG.Unknown, Kept(from, to, false, txs)))
  }

  lemma DateSplitIsGood(naming: Naming, from: string, to: string, txs: seq<Tx>)
    requires |naming.utf8(KEY_DOLLAR)| < U32_LIMIT && |naming.utf8(KEY_NON_DOLLAR)| < U32_LIMIT
    ensures GoodSplit(naming, txs, set b <- DateBuckets(from, to, txs))
  {
    KeptWithin(from, to, true, txs);
    KeptWithin(from, to, false, txs);
  }

  /** What a filter is to let through: the transactions of the range, dollars or others. */
  ghost function InDates(from: string, to: string, dollar: bool): Tx -> bool {
    (tx: Tx) => tx.timestamp != "" && !Less(tx.timestamp, from) && !Less(to, tx.timestamp)
                && (tx.currency == "US Dollar") == dollar
  }

  /** Under this key and discriminator goes one message with exactly the transactions that satisfy `p`, in order;
      none if there are none. */
  ghost predicate OneMessage(naming: Naming, parent: MsgId, txs: seq<Tx>, p: Tx -> bool, key: Key, sent: seq<Message>) {
    if forall tx <- txs :: !p(tx) then forall m <- sent :: m.key != key
    else exists i :: 0 <= i < |sent| && sent[i].key == key && sent[i].id == naming.IdOf(parent, key)
                     && IsFiltered(txs, p, sent[i].txs) && forall j :: 0 <= j < |sent| && sent[j].key == key ==> j == i
  }

  /** What DateRange sends of a batch. */
  ghost predicate IsDateSplit(naming: Naming, from: string, to: string, parent: MsgId, txs: seq<Tx>,
                              sent: seq<Message>) {
    && (forall m <- sent :: m.key == "tx.usd" || m.key == "tx.non-usd")
    && OneMessage(naming, parent, txs, InDates(from, to, true), "tx.usd", sent)
    && OneMessage(naming, parent, txs, InDates(from, to, false), "tx.non-usd", sent)
  }

  lemma {:induction false} KeptIsFiltered(from: string, to: string, dollar: bool, txs: seq<Tx>)
    ensures IsFiltered(txs, InDates(from, to, dollar), Kept(from, to, dollar, txs))
  {
    if txs == [] {
      FilteredNone(InDates(from, to, dollar));
    } else {
      var init, tx := txs[..|txs| - 1], txs[|txs| - 1];
      assert txs == init + [tx];
      KeptIsFiltered(from, to, dollar, init);
      FilteredSnoc(init, tx, InDates(from, to, dollar), Kept(from, to, dollar, init));
      assert Kept(from, to, dollar, init) + [] == Kept(from, to, dollar, init);
    }
  }

  lemma NonEmptyIsOne(naming: Naming, parent: MsgId, txs: seq<Tx>, p: Tx -> bool, key: Key, l: seq<Tx>,
                      before: seq<Bucket>, after: seq<Bucket>)
    requires IsFiltered(txs, p, l) && (forall b <- before :: b.key != key) && forall b <- after :: b.key != key
    ensures OneMessage(naming, parent, txs, p, key,
                       Messages(naming, parent, before + NonEmpty(Bucket(key, key, SG.Unknown, l)) + after))
  {
    FilteredEmptyIff(txs, p, l);
    hide IsFiltered;
    var one := NonEmpty(Bucket(key, key, SG.Unknown, l));
    var sent := Messages(naming, parent, before + one + after);
    assert forall j :: 0 <= j < |sent| && sent[j].key == key ==> l != [] && j == |before|;
    if l != [] {
      assert sent[|before|] == Message(naming.IdOf(parent, key), key, SG.Unknown, l);
    }
  }

  /** DateRange's messages, said of the batch alone. */
  lemma DateBucketsSplit(naming: Naming, from: string, to: string, parent: MsgId, txs: seq<Tx>)
    ensures IsDateSplit(naming, from, to, parent, txs, Messages(naming, parent, DateBuckets(from, to, txs)))
  {
    KeptIsFiltered(from, to, true, txs);
    KeptIsFiltered(from, to, false, txs);
    hide IsFiltered, InDates, OneMessage;
    var dollar := NonEmpty(Bucket(KEY_DOLLAR, KEY_DOLLAR, SG.Unknown, Kept(from, to, true, txs)));
    var other := NonEmpty(Bucket(KEY_NON_DOLLAR, KEY_NON_DOLLAR, SG.Unknown, Kept(from, to, false, txs)));
    NonEmptyIsOne(naming, parent, txs, InDates(from, to, true), KEY_DOLLAR, Kept(from, to, true, txs), [], other);
    NonEmptyIsOne(naming, parent, txs, InDates(from, to, false), KEY_NON_DOLLAR, Kept(from, to, false, txs), dollar,
                  []);
    assert [] + dollar + other == DateBuckets(from, to, txs) == dollar + other + [];
  }

  function DateSplits(from: string, to: string, batches: map<MsgId, seq<Tx>>): map<MsgId, set<Bucket>> {
    map p <- batches :: set b <- DateBuckets(from, to, batches[p])
  }

  /** A DateRange stage that forgets clients between batches only, and is told at least what it was sent or
      to flush, emits exact counts: the barrier's theorems hold of it. */
  lemma DateRangeIsSafe(naming: Naming, from: string, to: string, batches: map<MsgId, seq<Tx>>, stage: Stage)
    requires naming.Faithful(DateSplits(from, to, batches))
    requires |naming.utf8(KEY_DOLLAR)| < U32_LIMIT && |naming.utf8(KEY_NON_DOLLAR)| < U32_LIMIT
    requires stage.work == WorkOf(naming, batches, DateSplits(from, to, batches)) && stage.orderly
    requires forall counts <- stage.eofs :: stage.Read(counts) == -1 || stage.Read(counts) >= Sum(stage.work.sizes)
    ensures GoodSplits(naming, batches, DateSplits(from, to, batches)) && Safe(stage)
  {
    hide DateBuckets, GoodSplit, WorkOf, Derived, Safe, Sum;
    forall p <- batches ensures GoodSplit(naming, batches[p], set b <- DateBuckets(from, to, batches[p])) {
      DateSplitIsGood(naming, from, to, batches[p]);
    }
    WorkIsDerived(naming, batches, DateSplits(from, to, batches));
    EnoughIsSafe(stage);
  }

  /** Such stages exist: for any batches with few enough messages there is a naming, and for one transaction in
      the range one with a message. */
  lemma DateRangeExists(from: string, to: string, batches: map<MsgId, seq<Tx>>) returns (naming: Naming, stage: Stage)
    requires |Origins(DateSplits(from, to, batches))| <= Pow256(16)
    ensures naming.Faithful(DateSplits(from, to, batches)) && GoodSplits(naming, batches, DateSplits(from, to, batches))
    ensures stage.work == WorkOf(naming, batches, DateSplits(from, to, batches)) && stage.eofs != {} && Safe(stage)
  {
    hide DateSplits, WorkOf, Safe, Sum, Naming.Faithful, GoodSplits, Origins, Pow256;
    naming := NamingExists(DateSplits(from, to, batches));
    var work := WorkOf(naming, batches, DateSplits(from, to, batches));
    stage := Stage(work, {map[KEY_NIL := Sum(work.sizes) as int]}, KEY_NIL, 0, true);
    DateRangeIsSafe(naming, from, to, batches, stage);
  }

  lemma KeptOne(from: string, to: string, dollar: bool, tx: Tx)
    ensures Kept(from, to, dollar, [tx]) ==
            if InRange(from, to, tx) && (tx.currency == DOLLAR) == dollar then [tx] else []
  {
    hide InRange;
    assert [tx][..0] == [];
  }

  lemma OneSplit(p: MsgId, from: string, to: string, txs: seq<Tx>, b: Bucket)
    requires DateBuckets(from, to, txs) == [b]
    ensures DateSplits(from, to, map[p := txs])[p] == {b} && Origins(DateSplits(from, to, map[p := txs])) == {(p, b)}
  {
    hide DateBuckets;
    var split := DateSplits(from, to, map[p := txs]);
    assert split.Keys == {p} && split[p] == {b} by {
      assert [b][0] in [b];
      assert forall x :: x in [b] <==> x == b;
    }
    hide DateSplits;
    assert split == map[p := {b}];
    assert Origins(map[p := {b}]) == {(p, b)};
  }

  /** One transaction in the range makes one message. */
  lemma OneDateMessage(p: MsgId, tx: Tx, from: string, to: string) returns (b: Bucket)
    requires InRange(from, to, tx)
    ensures DateSplits(from, to, map[p := [tx]])[p] == {b} && Origins(DateSplits(from, to, map[p := [tx]])) == {(p, b)}
  {
    hide Kept, InRange, DateSplits, Origins;
    var key := if tx.currency == DOLLAR then KEY_DOLLAR else KEY_NON_DOLLAR;
    b := Bucket(key, key, SG.Unknown, [tx]);
    KeptOne(from, to, true, tx);
    KeptOne(from, to, false, tx);
    assert DateBuckets(from, to, [tx]) == [b];
    OneSplit(p, from, to, [tx], b);
  }

  lemma SomeDateRange(p: MsgId, tx: Tx, from: string, to: string) returns (naming: Naming, stage: Stage)
    requires InRange(from, to, tx)
    ensures naming.Faithful(DateSplits(from, to, map[p := [tx]]))
    ensures GoodSplits(naming, map[p := [tx]], DateSplits(from, to, map[p := [tx]]))
    ensures stage.work == WorkOf(naming, map[p := [tx]], DateSplits(from, to, map[p := [tx]])) && Safe(stage)
    ensures stage.work.outs != map[]
  {
    var split := DateSplits(from, to, map[p := [tx]]);
    hide Safe, Naming.Faithful, GoodSplits, DateSplits, Origins, OutsOf, Pow256;
    var b := OneDateMessage(p, tx, from, to);
    naming, stage := DateRangeExists(from, to, map[p := [tx]]);
    OutEntry(naming, map[p := [tx]], split, p, b);
  }

  /** What a worker knows and has sent, for one client. */
  class KeyedWorker {
    const naming: Naming
    var tally: Tally
    var published: seq<Message>

    constructor (naming: Naming)
      ensures this.naming == naming && tally == NOTHING && published == []
    {
      this.naming := naming;
      tally, published := NOTHING, [];
    }

    /** sendMessageToBroker, sendPhaseOneBatch: publish first, then record as sent. */
    method Send(parent: MsgId, b: Bucket)
      modifies this
      ensures published == old(published) + Messages(naming, parent, [b])
      ensures tally == Tallied(naming, parent, old(tally), [b])
      ensures var id := naming.hash(DerivePreimage(parent, naming.utf8(b.disc), 0));
              && published == old(published) + [Message(id, b.key, b.role, b.txs)]
              && tally == old(tally).WithSent(b.key, id, |b.txs|)
    {
      var id := naming.IdOf(parent, b.disc);
      published := published + [Message(id, b.key, b.role, b.txs)];
      tally := tally.WithSent(b.key, id, |b.txs|);
      assert [b][..0] == [] && Tallied(naming, parent, old(tally), []) == old(tally);
    }

    method SendAll(parent: MsgId, buckets: seq<Bucket>)
      modifies this
      ensures published == old(published) + Messages(naming, parent, buckets)
      ensures tally == Tallied(naming, parent, old(tally), buckets)
    {
      for i := 0 to |buckets|
        invariant published == old(published) + Messages(naming, parent, buckets[..i])
        invariant tally == Tallied(naming, parent, old(tally), buckets[..i])
      {
        Send(parent, buckets[i]);
        assert buckets[..i + 1][..i] == buckets[..i];
      }
      assert buckets[..|buckets|] == buckets;
    }

    /** DateRange.handleTransactionsBatchMessage. */
    method HandleDateRange(from: string, to: string, parent: MsgId, txs: seq<Tx>)
      modifies this
      ensures published == old(published) + Messages(naming, parent, DateBuckets(from, to, txs))
      ensures IsDateSplit(naming, from, to, parent, txs, published[|old(published)|..])
      ensures tally == Tallied(naming, parent, old(tally), DateBuckets(from, to, txs)).WithReceived(parent, |txs|)
    {
      DateBucketsSplit(naming, from, to, parent, txs);
      hide IsDateSplit;
      var dollar: seq<Tx>, other: seq<Tx> := [], [];
      for i := 0 to |txs|
        invariant dollar == Kept(from, to, true, txs[..i]) && other == Kept(from, to, false, txs[..i])
      {
        assert txs[..i + 1][..i] == txs[..i];
        if InRange(from, to, txs[i]) {
          if txs[i].currency == DOLLAR {
            dollar := dollar + [txs[i]];
          } else {
            other := other + [txs[i]];
          }
        }
      }
      assert txs[..|txs|] == txs;
      SendAll(parent, NonEmpty(Bucket(KEY_DOLLAR, KEY_DOLLAR, SG.Unknown, dollar))
          + NonEmpty(Bucket(KEY_NON_DOLLAR, KEY_NON_DOLLAR, SG.Unknown, other)));
      tally := tally.WithReceived(parent, |txs|);
    }

    /** Spliter.handleTransactionBatchMessage: nothing is sent of a batch with a missing field. */
    method HandleSplit(shards: Shards, parent: MsgId, txs: seq<Tx>) returns (ok: bool, ghost order: seq<BucketKey>)
      modifies this
      ensures ok <==> forall tx <- txs :: Complete(tx)
      ensures ok <==> forall tx <- txs :: tx.from.bank != "" && tx.from.id != "" && tx.to.bank != "" && tx.to.id != ""
      ensures !ok ==> published == old(published) && tally == old(tally)
      ensures ok ==>
                && Elements(order) == SplitBuckets(shards, txs).Keys && |order| == |SplitBuckets(shards, txs)|
                && var buckets := InOrder(shards, SplitBuckets(shards, txs), order);
                   && published == old(published) + Messages(naming, parent, buckets)
                   && IsShardSplit(naming, shards, parent, txs, order, published[|old(published)|..])
                   && tally == Tallied(naming, parent, old(tally), buckets).WithReceived(parent, |txs|)
    {
      hide IsShardSplit;
      order := [];
      var buckets: map<BucketKey, seq<Tx>> := map[];
      for i := 0 to |txs|
        invariant buckets == SplitBuckets(shards, txs[..i]) && forall tx <- txs[..i] :: Complete(tx)
        invariant published == old(published) && tally == old(tally)
      {
        assert txs[..i + 1][..i] == txs[..i] && txs[..i + 1] == txs[..i] + [txs[i]];
        if !Complete(txs[i]) {
          return false, order;
        }
        buckets := WithTx(WithTx(buckets, (SG.Scatter, shards.owner(txs[i].from)), txs[i]),
            (SG.Gather, shards.owner(txs[i].to)), txs[i]);
      }
      assert txs[..|txs|] == txs;
      order := SendBuckets(shards, parent, buckets);
      SplitBucketsSplit(naming, shards, parent, txs, order);
      tally := tally.WithReceived(parent, |txs|);
      ok := true;
    }

    /** The buckets in whatever order the map yields them. */
    method SendBuckets(shards: Shards, parent: MsgId, buckets: map<BucketKey, seq<Tx>>)
      returns (ghost order: seq<BucketKey>)
      modifies this
      ensures Elements(order) == buckets.Keys && |order| == |buckets|
      ensures published == old(published) + Messages(naming, parent, InOrder(shards, buckets, order))
      ensures tally == Tallied(naming, parent, old(tally), InOrder(shards, buckets, order))
    {
      hide InOrder, Tallied, Messages, Elements, TxsOf;
      var todo := buckets.Keys;
      order := [];
      NothingInOrder(naming, shards, parent, buckets, tally);
      while todo != {}
        invariant todo <= buckets.Keys && |order| == |buckets.Keys| - |todo|
        invariant Elements(order) == buckets.Keys - todo
        invariant published == old(published) + Messages(naming, parent, InOrder(shards, buckets, order))
        invariant tally == Tallied(naming, parent, old(tally), InOrder(shards, buckets, order))
        decreases todo
      {
        var k :| k in todo;
        OneMoreInOrder(naming, shards, parent, buckets, old(tally), order, k);
        Send(parent, BucketOf(shards, k, TxsOf(buckets, k)));
        order := order + [k];
        todo := todo - {k};
      }
    }
  }

  // ---------------------------------------------------------------- Spliter

  type BucketKey = (SG.Role, nat)

  /** The next stage: who owns an account, and the routing key of each of its workers. */
  datatype Shards = Shards(owner: Query4.Owner, keyOf: nat -> Key) {
    ghost predicate Named() {
      forall i, j :: keyOf(i) == keyOf(j) ==> i == j
    }
  }

  function TxsOf(buckets: map<BucketKey, seq<Tx>>, k: BucketKey): seq<Tx> {
    if k in buckets then buckets[k] else []
  }

  /** Both accounts of the transaction have a bank and a number. */
  predicate Complete(tx: Tx) {
    tx.from.bank != "" && tx.from.id != "" && tx.to.bank != "" && tx.to.id != ""
  }

  function WithTx(buckets: map<BucketKey, seq<Tx>>, k: BucketKey, tx: Tx): map<BucketKey, seq<Tx>> {
    buckets[k := TxsOf(buckets, k) + [tx]]
  }

  /** Every transaction twice: to the owner of its source as scatter, to the owner of its sink as gather. */
  function SplitBuckets(shards: Shards, txs: seq<Tx>): map<BucketKey, seq<Tx>> {
    if txs == [] then map[]
    else
      var tx := txs[|txs| - 1];
      WithTx(WithTx(SplitBuckets(shards, txs[..|txs| - 1]), (SG.Scatter, shards.owner(tx.from)), tx),
          (SG.Gather, shards.owner(tx.to)), tx)
  }

  function RoleName(role: SG.Role): string {
    match role
    case Scatter => "scatter:"
    case Gather => "gather:"
    case Unknown => ":"
  }

  function BucketOf(shards: Shards, k: BucketKey, txs: seq<Tx>): Bucket
  {
    Bucket(RoleName(k.0) + shards.keyOf(k.1), shards.keyOf(k.1), k.0, txs)
  }

  function InOrder(shards: Shards, buckets: map<BucketKey, seq<Tx>>, order: seq<BucketKey>): seq<Bucket>
  {
    seq(|order|, i requires 0 <= i < |order| => BucketOf(shards, order[i], TxsOf(buckets, order[i])))
  }

  lemma NothingInOrder(naming: Naming, shards: Shards, parent: MsgId, buckets: map<BucketKey, seq<Tx>>, t: Tally)
    ensures InOrder(shards, buckets, []) == [] && Elements<BucketKey>([]) == {}
    ensures Messages(naming, parent, []) == [] && Tallied(naming, parent, t, []) == t
  {
  }

  lemma OneMoreInOrder(naming: Naming, shards: Shards, parent: MsgId, buckets: map<BucketKey, seq<Tx>>, t: Tally,
                       order: seq<BucketKey>, k: BucketKey)
    ensures var before := InOrder(shards, buckets, order);
            var b := BucketOf(shards, k, TxsOf(buckets, k));
            var after := InOrder(shards, buckets, order + [k]);
            && Messages(naming, parent, after) == Messages(naming, parent, before) + Messages(naming, parent, [b])
            && Tallied(naming, parent, t, after) == Tallied(naming, parent, Tallied(naming, parent, t, before), [b])
    ensures Elements(order + [k]) == Elements(order) + {k}
  {
    var before, b := InOrder(shards, buckets, order), BucketOf(shards, k, TxsOf(buckets, k));
    assert InOrder(shards, buckets, order + [k]) == before + [b];
    assert (before + [b])[..|before|] == before;
    assert [b][..0] == [] && Tallied(naming, parent, Tallied(naming, parent, t, before), [])
           == Tallied(naming, parent, t, before);
  }

  /** The end of a transaction that a role looks at. */
  function EndFor(role: SG.Role, tx: Tx): Account {
    if role.Scatter? then tx.from else tx.to
  }

  lemma WithTxMember(buckets: map<BucketKey, seq<Tx>>, k: BucketKey, tx: Tx, l: BucketKey, x: Tx)
    ensures x in TxsOf(WithTx(buckets, k, tx), l) <==> x in TxsOf(buckets, l) || (l == k && x == tx)
  {
  }

  /** A bucket holds exactly the transactions whose account of that role the shard owns. */
  lemma {:induction false} SplitIsSharding(shards: Shards, txs: seq<Tx>, k: BucketKey, x: Tx)
    ensures x in TxsOf(SplitBuckets(shards, txs), k) <==>
            x in txs && !k.0.Unknown? && shards.owner(EndFor(k.0, x)) == k.1
  {
    if txs != [] {
      var init, tx := txs[..|txs| - 1], txs[|txs| - 1];
      assert txs == init + [tx];
      var before := SplitBuckets(shards, init);
      var s, g := (SG.Scatter, shards.owner(tx.from)), (SG.Gather, shards.owner(tx.to));
      assert SplitBuckets(shards, txs) == WithTx(WithTx(before, s, tx), g, tx);
      hide SplitBuckets, WithTx, TxsOf;
      SplitIsSharding(shards, init, k, x);
      WithTxMember(before, s, tx, k, x);
      WithTxMember(WithTx(before, s, tx), g, tx, k, x);
    }
  }

  /** The transactions whose account of that role belongs to the shard. */
  ghost function ForShard(shards: Shards, k: BucketKey): Tx -> bool {
    (tx: Tx) => shards.owner(if k.0.Scatter? then tx.from else tx.to) == k.1
  }

  /** The message for one role and shard: to the shard's key, naming the role, with exactly the transactions
      meant for it, in order. */
  ghost predicate IsShardMessage(naming: Naming, shards: Shards, parent: MsgId, txs: seq<Tx>, k: BucketKey,
                                 m: Message) {
    && m.key == shards.keyOf(k.1) && m.role == k.0
    && m.id == naming.IdOf(parent, (if k.0.Scatter? then "scatter:" else "gather:") + shards.keyOf(k.1))
    && IsFiltered(txs, ForShard(shards, k), m.txs)
  }

  /** What Spliter sends of a batch: one message for every role and shard it has a transaction for. */
  ghost predicate IsShardSplit(naming: Naming, shards: Shards, parent: MsgId, txs: seq<Tx>, order: seq<BucketKey>,
                               sent: seq<Message>) {
    && |order| == |sent| && Unique(order)
    && (forall k: BucketKey :: k in order <==> !k.0.Unknown? && exists tx <- txs :: ForShard(shards, k)(tx))
    && forall i :: 0 <= i < |order| ==> IsShardMessage(naming, shards, parent, txs, order[i], sent[i])
  }

  lemma {:induction false} SplitIsFiltered(shards: Shards, txs: seq<Tx>, k: BucketKey)
    requires !k.0.Unknown?
    ensures IsFiltered(txs, ForShard(shards, k), TxsOf(SplitBuckets(shards, txs), k))
  {
    if txs == [] {
      FilteredNone(ForShard(shards, k));
    } else {
      var init, tx := txs[..|txs| - 1], txs[|txs| - 1];
      assert txs == init + [tx];
      SplitIsFiltered(shards, init, k);
      FilteredSnoc(init, tx, ForShard(shards, k), TxsOf(SplitBuckets(shards, init), k));
      hide IsFiltered;
    }
  }

  /** Spliter's messages, said of the batch alone. */
  lemma SplitBucketsSplit(naming: Naming, shards: Shards, parent: MsgId, txs: seq<Tx>, order: seq<BucketKey>)
    requires Elements(order) == SplitBuckets(shards, txs).Keys && |order| == |SplitBuckets(shards, txs)|
    ensures IsShardSplit(naming, shards, parent, txs, order,
                         Messages(naming, parent, InOrder(shards, SplitBuckets(shards, txs), order)))
  {
    hide SplitBuckets, ForShard, IsFiltered;
    var all := SplitBuckets(shards, txs);
    var sent := Messages(naming, parent, InOrder(shards, all, order));
    forall k: BucketKey ensures k in order <==> !k.0.Unknown? && exists tx <- txs :: ForShard(shards, k)(tx) {
      assert k in order <==> k in Elements(order);
      ShardNeeds(shards, txs, k);
    }
    forall i | 0 <= i < |order| ensures IsShardMessage(naming, shards, parent, txs, order[i], sent[i]) {
      assert order[i] in Elements(order);
      ShardNeeds(shards, txs, order[i]);
      SplitIsFiltered(shards, txs, order[i]);
    }
    assert |order| == |all.Keys|;
    ListedOnce(order);
  }

  lemma ShardNeeds(shards: Shards, txs: seq<Tx>, k: BucketKey)
    ensures k in SplitBuckets(shards, txs) <==> !k.0.Unknown? && exists tx <- txs :: ForShard(shards, k)(tx)
  {
    if k in SplitBuckets(shards, txs) {
      SplitRole(shards, txs, k);
    }
    if !k.0.Unknown? {
      SplitIsFiltered(shards, txs, k);
      FilteredEmptyIff(txs, ForShard(shards, k), TxsOf(SplitBuckets(shards, txs), k));
      hide IsFiltered, ForShard, SplitBuckets;
      if k in SplitBuckets(shards, txs) {
        assert TxsOf(SplitBuckets(shards, txs), k) != [];
      }
    }
  }

  lemma {:induction false} SplitNonEmpty(shards: Shards, txs: seq<Tx>)
    ensures forall k <- SplitBuckets(shards, txs) :: SplitBuckets(shards, txs)[k] != []
  {
    if txs != [] {
      SplitNonEmpty(shards, txs[..|txs| - 1]);
    }
  }

  lemma SplitRole(shards: Shards, txs: seq<Tx>, k: BucketKey)
    requires k in SplitBuckets(shards, txs)
    ensures !k.0.Unknown? && TxsOf(SplitBuckets(shards, txs), k) != []
  {
    SplitNonEmpty(shards, txs);
    SplitIsSharding(shards, txs, k, SplitBuckets(shards, txs)[k][0]);
  }

  /** The buckets of one batch, and how they are made in whatever order. */
  function BucketSet(shards: Shards, txs: seq<Tx>): set<Bucket> {
    set k <- SplitBuckets(shards, txs) :: BucketOf(shards, k, SplitBuckets(shards, txs)[k])
  }

  lemma InOrderSet(shards: Shards, txs: seq<Tx>, order: seq<BucketKey>)
    requires Elements(order) == SplitBuckets(shards, txs).Keys
    ensures (set b <- InOrder(shards, SplitBuckets(shards, txs), order)) == BucketSet(shards, txs)
  {
    hide SplitBuckets, BucketOf;
    var all := SplitBuckets(shards, txs);
    var buckets := InOrder(shards, all, order);
    forall b <- buckets ensures b in BucketSet(shards, txs) {
      var i :| 0 <= i < |buckets| && buckets[i] == b;
      assert order[i] in Elements(order);
    }
    forall k <- all ensures BucketOf(shards, k, all[k]) in buckets {
      assert k in Elements(order);
      var i :| 0 <= i < |order| && order[i] == k;
      assert buckets[i] == BucketOf(shards, k, all[k]);
    }
  }

  ghost predicate ShortNames(naming: Naming, shards: Shards, txs: seq<Tx>) {
    forall k <- SplitBuckets(shards, txs) :: |naming.utf8(BucketOf(shards, k, []).disc)| < U32_LIMIT
  }

  lemma SplitIsGood(naming: Naming, shards: Shards, txs: seq<Tx>)
    requires shards.Named() && ShortNames(naming, shards, txs)
    ensures GoodSplit(naming, txs, BucketSet(shards, txs))
  {
    hide SplitBuckets, RoleName;
    var all := SplitBuckets(shards, txs);
    forall k <- all ensures !k.0.Unknown? && all[k] != [] && forall tx <- all[k] :: tx in txs {
      SplitRole(shards, txs, k);
      forall tx <- all[k] ensures tx in txs {
        SplitIsSharding(shards, txs, k, tx);
      }
    }
    forall k <- all, l <- all | BucketOf(shards, k, all[k]).disc == BucketOf(shards, l, all[l]).disc ensures k == l {
      DiscInjective(shards, k, l);
    }
    forall k <- all ensures |naming.utf8(BucketOf(shards, k, all[k]).disc)| < U32_LIMIT {
      assert BucketOf(shards, k, all[k]).disc == BucketOf(shards, k, []).disc;
    }
  }

  function ShardSplits(shards: Shards, batches: map<MsgId, seq<Tx>>): map<MsgId, set<Bucket>> {
    map p <- batches :: BucketSet(shards, batches[p])
  }

  /** And so does a Spliter stage. */
  lemma SpliterIsSafe(naming: Naming, shards: Shards, batches: map<MsgId, seq<Tx>>, stage: Stage)
    requires naming.Faithful(ShardSplits(shards, batches)) && shards.Named()
    requires forall p <- batches :: ShortNames(naming, shards, batches[p])
    requires stage.work == WorkOf(naming, batches, ShardSplits(shards, batches)) && stage.orderly
    requires forall counts <- stage.eofs :: stage.Read(counts) == -1 || stage.Read(counts) >= Sum(stage.work.sizes)
    ensures GoodSplits(naming, batches, ShardSplits(shards, batches)) && Safe(stage)
  {
    hide BucketSet, GoodSplit, ShortNames, WorkOf, Derived, Safe, Sum;
    forall p <- batches ensures GoodSplit(naming, batches[p], BucketSet(shards, batches[p])) {
      SplitIsGood(naming, shards, batches[p]);
    }
    WorkIsDerived(naming, batches, ShardSplits(shards, batches));
    EnoughIsSafe(stage);
  }

  /** Spliter's handler, in whatever order it sends its buckets, takes the barrier's steps. */
  lemma SpliterIsSteps(naming: Naming, shards: Shards, batches: map<MsgId, seq<Tx>>, stage: Stage, s: State, n: nat,
                       p: MsgId, order: seq<BucketKey>) returns (run: seq<State>)
    requires naming.Faithful(ShardSplits(shards, batches)) && GoodSplits(naming, batches, ShardSplits(shards, batches))
    requires stage.work == WorkOf(naming, batches, ShardSplits(shards, batches))
    requires p in batches && Elements(order) == SplitBuckets(shards, batches[p]).Keys
    requires n in s.nodes && s.nodes[n].hand.None?
    ensures HandlerRun(stage, n, p, run) && run[0] == s && n in run[|run| - 1].nodes
    ensures TallyOf(run[|run| - 1], n) ==
            Tallied(naming, p, TallyOf(s, n), InOrder(shards, SplitBuckets(shards, batches[p]), order))
              .WithReceived(p, |batches[p]|)
  {
    hide GoodSplits, WorkOf, SplitBuckets, InOrder, HandlerRun, Tallied, BucketSet;
    InOrderSet(shards, batches[p], order);
    run := HandlerIsSteps(naming, batches, ShardSplits(shards, batches), stage, s, n, p,
                          InOrder(shards, SplitBuckets(shards, batches[p]), order));
  }

  lemma DiscInjective(shards: Shards, k: BucketKey, l: BucketKey)
    requires shards.Named() && !k.0.Unknown? && !l.0.Unknown?
    requires RoleName(k.0) + shards.keyOf(k.1) == RoleName(l.0) + shards.keyOf(l.1)
    ensures k == l
  {
    var a, b := RoleName(k.0) + shards.keyOf(k.1), RoleName(l.0) + shards.keyOf(l.1);
    assert a[0] == RoleName(k.0)[0] && b[0] == RoleName(l.0)[0];
    var n := |RoleName(k.0)|;
    assert a[n..] == shards.keyOf(k.1) && b[n..] == shards.keyOf(l.1);
  }
}
