// The stages behind ScatterAndGather: accumulators that add up partial counts, the
// threshold filter, and the join that unites the accounts into the result.
module PairCounts {
  import opened Bytes
  import opened Accounts
  import opened ScatterAndGather
  import opened StringOrder

  const BATCH_SIZE := 1000

  /** A phase-two message: one pair with the count of one flush of one replica. */
  type PairMessage = (Pair, nat)

  function AddedPair(acc: Counts, m: PairMessage): Counts {
    acc[m.0 := CountOf(acc, m.0) + m.1]
  }

  function AddedPairs(acc: Counts, msgs: seq<PairMessage>): Counts {
    if msgs == [] then acc else AddedPair(AddedPairs(acc, msgs[..|msgs| - 1]), msgs[|msgs| - 1])
  }

  /** What a list of messages says about one pair. */
  function SumOn(msgs: seq<PairMessage>, k: Pair): nat {
    if msgs == [] then 0 else SumOn(msgs[..|msgs| - 1], k) + if msgs[|msgs| - 1].0 == k then msgs[|msgs| - 1].1 else 0
  }

  lemma SumOnSnoc(msgs: seq<PairMessage>, m: PairMessage, k: Pair)
    ensures SumOn(msgs + [m], k) == SumOn(msgs, k) + if m.0 == k then m.1 else 0
    ensures forall acc: Counts :: AddedPairs(acc, msgs + [m]) == AddedPair(AddedPairs(acc, msgs), m)
  {
    assert (msgs + [m])[..|msgs|] == msgs;
  }

  /** Accumulating adds up, pair by pair. */
  lemma {:induction false} AddedPairsSum(acc: Counts, msgs: seq<PairMessage>, k: Pair)
    ensures CountOf(AddedPairs(acc, msgs), k) == CountOf(acc, k) + SumOn(msgs, k)
  {
    if msgs != [] {
      AddedPairsSum(acc, msgs[..|msgs| - 1], k);
    }
  }

  lemma {:induction false} SumOnAppend(a: seq<PairMessage>, b: seq<PairMessage>, k: Pair)
    ensures SumOn(a + b, k) == SumOn(a, k) + SumOn(b, k)
    decreases |b|
  {
    if b == [] {
      assert a + b == a;
    } else {
      assert a + b == (a + b[..|b| - 1]) + [b[|b| - 1]] && b == b[..|b| - 1] + [b[|b| - 1]];
      SumOnSnoc(a + b[..|b| - 1], b[|b| - 1], k);
      SumOnSnoc(b[..|b| - 1], b[|b| - 1], k);
      SumOnAppend(a, b[..|b| - 1], k);
    }
  }

  /** Two partial counts may arrive in either order. */
  lemma PairsCommute(acc: Counts, a: PairMessage, b: PairMessage)
    ensures AddedPair(AddedPair(acc, a), b) == AddedPair(AddedPair(acc, b), a)
  {
    var l, r := AddedPair(AddedPair(acc, a), b), AddedPair(AddedPair(acc, b), a);
    assert l.Keys == r.Keys;
  }

  function Without(msgs: seq<PairMessage>, i: nat): seq<PairMessage>
    requires i < |msgs|
  {
    msgs[..i] + msgs[i + 1..]
  }

  lemma WithoutCounts(msgs: seq<PairMessage>, i: nat, k: Pair)
    requires i < |msgs|
    ensures multiset(msgs) == multiset(Without(msgs, i)) + multiset{msgs[i]}
    ensures SumOn(msgs, k) == SumOn(Without(msgs, i), k) + if msgs[i].0 == k then msgs[i].1 else 0
  {
    var m, before, after := msgs[i], msgs[..i], msgs[i + 1..];
    assert msgs == before + ([m] + after);
    SumOnAppend(before, [m] + after, k);
    SumOnAppend([m], after, k);
    SumOnAppend(before, after, k);
    SumOnSnoc([], m, k);
    assert [] + [m] == [m];
  }

  lemma ShorterWithout(msgs: seq<PairMessage>, i: nat)
    requires i < |msgs|
    ensures |Without(msgs, i)| == |msgs| - 1
  {
  }

  /** The order of arrival does not matter. */
  lemma {:induction false} SumOnPermuted(a: seq<PairMessage>, b: seq<PairMessage>, k: Pair)
    requires multiset(a) == multiset(b)
    ensures SumOn(a, k) == SumOn(b, k)
    decreases |a|
  {
    hide SumOn, Without;
    assert |a| == |multiset(a)| == |multiset(b)| == |b|;
    if a == [] {
      assert b == a;
    } else {
      var n := |a| - 1;
      assert a[n] in multiset(b);
      var i :| 0 <= i < |b| && b[i] == a[n];
      WithoutCounts(a, n, k);
      WithoutCounts(b, i, k);
      ShorterWithout(a, n);
      assert multiset(Without(a, n)) == multiset(a) - multiset{a[n]} == multiset(Without(b, i));
      SumOnPermuted(Without(a, n), Without(b, i), k);
    }
  }

  // ---------------------------------------------------------------- phase-three batches

  datatype Entry = Entry(count: nat, src: Account, dst: Account)

  type Batch = map<string, Entry>

  function EntryOf(k: Pair, count: nat): Entry {
    Entry(count, AccountFromId(k.src), AccountFromId(k.dst))
  }

  /** Full batches, and the one being filled. */
  datatype Emission = Emission(full: seq<Batch>, open: Batch)

  function Emit(e: Emission, k: Pair, count: nat): Emission {
    var open := e.open[k.Key() := EntryOf(k, count)];
    if |open| >= BATCH_SIZE then Emission(e.full + [open], map[]) else e.(open := open)
  }

  function EmitAll(keys: seq<Pair>, acc: Counts): Emission {
    if keys == [] then Emission([], map[])
    else
      var k := keys[|keys| - 1];
      Emit(EmitAll(keys[..|keys| - 1], acc), k, CountOf(acc, k))
  }

  function Batches(e: Emission): seq<Batch> {
    if e.open == map[] then e.full else e.full + [e.open]
  }

  ghost predicate Carries(batches: seq<Batch>, k: Pair, count: nat) {
    exists i :: 0 <= i < |batches| && k.Key() in batches[i] && batches[i][k.Key()] == EntryOf(k, count)
  }

  /** Each entry of each batch is some listed pair with its count. */
  ghost predicate FromKeys(b: Batch, keys: set<Pair>, acc: Counts) {
    forall s <- b :: exists k <- keys :: k.Key() == s && b[s] == EntryOf(k, CountOf(acc, k))
  }

  ghost predicate EmissionInvariant(e: Emission, keys: seq<Pair>, acc: Counts) {
    && |e.open| < BATCH_SIZE && (forall b <- e.full :: |b| == BATCH_SIZE)
    && (forall b <- Batches(e) :: FromKeys(b, Elements(keys), acc))
    && forall k <- keys :: Carries(Batches(e), k, CountOf(acc, k))
  }

  lemma KeysDiffer(keys: set<Pair>, k: Pair)
    requires k !in keys && Distinct(keys + {k}, (p: Pair) => p.Key())
    ensures forall x <- keys :: x.Key() != k.Key()
  {
    var key := (p: Pair) => p.Key();
    forall x <- keys ensures x.Key() != k.Key() {
      assert x in keys + {k} && k in keys + {k} && key(x) == x.Key() && key(k) == k.Key();
    }
  }

  lemma KeyIsNew(b: Batch, keys: set<Pair>, acc: Counts, k: Pair)
    requires FromKeys(b, keys, acc) && k !in keys && Distinct(keys + {k}, (p: Pair) => p.Key())
    ensures k.Key() !in b
  {
    KeysDiffer(keys, k);
  }

  lemma FromMoreKeys(b: Batch, keys: set<Pair>, more: set<Pair>, acc: Counts)
    requires FromKeys(b, keys, acc) && keys <= more
    ensures FromKeys(b, more, acc)
  {
  }

  lemma FromOneMore(b: Batch, keys: set<Pair>, acc: Counts, k: Pair)
    requires FromKeys(b, keys, acc)
    ensures FromKeys(b[k.Key() := EntryOf(k, CountOf(acc, k))], keys + {k}, acc)
  {
    var b' := b[k.Key() := EntryOf(k, CountOf(acc, k))];
    forall s <- b' ensures exists x <- keys + {k} :: x.Key() == s && b'[s] == EntryOf(x, CountOf(acc, x)) {
      if s == k.Key() {
        assert k in keys + {k};
      } else {
        var x :| x in keys && x.Key() == s && b[s] == EntryOf(x, CountOf(acc, x));
        assert x in keys + {k};
      }
    }
  }

  lemma EmitBatch(e: Emission, k: Pair, count: nat)
    requires |e.open| < BATCH_SIZE
    ensures var open := e.open[k.Key() := EntryOf(k, count)];
            && Batches(Emit(e, k, count)) == e.full + [open]
            && |open| <= BATCH_SIZE && |Emit(e, k, count).open| < BATCH_SIZE
            && forall b <- Emit(e, k, count).full :: b in e.full || (b == open && |open| == BATCH_SIZE)
  {
    hide EntryOf;
    var open := e.open[k.Key() := EntryOf(k, count)];
    assert open.Keys == e.open.Keys + {k.Key()};
    assert |open| == |open.Keys| && |e.open| == |e.open.Keys|;
  }

  lemma EmitFrom(e: Emission, keys: seq<Pair>, acc: Counts, k: Pair)
    requires EmissionInvariant(e, keys, acc)
    ensures var open := e.open[k.Key() := EntryOf(k, CountOf(acc, k))];
            forall b <- e.full + [open] :: FromKeys(b, Elements(keys) + {k}, acc)
  {
    hide EntryOf, FromKeys, Carries, Elements;
    OpenFromKeys(e, keys, acc);
    FromOneMore(e.open, Elements(keys), acc, k);
    forall b <- e.full ensures FromKeys(b, Elements(keys) + {k}, acc) {
      assert b in Batches(e);
      FromMoreKeys(b, Elements(keys), Elements(keys) + {k}, acc);
    }
  }

  lemma EmitCarries(e: Emission, keys: seq<Pair>, acc: Counts, k: Pair)
    requires EmissionInvariant(e, keys, acc) && k !in keys
    requires Distinct(Elements(keys) + {k}, (p: Pair) => p.Key())
    ensures var open := e.open[k.Key() := EntryOf(k, CountOf(acc, k))];
            forall x <- keys + [k] :: Carries(e.full + [open], x, CountOf(acc, x))
  {
    OpenFromKeys(e, keys, acc);
    assert k !in Elements(keys);
    KeyIsNew(e.open, Elements(keys), acc, k);
    hide EntryOf, FromKeys, Carries, Distinct, Elements, Batches;
    var open := e.open[k.Key() := EntryOf(k, CountOf(acc, k))];
    forall x <- keys ensures Carries(e.full + [open], x, CountOf(acc, x)) {
      CarriesOn(e, open, k, x, CountOf(acc, x));
    }
    CarriesNew(e.full, open, k, CountOf(acc, k));
  }

  lemma EmitKeeps(e: Emission, keys: seq<Pair>, acc: Counts, k: Pair)
    requires EmissionInvariant(e, keys, acc) && k !in keys
    requires Distinct(Elements(keys + [k]), (p: Pair) => p.Key())
    ensures EmissionInvariant(Emit(e, k, CountOf(acc, k)), keys + [k], acc)
  {
    assert Elements(keys + [k]) == Elements(keys) + {k};
    hide EntryOf, FromKeys, Carries, Distinct, Elements, Batches, Emit;
    EmitBatch(e, k, CountOf(acc, k));
    EmitFrom(e, keys, acc, k);
    EmitCarries(e, keys, acc, k);
  }

  lemma CarriesNew(full: seq<Batch>, open: Batch, k: Pair, count: nat)
    requires k.Key() in open && open[k.Key()] == EntryOf(k, count)
    ensures Carries(full + [open], k, count)
  {
    assert (full + [open])[|full|] == open;
  }

  lemma OpenFromKeys(e: Emission, keys: seq<Pair>, acc: Counts)
    requires EmissionInvariant(e, keys, acc)
    ensures FromKeys(e.open, Elements(keys), acc)
  {
    if e.open != map[] {
      assert e.open in Batches(e);
    }
  }

  /** A new key in the open batch hides nothing that was there. */
  lemma CarriesOn(e: Emission, open: Batch, k: Pair, x: Pair, count: nat)
    requires Carries(Batches(e), x, count) && k.Key() !in e.open
    requires k.Key() in open && open == e.open[k.Key() := open[k.Key()]]
    ensures Carries(e.full + [open], x, count)
  {
    hide EntryOf;
    var i :| 0 <= i < |Batches(e)| && x.Key() in Batches(e)[i] && Batches(e)[i][x.Key()] == EntryOf(x, count);
    assert i < |e.full| ==> (e.full + [open])[i] == Batches(e)[i];
    assert i == |e.full| ==> Batches(e)[i] == e.open && (e.full + [open])[i] == open;
  }

  /** If keys tell the pairs apart, no batch loses an entry: the batches carry exactly the accumulator. */
  lemma {:induction false} EmitAllCarries(keys: seq<Pair>, acc: Counts)
    requires Distinct(Elements(keys), (p: Pair) => p.Key()) && |keys| == |Elements(keys)|
    ensures EmissionInvariant(EmitAll(keys, acc), keys, acc)
  {
    if keys != [] {
      var init, k := keys[..|keys| - 1], keys[|keys| - 1];
      assert keys == init + [k];
      NoRepeats(init, k);
      EmitAllCarries(init, acc);
      EmitKeeps(EmitAll(init, acc), init, acc, k);
    }
  }

  /** The entry the pair gets: under its key, its count and both of its accounts. */
  ghost predicate EntryFor(batches: seq<Batch>, i: nat, k: Pair, count: nat) {
    && i < |batches| && k.Key() in batches[i] && batches[i][k.Key()].count == count
    && batches[i][k.Key()].src == AccountFromId(k.src) && batches[i][k.Key()].dst == AccountFromId(k.dst)
  }

  /** The pairs leave in order, a thousand to a batch. */
  ghost predicate InBatches(keys: seq<Pair>, acc: Counts, batches: seq<Batch>) {
    && (forall j :: 0 <= j < |keys| ==> EntryFor(batches, j / 1000, keys[j], CountOf(acc, keys[j])))
    && (forall i :: 0 <= i < |batches| ==>
          |batches[i]| == if i < |batches| - 1 || |keys| % 1000 == 0 then 1000 else |keys| % 1000)
    && |batches| == (|keys| + 999) / 1000
  }

  lemma EmitSizes(e: Emission, k: Pair, count: nat)
    requires k.Key() !in e.open && |e.open| < 1000
    ensures var e' := Emit(e, k, count);
            if |e.open| == 999 then |e'.full| == |e.full| + 1 && |e'.open| == 0 && |e'.full[|e.full|]| == 1000
                                    && e'.full[..|e.full|] == e.full
            else e'.full == e.full && |e'.open| == |e.open| + 1
  {
    hide EntryOf;
    var open := e.open[k.Key() := EntryOf(k, count)];
    assert open.Keys == e.open.Keys + {k.Key()};
    assert |open| == |open.Keys| && |e.open| == |e.open.Keys|;
  }

  lemma OpenLacks(init: seq<Pair>, acc: Counts, k: Pair)
    requires Distinct(Elements(init + [k]), (p: Pair) => p.Key()) && |init + [k]| == |Elements(init + [k])|
    ensures Distinct(Elements(init), (p: Pair) => p.Key()) && |init| == |Elements(init)|
    ensures k.Key() !in EmitAll(init, acc).open && forall x <- init :: x.Key() != k.Key()
  {
    assert Elements(init + [k]) == Elements(init) + {k};
    NoRepeats(init, k);
    assert k !in Elements(init);
    EmitAllCarries(init, acc);
    OpenFromKeys(EmitAll(init, acc), init, acc);
    KeyIsNew(EmitAll(init, acc).open, Elements(init), acc, k);
    KeysDiffer(Elements(init), k);
    assert forall x <- init :: x in Elements(init);
  }

  lemma Thousands(n: nat)
    ensures (n + 1) / 1000 == n / 1000 + (if n % 1000 == 999 then 1 else 0)
    ensures (n + 1) % 1000 == if n % 1000 == 999 then 0 else n % 1000 + 1
  {
  }

  lemma FullOnes(e: Emission, e': Emission)
    requires forall b <- e.full :: |b| == 1000
    requires e'.full == e.full || (|e'.full| == |e.full| + 1 && e'.full[..|e.full|] == e.full
                                   && |e'.full[|e.full|]| == 1000)
    ensures forall b <- e'.full :: |b| == 1000
  {
    forall b <- e'.full ensures |b| == 1000 {
      var i :| 0 <= i < |e'.full| && e'.full[i] == b;
      if i < |e.full| {
        assert e'.full[..|e.full|][i] == e.full[i];
      }
    }
  }

  lemma {:induction false} EmitAllSizes(keys: seq<Pair>, acc: Counts)
    requires Distinct(Elements(keys), (p: Pair) => p.Key()) && |keys| == |Elements(keys)|
    ensures var e := EmitAll(keys, acc);
            |e.full| == |keys| / 1000 && |e.open| == |keys| % 1000 && forall b <- e.full :: |b| == 1000
  {
    if keys != [] {
      var init, k := keys[..|keys| - 1], keys[|keys| - 1];
      assert keys == init + [k];
      OpenLacks(init, acc, k);
      hide Distinct, Elements, Emit;
      EmitAllSizes(init, acc);
      Thousands(|init|);
      var e, e' := EmitAll(init, acc), EmitAll(keys, acc);
      EmitSizes(e, k, CountOf(acc, k));
      assert e' == Emit(e, k, CountOf(acc, k));
      hide *;
      FullOnes(e, e');
    }
  }

  lemma EmitKeepsEntry(e: Emission, k: Pair, count: nat, i: nat, x: Pair, c: nat)
    requires EntryFor(e.full + [e.open], i, x, c) && x.Key() != k.Key()
    ensures var e' := Emit(e, k, count); EntryFor(e'.full + [e'.open], i, x, c)
  {
    hide EntryOf;
    var e' := Emit(e, k, count);
    if i < |e.full| {
      assert (e.full + [e.open])[i] == e.full[i] == (e'.full + [e'.open])[i];
    } else {
      assert (e.full + [e.open])[i] == e.open;
    }
  }

  lemma EmitMakesEntry(e: Emission, k: Pair, count: nat)
    ensures var e' := Emit(e, k, count); EntryFor(e'.full + [e'.open], |e.full|, k, count)
  {
  }

  lemma {:induction false} EmitAllAt(keys: seq<Pair>, acc: Counts, j: nat)
    requires Distinct(Elements(keys), (p: Pair) => p.Key()) && |keys| == |Elements(keys)| && j < |keys|
    ensures var e := EmitAll(keys, acc); EntryFor(e.full + [e.open], j / 1000, keys[j], CountOf(acc, keys[j]))
  {
    var init, k := keys[..|keys| - 1], keys[|keys| - 1];
    assert keys == init + [k];
    OpenLacks(init, acc, k);
    hide Distinct, Elements, Emit, EntryFor;
    if j < |init| {
      EmitAllAt(init, acc, j);
      EmitKeepsEntry(EmitAll(init, acc), k, CountOf(acc, k), j / 1000, keys[j], CountOf(acc, keys[j]));
    } else {
      EmitAllSizes(init, acc);
      EmitMakesEntry(EmitAll(init, acc), k, CountOf(acc, k));
    }
  }

  lemma AllInBatches(keys: seq<Pair>, acc: Counts)
    requires Distinct(Elements(keys), (p: Pair) => p.Key()) && |keys| == |Elements(keys)|
    ensures InBatches(keys, acc, Batches(EmitAll(keys, acc)))
  {
    hide EntryFor;
    EmitAllSizes(keys, acc);
    hide EmitAll, Distinct;
    var e := EmitAll(keys, acc);
    forall j: nat | j < |keys| ensures EntryFor(Batches(e), j / 1000, keys[j], CountOf(acc, keys[j])) {
      EmitAllAt(keys, acc, j);
      SameEntry(e, j / 1000, keys[j], CountOf(acc, keys[j]));
    }
  }

  lemma SameEntry(e: Emission, i: nat, k: Pair, count: nat)
    requires EntryFor(e.full + [e.open], i, k, count)
    ensures EntryFor(Batches(e), i, k, count)
  {
  }

  lemma AllCarried(keys: seq<Pair>, acc: Counts)
    requires Elements(keys) == acc.Keys && |keys| == |acc| && Distinct(acc.Keys, (p: Pair) => p.Key())
    ensures forall k <- acc :: Carries(Batches(EmitAll(keys, acc)), k, acc[k])
  {
    EmitAllCarries(keys, acc);
    hide EmitAll, Distinct, Carries, FromKeys;
    forall k <- acc ensures Carries(Batches(EmitAll(keys, acc)), k, acc[k]) {
      assert k in Elements(keys);
    }
  }

  lemma NoRepeats<T>(init: seq<T>, x: T)
    requires |init + [x]| == |Elements(init + [x])|
    ensures x !in init && |init| == |Elements(init)|
  {
    ElementsCard(init);
    assert Elements(init + [x]) == Elements(init) + {x};
    assert x in Elements(init) ==> Elements(init) + {x} == Elements(init);
  }

  /** What an upstream EOF leads to; `eof` is the count the next stage's EOF carries. */
  datatype EofResult = Waiting | FlushForwarded(eof: int) | Sent(batches: seq<Batch>, eof: int)

  /** The accumulator worker, for one client; `counting` is absent until the first EOF. */
  class ScatterGather {
    const prevWorkers: int
    var accumulator: Counts
    var counting: Option<nat>

    constructor (prevWorkers: int)
      ensures this.prevWorkers == prevWorkers && accumulator == map[] && counting == None
    {
      this.prevWorkers := prevWorkers;
      accumulator, counting := map[], None;
    }

    method HandlePairs(pairs: seq<PairMessage>)
      modifies this`accumulator
      ensures accumulator == AddedPairs(old(accumulator), pairs)
    {
      for i := 0 to |pairs|
        invariant accumulator == AddedPairs(old(accumulator), pairs[..i])
      {
        var (k, n) := pairs[i];
        accumulator := accumulator[k := CountOf(accumulator, k) + n];
        SumOnSnoc(pairs[..i], pairs[i], k);
        assert pairs[..i + 1] == pairs[..i] + [pairs[i]];
      }
      assert pairs[..|pairs|] == pairs;
    }

    /** The results of the accumulator, in ascending order of their keys. */
    method EmitBatches() returns (batches: seq<Batch>, msgSent: nat, ghost keys: seq<Pair>)
      ensures Elements(keys) == accumulator.Keys && |keys| == |accumulator|
      ensures Distinct(accumulator.Keys, (p: Pair) => p.Key()) ==> Ascending(keys, (p: Pair) => p.Key())
      ensures batches == Batches(EmitAll(keys, accumulator)) && msgSent == |batches|
      ensures Distinct(accumulator.Keys, (p: Pair) => p.Key()) ==>
                (forall k <- accumulator :: Carries(batches, k, accumulator[k]))
                && InBatches(keys, accumulator, batches)
    {
      var key := (p: Pair) => p.Key();
      var sorted := Sorted(accumulator.Keys, key);
      keys := sorted;
      var full: seq<Batch>, open: Batch := [], map[];
      msgSent := 0;
      for i := 0 to |sorted|
        invariant Emission(full, open) == EmitAll(sorted[..i], accumulator) && msgSent == |full|
      {
        var k := sorted[i];
        assert sorted[..i + 1][..i] == sorted[..i];
        assert k in Elements(sorted);
        open := open[k.Key() := Entry(accumulator[k], AccountFromId(k.src), AccountFromId(k.dst))];
        if |open| >= BATCH_SIZE {
          full, open, msgSent := full + [open], map[], msgSent + 1;
        }
      }
      assert sorted[..|sorted|] == sorted;
      batches := full;
      if |open| > 0 {
        batches, msgSent := batches + [open], msgSent + 1;
      }
      if Distinct(accumulator.Keys, key) {
        AllCarried(keys, accumulator);
        AllInBatches(keys, accumulator);
      }
    }

    /** handleEOFMessage: with the last upstream EOF the results go out, then an EOF that counts them, and the
        client is forgotten. */
    method HandleEof(flush: bool) returns (r: EofResult, ghost keys: seq<Pair>)
      modifies this`accumulator, this`counting
      ensures var seen := old(counting).GetOr(0) + 1;
              if flush then r == FlushForwarded(-1) && accumulator == map[] && counting == None
              else if seen < prevWorkers then r == Waiting && accumulator == old(accumulator) && counting == Some(seen)
              else
                && r.Sent? && r.batches == Batches(EmitAll(keys, old(accumulator))) && r.eof == |r.batches|
                && accumulator == map[] && counting == None
                && Elements(keys) == old(accumulator).Keys && |keys| == |old(accumulator)|
                && (Distinct(old(accumulator).Keys, (p: Pair) => p.Key()) ==>
                      Ascending(keys, (p: Pair) => p.Key()) && InBatches(keys, old(accumulator), r.batches))
    {
      keys := [];
      if flush {
        accumulator, counting := map[], None;
        return FlushForwarded(-1), keys;
      }
      counting := Some(counting.GetOr(0) + 1);
      if counting.value < prevWorkers {
        return Waiting, keys;
      }
      var batches, msgSent;
      batches, msgSent, keys := EmitBatches();
      accumulator, counting := map[], None;
      r := Sent(batches, msgSent);
    }
  }

  /** Two accumulators with the same content, filled in whatever order, emit the same batches, so that a
      restarted one repeats the ids of the batches it had already sent. */
  lemma BatchesReproducible(acc: Counts, keys: seq<Pair>, keys': seq<Pair>)
    requires Elements(keys) == Elements(keys') == acc.Keys
    requires Ascending(keys, (p: Pair) => p.Key()) && Ascending(keys', (p: Pair) => p.Key())
    ensures EmitAll(keys, acc) == EmitAll(keys', acc)
  {
    AscendingUnique(keys, keys', (p: Pair) => p.Key());
  }

  // ---------------------------------------------------------------- threshold and result

  /** ScatterGatherThreshold: both accounts of every pair with enough bridges, one message per pair. */
  method Threshold(batch: Batch, threshold: nat) returns (out: map<string, seq<Account>>)
    ensures out == map s | s in batch && batch[s].count >= threshold :: [batch[s].src, batch[s].dst]
  {
    out := map[];
    var todo := batch.Keys;
    while todo != {}
      invariant todo <= batch.Keys
      invariant out == map s | s in batch && s !in todo && batch[s].count >= threshold :: [batch[s].src, batch[s].dst]
      decreases todo
    {
      var s :| s in todo;
      if batch[s].count >= threshold {
        out := out[s := [batch[s].src, batch[s].dst]];
      }
      todo := todo - {s};
    }
  }

  /** The accounts an accumulator selects. */
  function Selected(acc: Counts, threshold: nat): set<Account> {
    (set k <- acc | acc[k] >= threshold :: AccountFromId(k.src))
        + (set k <- acc | acc[k] >= threshold :: AccountFromId(k.dst))
  }

  datatype Query4Eof = NotYet | EofOnly | Results(batches: seq<set<Account>>)

  /** Cuts a list into chunks of BATCH_SIZE. */
  function Chunks(l: seq<Account>): (chunks: seq<set<Account>>)
    ensures forall c <- chunks :: c != {} && |c| <= BATCH_SIZE
    ensures (set c <- chunks, a <- c :: a) == Elements(l)
  {
    if l == [] then []
    else if |l| <= BATCH_SIZE then
      ChunkCard(l);
      [Elements(l)]
    else
      ChunkCard(l[..BATCH_SIZE]);
      var rest := Chunks(l[BATCH_SIZE..]);
      var chunks := [Elements(l[..BATCH_SIZE])] + rest;
      ChunksUnion(l, chunks, rest);
      chunks
  }

  lemma DropSlice<T>(l: seq<T>, n: nat, a: nat, b: nat)
    requires n <= |l| && a <= b <= |l| - n
    ensures l[n..][a..b] == l[n + a..n + b]
  {
  }

  /** The i-th chunk is the i-th thousand of the list. */
  lemma {:induction false} ChunkAt(l: seq<Account>, i: nat)
    ensures |Chunks(l)| == (|l| + 999) / 1000
    ensures i < |Chunks(l)| ==>
              Chunks(l)[i] == Elements(l[1000 * i..if 1000 * (i + 1) < |l| then 1000 * (i + 1) else |l|])
    decreases |l|
  {
    if |l| > BATCH_SIZE {
      var rest := l[BATCH_SIZE..];
      ChunkAt(rest, if i == 0 then 0 else i - 1);
      if 0 < i < |Chunks(l)| {
        DropSlice(l, BATCH_SIZE, 1000 * (i - 1), if 1000 * i < |rest| then 1000 * i else |rest|);
      }
    } else if l != [] {
      assert l[0..|l|] == l;
    }
  }

  /** The accounts leave in order, a thousand to a chunk. */
  ghost predicate InChunks(l: seq<Account>, chunks: seq<set<Account>>) {
    && |chunks| == (|l| + 999) / 1000
    && forall i :: 0 <= i < |chunks| ==>
         chunks[i] == Elements(l[1000 * i..if 1000 * (i + 1) < |l| then 1000 * (i + 1) else |l|])
  }

  lemma AllInChunks(l: seq<Account>)
    ensures InChunks(l, Chunks(l))
  {
    hide Chunks;
    ChunkAt(l, 0);
    forall i: nat | i < |Chunks(l)|
      ensures Chunks(l)[i] == Elements(l[1000 * i..if 1000 * (i + 1) < |l| then 1000 * (i + 1) else |l|])
    {
      ChunkAt(l, i);
    }
  }

  lemma ChunkCard(l: seq<Account>)
    requires l != []
    ensures Elements(l) != {} && |Elements(l)| <= |l|
  {
    ElementsCard(l);
    EmptyElements(l);
  }

  lemma ChunksUnion(l: seq<Account>, chunks: seq<set<Account>>, rest: seq<set<Account>>)
    requires |l| > BATCH_SIZE && chunks == [Elements(l[..BATCH_SIZE])] + rest
    requires (set c <- rest, a <- c :: a) == Elements(l[BATCH_SIZE..])
    ensures (set c <- chunks, a <- c :: a) == Elements(l)
  {
    assert l == l[..BATCH_SIZE] + l[BATCH_SIZE..];
    forall a ensures a in Elements(l) <==> a in Elements(l[..BATCH_SIZE]) || a in Elements(l[BATCH_SIZE..]) {
    }
    forall a <- Elements(l) ensures exists c <- chunks :: a in c {
      if a in Elements(l[..BATCH_SIZE]) {
        assert chunks[0] == Elements(l[..BATCH_SIZE]);
      } else {
        var c :| c in rest && a in c;
        assert c in chunks;
      }
    }
  }

  /** The chunks of one set of accounts are the same in every run, so that a restarted join repeats their ids. */
  lemma ChunksReproducible(order: seq<Account>, order': seq<Account>)
    requires Elements(order) == Elements(order')
    requires Ascending(order, (a: Account) => a.GetId()) && Ascending(order', (a: Account) => a.GetId())
    ensures Chunks(order) == Chunks(order')
  {
    AscendingUnique(order, order', (a: Account) => a.GetId());
  }

  /** join.Query4, for one client; `accounts` is absent until the first account message. */
  class Query4Join {
    const prevWorkers: nat
    var accounts: Option<set<Account>>
    var counting: Option<nat>

    constructor (prevWorkers: nat)
      ensures this.prevWorkers == prevWorkers && accounts == None && counting == None
    {
      this.prevWorkers := prevWorkers;
      accounts, counting := None, None;
    }

    method HandleAccounts(list: seq<Account>)
      modifies this`accounts
      ensures accounts == Some(old(accounts).GetOr({}) + Elements(list))
    {
      var all := accounts.GetOr({});
      ghost var before := all;
      for i := 0 to |list|
        invariant all == before + Elements(list[..i])
      {
        assert list[..i + 1] == list[..i] + [list[i]];
        assert Elements(list[..i + 1]) == Elements(list[..i]) + {list[i]};
        all := all + {list[i]};
      }
      assert list[..|list|] == list;
      accounts := Some(all);
    }

    /** handleEOFMessage: a flush counts as all upstream EOFs at once. */
    method HandleEof(flush: bool) returns (r: Query4Eof, ghost order: seq<Account>)
      modifies this
      ensures var seen := (if flush then prevWorkers else old(counting).GetOr(0)) + 1;
              if seen < prevWorkers then r == NotYet && accounts == old(accounts) && counting == Some(seen)
              else
                && counting == None && accounts == None
                && if old(accounts).None? then r == EofOnly
                   else && r.Results? && r.batches == Chunks(order) && InChunks(order, r.batches)
                        && Elements(order) == old(accounts).value && |order| == |old(accounts).value|
                        && (Distinct(old(accounts).value, (a: Account) => a.GetId()) ==>
                              Ascending(order, (a: Account) => a.GetId()))
    {
      order := [];
      var seen := counting.GetOr(0);
      if flush {
        seen := prevWorkers;
      }
      seen := seen + 1;
      counting := Some(seen);
      if seen < prevWorkers {
        return NotYet, order;
      }
      counting := None;
      if accounts.None? {
        return EofOnly, order;
      }
      var sorted := Sorted(accounts.value, (a: Account) => a.GetId());
      order := sorted;
      accounts := None;
      var batches := SendChunks(sorted);
      AllInChunks(sorted);
      return Results(batches), order;
    }
  }

  method SendChunks(sorted: seq<Account>) returns (batches: seq<set<Account>>)
    ensures batches == Chunks(sorted)
  {
    batches := [];
    var start := 0;
    while start < |sorted|
      invariant start <= |sorted| && batches + Chunks(sorted[start..]) == Chunks(sorted)
    {
      var end := if start + BATCH_SIZE < |sorted| then start + BATCH_SIZE else |sorted|;
      NextChunk(sorted[start..], end - start);
      assert sorted[start..][..end - start] == sorted[start..end];
      assert sorted[start..][end - start..] == sorted[end..];
      batches := batches + [Elements(sorted[start..end])];
      start := end;
    }
  }

  lemma NextChunk(l: seq<Account>, n: nat)
    requires l != [] && n == if BATCH_SIZE < |l| then BATCH_SIZE else |l|
    ensures Chunks(l) == [Elements(l[..n])] + Chunks(l[n..])
  {
    if |l| <= BATCH_SIZE {
      assert l[..n] == l && l[n..] == [];
    }
  }
}
