// Messages of one pair carry one id, so downstream keeps only the first of them. What that
// loses of a replica's flushes, and exactly when it loses nothing.
module PairSplits {
  import opened Accounts
  import opened Query4
  import opened ScatterAndGather
  import opened StringOrder

  /** What downstream keeps of one replica's flushes: messages of one pair share an id, so only the first counts. */
  function FirstCount(flushes: seq<Counts>, k: Pair): nat {
    if flushes == [] then 0
    else if k in flushes[0] then flushes[0][k]
    else FirstCount(flushes[1..], k)
  }

  ghost predicate OneFlushAtMost(flushes: seq<Counts>, k: Pair) {
    forall i, j :: 0 <= i < j < |flushes| && k in flushes[i] ==> k !in flushes[j]
  }

  ghost predicate NoPairTwice(flushes: seq<Counts>) {
    forall k :: OneFlushAtMost(flushes, k)
  }

  ghost predicate NothingLost(flushes: seq<Counts>) {
    forall k :: FirstCount(flushes, k) == TotalOf(flushes, k)
  }

  ghost predicate AllPositive(flushes: seq<Counts>) {
    forall f <- flushes :: Positive(f)
  }

  lemma {:induction false} TotalFront(flushes: seq<Counts>, k: Pair)
    requires flushes != []
    ensures TotalOf(flushes, k) == CountOf(flushes[0], k) + TotalOf(flushes[1..], k)
    decreases |flushes|
  {
    if |flushes| == 1 {
      assert flushes[..0] == [] == flushes[1..];
    } else {
      var n := |flushes| - 1;
      TotalFront(flushes[..n], k);
      assert flushes[..n][0] == flushes[0] && flushes[..n][1..] == flushes[1..][..n - 1];
      assert flushes[1..][n - 1] == flushes[n];
    }
  }

  lemma {:induction false} NoneLeft(flushes: seq<Counts>, k: Pair)
    ensures (forall f <- flushes :: k !in f) ==> TotalOf(flushes, k) == 0 && FirstCount(flushes, k) == 0
    ensures AllPositive(flushes) && TotalOf(flushes, k) == 0 ==> forall f <- flushes :: k !in f
  {
    if flushes != [] {
      TotalFront(flushes, k);
      NoneLeft(flushes[1..], k);
      assert flushes == [flushes[0]] + flushes[1..];
    }
  }

  /** One pair survives deduplication whole exactly if it is in one flush at most. */
  lemma {:induction false} FirstIsTotalIff(flushes: seq<Counts>, k: Pair)
    requires AllPositive(flushes)
    ensures FirstCount(flushes, k) == TotalOf(flushes, k) <==> OneFlushAtMost(flushes, k)
  {
    if flushes != [] {
      var rest := flushes[1..];
      TotalFront(flushes, k);
      FirstIsTotalIff(rest, k);
      NoneLeft(rest, k);
      assert forall i :: 0 <= i < |rest| ==> rest[i] == flushes[i + 1];
      if k in flushes[0] {
        assert (forall f <- rest :: k !in f) <==> forall j :: 0 < j < |flushes| ==> k !in flushes[j] by {
          assert forall j :: 0 < j < |flushes| ==> flushes[j] == rest[j - 1];
        }
      } else {
        forall i, j | 0 <= i < j < |flushes| && k in flushes[i]
          ensures i > 0 && rest[i - 1] == flushes[i] && rest[j - 1] == flushes[j]
        {
        }
      }
    }
  }

  /** Deduplication by pair id loses nothing exactly when no pair is split over two flushes. */
  lemma DedupLosesNothingIff(flushes: seq<Counts>)
    requires AllPositive(flushes)
    ensures NothingLost(flushes) <==> NoPairTwice(flushes)
  {
    hide FirstCount, TotalOf, OneFlushAtMost;
    forall k: Pair ensures FirstCount(flushes, k) == TotalOf(flushes, k) <==> OneFlushAtMost(flushes, k) {
      FirstIsTotalIff(flushes, k);
    }
    if NoPairTwice(flushes) {
      forall k: Pair ensures FirstCount(flushes, k) == TotalOf(flushes, k) {
        assert OneFlushAtMost(flushes, k);
      }
    } else {
      var k: Pair :| !OneFlushAtMost(flushes, k);
      assert FirstCount(flushes, k) != TotalOf(flushes, k);
    }
  }

  function PairsOf(paths: set<Path>): set<Pair> {
    set p <- paths :: PairOf(p.src, p.dst)
  }

  /** Fewer distinct pairs than the buffer holds: there is one flush at most. */
  lemma FewPairsOneFlush(flushes: seq<Counts>, max: nat, paths: set<Path>)
    requires Streamed(flushes, max, paths) && |PairsOf(paths)| < max
    ensures |flushes| <= 1 && NoPairTwice(flushes) && AllPositive(flushes)
  {
    if |flushes| > 1 {
      var f := flushes[0];
      forall k <- f ensures k in PairsOf(paths) {
        TotalFront(flushes, k);
        assert |On(paths, k)| > 0;
        var p :| p in On(paths, k);
      }
      SubsetCard(f.Keys, PairsOf(paths));
    }
  }

  // ---------------------------------------------------------------- exactly when deduplication loses nothing

  /** Pairs of accounts are told apart by their ids. */
  ghost predicate OneNameEach(paths: set<Path>) {
    forall p <- paths, q <- paths :: PairOf(p.src, p.dst) == PairOf(q.src, q.dst) ==> p.src == q.src && p.dst == q.dst
  }

  function NameOf(p: Path): Pair {
    PairOf(p.src, p.dst)
  }

  /** While there is no flush, the batch holds all pairs visited, and is not full. */
  lemma {:induction false} OpenBatch(walk: seq<Path>, max: nat)
    requires max > 0 && VisitAll(walk, max).flushes == []
    ensures VisitAll(walk, max).batch.Keys == PairsOf(Elements(walk)) && |VisitAll(walk, max).batch| < max
  {
    hide PairsOf, Elements, Bumped, NameOf;
    if walk == [] {
      NoPairs();
    } else {
      var init, p := walk[..|walk| - 1], walk[|walk| - 1];
      OpenBatch(init, max);
      ElementsSnoc(walk);
      PairsAdd(Elements(init), p);
      BumpedKeys(VisitAll(init, max).batch, p);
    }
  }

  lemma NoPairs()
    ensures PairsOf(Elements([])) == {}
  {
  }

  lemma ElementsSnoc(walk: seq<Path>)
    requires walk != []
    ensures Elements(walk) == Elements(walk[..|walk| - 1]) + {walk[|walk| - 1]}
  {
    assert walk == walk[..|walk| - 1] + [walk[|walk| - 1]];
  }

  lemma BumpedKeys(batch: Counts, p: Path)
    ensures Bumped(batch, PairOf(p.src, p.dst)).Keys == batch.Keys + {NameOf(p)}
  {
  }

  lemma FirstIsListed(walk: seq<Path>)
    requires walk != []
    ensures NameOf(walk[0]) in PairsOf(Elements(walk))
  {
    assert walk[0] in Elements(walk);
  }

  /** The first path's pair is in the first flush. */
  lemma {:induction false} FirstFlushed(walk: seq<Path>, max: nat)
    requires max > 0 && VisitAll(walk, max).flushes != []
    ensures walk != [] && NameOf(walk[0]) in VisitAll(walk, max).flushes[0]
  {
    hide PairsOf;
    var init, p := walk[..|walk| - 1], walk[|walk| - 1];
    var b := VisitAll(init, max);
    if b.flushes != [] {
      FirstFlushed(init, max);
    } else {
      var more := Bumped(b.batch, NameOf(p));
      assert VisitAll(walk, max).flushes[0] == more;
      OpenBatch(init, max);
      if init != [] {
        FirstIsListed(init);
      }
    }
  }

  lemma PairsAdd(paths: set<Path>, p: Path)
    ensures PairsOf(paths + {p}) == PairsOf(paths) + {NameOf(p)}
  {
  }

  /** The last path's pair is in a flush behind those before it. */
  lemma LastFlushed(init: seq<Path>, p: Path, max: nat)
    ensures var (before, after) := (VisitAll(init, max).flushes, FlushesOf(init + [p], max));
            |before| < |after| && NameOf(p) in after[|before|] && after[..|before|] == before
  {
    VisitSnoc(init, p, max);
    var b := VisitAll(init, max);
    var more := Bumped(b.batch, NameOf(p));
    assert NameOf(p) in more;
  }

  /** A walk that starts and ends with one pair, and sees enough pairs in between, splits it over two flushes. */
  lemma SplitWalk(init: seq<Path>, p: Path, max: nat)
    requires max > 0 && init != [] && NameOf(init[0]) == NameOf(p) && |PairsOf(Elements(init))| >= max
    ensures !OneFlushAtMost(FlushesOf(init + [p], max), NameOf(p))
  {
    hide FlushesOf, PairsOf;
    var (before, after) := (VisitAll(init, max).flushes, FlushesOf(init + [p], max));
    if before == [] {
      OpenBatch(init, max);
    }
    FirstFlushed(init, max);
    LastFlushed(init, p, max);
    assert after[0] == before[0];
  }

  // Walks put together.

  lemma NestedInit(init: seq<Path>, p: Path)
    requires Nested(init + [p])
    ensures Nested(init) && AtBridge(init, p.bridge) && AtSource(init, p.bridge, p.src)
  {
    hide AtBridge, AtSource;
    var b := init + [p];
    forall i | 0 <= i < |init| ensures init[..i] == b[..i] && init[i] == b[i] {
    }
    assert b[..|init|] == init && b[|init|] == p;
  }

  lemma {:induction false} NestedConcat(a: seq<Path>, b: seq<Path>)
    requires Nested(a) && Nested(b)
    requires (forall x <- a, y <- b :: x.bridge != y.bridge)
             || ((forall x <- a, y <- b :: x.bridge == y.bridge && x.src != y.src)
                 && forall x <- b, y <- b :: x.bridge == y.bridge)
    ensures Nested(a + b)
    decreases |b|
  {
    hide Nested, AtBridge, AtSource;
    if b == [] {
      assert a + b == a;
    } else {
      var init, p := b[..|b| - 1], b[|b| - 1];
      assert b == init + [p] && a + b == (a + init) + [p];
      NestedInit(init, p);
      assert forall x <- init :: x in b;
      assert p in b;
      NestedConcat(a, init);
      AtConcat(a, init, p);
      NestedSnoc(a + init, p);
    }
  }

  lemma AtConcat(a: seq<Path>, init: seq<Path>, p: Path)
    requires AtBridge(init, p.bridge) && AtSource(init, p.bridge, p.src)
    requires (forall x <- a :: x.bridge != p.bridge)
             || ((forall x <- a :: x.bridge == p.bridge && x.src != p.src) && forall x <- init :: x.bridge == p.bridge)
    ensures AtBridge(a + init, p.bridge) && AtSource(a + init, p.bridge, p.src)
  {
    assert init != [] ==> (a + init)[|a + init| - 1] == init[|init| - 1];
    assert init == [] ==> a + init == a;
    assert a != [] ==> a[|a| - 1] in a;
    assert init != [] ==> init[|init| - 1] in init;
  }

  lemma WalkConcat(a: seq<Path>, s: set<Path>, b: seq<Path>, t: set<Path>)
    requires IsWalk(a, s) && IsWalk(b, t)
    requires (forall x <- s, y <- t :: x.bridge != y.bridge)
             || ((forall x <- s, y <- t :: x.bridge == y.bridge && x.src != y.src)
                && forall x <- t, y <- t :: x.bridge == y.bridge)
    ensures IsWalk(a + b, s + t)
  {
    assert forall x <- a :: x in s;
    assert forall x <- b :: x in t;
    NestedConcat(a, b);
    hide Nested;
    assert Elements(a + b) == Elements(a) + Elements(b);
  }

  function OfBridge(paths: set<Path>, b: Account): set<Path> {
    set p <- paths | p.bridge == b
  }

  function OfSource(paths: set<Path>, b: Account, u: Account): set<Path> {
    set p <- paths | p.bridge == b && p.src == u
  }

  /** Paths of one bridge and source may be visited in any order. */
  lemma OneSourceWalk(paths: set<Path>, walk: seq<Path>, b: Account, u: Account)
    requires Elements(walk) == paths && Unique(walk) && forall p <- paths :: p.bridge == b && p.src == u
    ensures IsWalk(walk, paths)
  {
    forall i | 0 <= i < |walk|
      ensures AtBridge(walk[..i], walk[i].bridge) && AtSource(walk[..i], walk[i].bridge, walk[i].src)
    {
      assert forall j :: 0 <= j <= i ==> walk[j] in Elements(walk);
    }
  }

  lemma AnyWalk(paths: set<Path>) returns (walk: seq<Path>)
    ensures IsWalk(walk, paths)
    decreases |paths|, 1
  {
    if paths == {} {
      walk := [];
    } else {
      var p :| p in paths;
      walk := WalkFrom(paths, p);
    }
  }

  lemma Parts(paths: set<Path>, p: Path)
    requires p in paths
    ensures var (s, b) := (OfSource(paths, p.bridge, p.src), OfBridge(paths, p.bridge));
            p in s && s <= b <= paths && s + (b - s) == b && b + (paths - b) == paths && |b - s| < |paths|
                && |paths - b| < |paths|
  {
    var (s, b) := (OfSource(paths, p.bridge, p.src), OfBridge(paths, p.bridge));
    SubsetCard(b - s, paths - {p});
    SubsetCard(paths - b, paths - {p});
  }

  lemma PartsApart(paths: set<Path>, p: Path)
    ensures var (s, b) := (OfSource(paths, p.bridge, p.src), OfBridge(paths, p.bridge));
            && (forall x <- s, y <- b - s :: x.bridge == y.bridge && x.src != y.src)
            && (forall x <- b - s, y <- b - s :: x.bridge == y.bridge)
            && (forall x <- s, y <- s :: x.bridge == y.bridge)
            && forall x <- b, y <- paths - b :: x.bridge != y.bridge
  {
  }

  /** The paths of one source, of the rest of its bridge, and of the other bridges: in this order, or backwards. */
  lemma Assembled(paths: set<Path>, p: Path, first: seq<Path>, second: seq<Path>, third: seq<Path>)
    requires p in paths
    requires var (s, b) := (OfSource(paths, p.bridge, p.src), OfBridge(paths, p.bridge));
             IsWalk(first, s) && IsWalk(second, b - s) && IsWalk(third, paths - b)
    ensures IsWalk(first + second + third, paths) && IsWalk(third + (second + first), paths)
  {
    hide IsWalk, OfSource, OfBridge;
    var s, b := OfSource(paths, p.bridge, p.src), OfBridge(paths, p.bridge);
    Parts(paths, p);
    PartsApart(paths, p);
    WalkConcat(first, s, second, b - s);
    WalkConcat(first + second, b, third, paths - b);
    assert b - s + s == b && paths - b + b == paths;
    WalkConcat(second, b - s, first, s);
    WalkConcat(third, paths - b, second + first, b);
  }

  /** One source's paths, with a given one first, or last. */
  lemma SourceFrom(paths: set<Path>, p: Path) returns (others: seq<Path>)
    requires p in paths
    ensures var s := OfSource(paths, p.bridge, p.src); IsWalk([p] + others, s) && IsWalk(others + [p], s)
  {
    hide IsWalk;
    var s := OfSource(paths, p.bridge, p.src);
    others := SomeOrder(s - {p});
    assert forall x <- others :: x in Elements(others);
    assert Elements([p] + others) == {p} + Elements(others) == s;
    assert Elements(others + [p]) == Elements(others) + {p};
    OneSourceWalk(s, [p] + others, p.bridge, p.src);
    OneSourceWalk(s, others + [p], p.bridge, p.src);
  }

  /** A walk that starts with a given path. */
  lemma WalkFrom(paths: set<Path>, p: Path) returns (walk: seq<Path>)
    requires p in paths
    ensures IsWalk(walk, paths) && walk != [] && walk[0] == p
    decreases |paths|, 0
  {
    hide IsWalk, OfSource, OfBridge;
    var s, b := OfSource(paths, p.bridge, p.src), OfBridge(paths, p.bridge);
    Parts(paths, p);
    var others := SourceFrom(paths, p);
    var second := AnyWalk(b - s);
    var third := AnyWalk(paths - b);
    Assembled(paths, p, [p] + others, second, third);
    walk := [p] + others + second + third;
  }

  /** A walk that ends with a given path. */
  lemma WalkTo(paths: set<Path>, p: Path) returns (init: seq<Path>)
    requires p in paths
    ensures IsWalk(init + [p], paths)
  {
    hide IsWalk, OfSource, OfBridge;
    var s, b := OfSource(paths, p.bridge, p.src), OfBridge(paths, p.bridge);
    var others := SourceFrom(paths, p);
    var second := AnyWalk(b - s);
    var third := AnyWalk(paths - b);
    Assembled(paths, p, others + [p], second, third);
    init := third + second + others;
    assert init + [p] == third + (second + (others + [p]));
  }

  /** A walk that starts with one path and ends with one of another bridge. */
  lemma WalkFromTo(paths: set<Path>, p: Path, q: Path) returns (init: seq<Path>)
    requires p in paths && q in paths && p.bridge != q.bridge
    ensures IsWalk(init + [q], paths) && init != [] && init[0] == p
  {
    hide IsWalk;
    var last := OfBridge(paths, q.bridge);
    var first := WalkFrom(paths - last, p);
    var rest := WalkTo(last, q);
    WalkConcat(first, paths - last, rest + [q], last);
    assert paths - last + last == paths;
    init := first + rest;
    assert init + [q] == first + (rest + [q]);
  }

  /** With enough pairs, and one of them bridged twice, some order of the loops loses a count. */
  lemma SomeWalkLoses(max: nat, paths: set<Path>, k: Pair) returns (walk: seq<Path>)
    requires max > 0 && OneNameEach(paths) && |PairsOf(paths)| >= max && |On(paths, k)| > 1
    ensures IsWalk(walk, paths) && !NothingLost(FlushesOf(walk, max))
  {
    hide IsWalk, FlushesOf, FirstCount, TotalOf, OneFlushAtMost;
    var p, q := TwoOf(On(paths, k));
    assert p in paths && q in paths && NameOf(p) == NameOf(q) == k && p.bridge != q.bridge;
    var init := WalkFromTo(paths, p, q);
    walk := init + [q];
    InitPairs(init, q, paths);
    SplitWalk(init, q, max);
    WalkStreams(walk, max, paths);
    FirstIsTotalIff(FlushesOf(walk, max), k);
  }

  lemma TwoOf<T>(s: set<T>) returns (x: T, y: T)
    requires |s| > 1
    ensures x in s && y in s && x != y
  {
    x :| x in s;
    assert |s - {x}| > 0;
    y :| y in s - {x};
  }

  lemma InitPairs(init: seq<Path>, q: Path, paths: set<Path>)
    requires IsWalk(init + [q], paths) && init != [] && NameOf(init[0]) == NameOf(q)
    ensures PairsOf(Elements(init)) == PairsOf(paths)
  {
    assert Elements(init + [q]) == Elements(init) + {q};
    PairsAdd(Elements(init), q);
    assert init[0] in Elements(init);
    assert NameOf(init[0]) in PairsOf(Elements(init));
  }

  lemma OnceIsNotLost(flushes: seq<Counts>, k: Pair)
    requires AllPositive(flushes) && TotalOf(flushes, k) <= 1
    ensures FirstCount(flushes, k) == TotalOf(flushes, k)
  {
    FirstIsTotalIff(flushes, k);
    if i, j :| 0 <= i < j < |flushes| && k in flushes[i] && k in flushes[j] {
      TwoCounts(flushes, k, i, j);
    }
  }

  lemma {:induction false} TwoCounts(flushes: seq<Counts>, k: Pair, i: nat, j: nat)
    requires AllPositive(flushes) && i < j < |flushes| && k in flushes[i] && k in flushes[j]
    ensures TotalOf(flushes, k) >= 2
  {
    var n := |flushes| - 1;
    assert AllPositive(flushes[..n]) by {
      assert forall f <- flushes[..n] :: f in flushes;
    }
    if j < n {
      TwoCounts(flushes[..n], k, i, j);
    } else {
      assert Positive(flushes[n]);
      assert flushes[..n][i] == flushes[i];
      NoneLeft(flushes[..n], k);
    }
  }

  /** Whatever order the loops take, deduplication loses nothing, exactly if there are fewer pairs than the
      buffer holds, or no pair has two bridges on this replica. */
  lemma NothingLostIff(max: nat, paths: set<Path>)
    requires max > 0 && OneNameEach(paths)
    ensures (forall walk :: IsWalk(walk, paths) ==> NothingLost(FlushesOf(walk, max))) <==>
            |PairsOf(paths)| < max || forall k :: |On(paths, k)| <= 1
  {
    hide IsWalk, NothingLost, FlushesOf, On, PairsOf, OneNameEach;
    if |PairsOf(paths)| < max || forall k :: |On(paths, k)| <= 1 {
      forall walk | IsWalk(walk, paths) ensures NothingLost(FlushesOf(walk, max)) {
        WalkStreams(walk, max, paths);
        StreamLosesNothing(FlushesOf(walk, max), max, paths);
      }
    } else {
      var k :| |On(paths, k)| > 1;
      var walk := SomeWalkLoses(max, paths, k);
    }
  }

  lemma StreamLosesNothing(flushes: seq<Counts>, max: nat, paths: set<Path>)
    requires Streamed(flushes, max, paths)
    requires |PairsOf(paths)| < max || forall k :: |On(paths, k)| <= 1
    ensures NothingLost(flushes)
  {
    hide FirstCount, TotalOf, On, PairsOf, OneFlushAtMost;
    if |PairsOf(paths)| < max {
      FewPairsOneFlush(flushes, max, paths);
      DedupLosesNothingIff(flushes);
    } else {
      forall k ensures FirstCount(flushes, k) == TotalOf(flushes, k) {
        assert |On(paths, k)| <= 1;
        OnceIsNotLost(flushes, k);
      }
    }
  }
}
