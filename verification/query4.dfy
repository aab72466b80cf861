// Query 4: the accounts at both ends of a pair that enough common neighbours bridge.
// The centralised result, and the facts that let replicas compute it shard by shard
// from pruned adjacency.
module Query4 {
  import opened Accounts

  datatype Edge = Edge(from: Account, to: Account)

  type Graph = set<Edge>

  function OutOf(g: Graph, u: Account): set<Account> {
    set e <- g | e.from == u :: e.to
  }

  function InTo(g: Graph, v: Account): set<Account> {
    set e <- g | e.to == v :: e.from
  }

  /** The accounts a transfer from `u` to `v` can pass through. */
  function Bridges(g: Graph, u: Account, v: Account): set<Account> {
    OutOf(g, u) * InTo(g, v)
  }

  /** The reference: every end of every pair with at least `t` bridges. */
  ghost predicate Qualifies(g: Graph, t: nat, a: Account) {
    exists u: Account, v: Account :: |Bridges(g, u, v)| >= t && (a == u || a == v)
  }

  /** The pairs with enough bridges, found edge by edge; for a threshold above zero these are all. */
  function QualifyingPairs(g: Graph, t: nat): set<(Account, Account)> {
    set e <- g, f <- g | |Bridges(g, e.from, f.to)| >= t :: (e.from, f.to)
  }

  function Reference(g: Graph, t: nat): set<Account> {
    (set p <- QualifyingPairs(g, t) :: p.0) + (set p <- QualifyingPairs(g, t) :: p.1)
  }

  lemma QualifyingPairsIff(g: Graph, t: nat, u: Account, v: Account)
    requires t > 0
    ensures (u, v) in QualifyingPairs(g, t) <==> |Bridges(g, u, v)| >= t
  {
    if |Bridges(g, u, v)| >= t {
      BridgeEdges(g, u, v);
    }
  }

  lemma ReferenceIff(g: Graph, t: nat, a: Account)
    requires t > 0
    ensures a in Reference(g, t) <==> Qualifies(g, t, a)
  {
    hide QualifyingPairs, Bridges;
    if u: Account, v: Account :| |Bridges(g, u, v)| >= t && (a == u || a == v) {
      QualifyingPairsIff(g, t, u, v);
      assert (u, v) in QualifyingPairs(g, t);
    }
    if a in Reference(g, t) {
      var p :| p in QualifyingPairs(g, t) && (a == p.0 || a == p.1);
      QualifyingPairsIff(g, t, p.0, p.1);
    }
  }

  lemma BridgeEdges(g: Graph, u: Account, v: Account)
    requires |Bridges(g, u, v)| > 0
    ensures exists e, f :: e in g && f in g && e.from == u && f.to == v
  {
    var b :| b in Bridges(g, u, v);
    var e :| e in g && e.from == u && e.to == b;
    var f :| f in g && f.to == v && f.from == b;
  }

  // ---------------------------------------------------------------- pruning

  lemma {:induction false} SubsetCard<T>(a: set<T>, b: set<T>)
    requires a <= b
    ensures |a| <= |b|
  {
    if a != {} {
      var x :| x in a;
      SubsetCard(a - {x}, b - {x});
    }
  }

  ghost predicate HeavySource(g: Graph, t: nat, u: Account) {
    |OutOf(g, u)| >= t
  }

  ghost predicate HeavySink(g: Graph, t: nat, v: Account) {
    |InTo(g, v)| >= t
  }

  /** A qualifying pair has a source of out-degree and a sink of in-degree at least `t`. */
  lemma PruneSound(g: Graph, t: nat, u: Account, v: Account)
    requires |Bridges(g, u, v)| >= t
    ensures HeavySource(g, t, u) && HeavySink(g, t, v)
  {
    SubsetCard(Bridges(g, u, v), OutOf(g, u));
    SubsetCard(Bridges(g, u, v), InTo(g, v));
  }

  // ---------------------------------------------------------------- sharding

  /** A replica's index; every account has one owner. */
  type Owner = Account -> nat

  function SumBelow(n: nat, f: nat -> nat): nat {
    if n == 0 then 0 else SumBelow(n - 1, f) + f(n - 1)
  }

  function OwnedBy(s: set<Account>, owner: Owner, r: nat): set<Account> {
    set b <- s | owner(b) == r
  }

  function OwnedBelow(s: set<Account>, owner: Owner, n: nat): set<Account> {
    set b <- s | owner(b) < n
  }

  lemma {:induction false} PartitionCard(s: set<Account>, owner: Owner, n: nat, f: nat -> nat)
    requires forall r: nat :: r < n ==> f(r) == |OwnedBy(s, owner, r)|
    ensures |OwnedBelow(s, owner, n)| == SumBelow(n, f)
  {
    if n == 0 {
      assert OwnedBelow(s, owner, n) == {};
    } else {
      PartitionCard(s, owner, n - 1, f);
      var below, here := OwnedBelow(s, owner, n - 1), OwnedBy(s, owner, n - 1);
      assert OwnedBelow(s, owner, n) == below + here && below !! here;
      assert |below + here| == |below| + |here|;
    }
  }

  /** Every bridge is counted by its owner, and by nobody else. */
  lemma ShardsPartitionBridges(g: Graph, owner: Owner, n: nat, u: Account, v: Account, f: nat -> nat)
    requires forall a :: owner(a) < n
    requires forall r: nat :: r < n ==> f(r) == |OwnedBy(Bridges(g, u, v), owner, r)|
    ensures SumBelow(n, f) == |Bridges(g, u, v)|
  {
    var s := Bridges(g, u, v);
    PartitionCard(s, owner, n, f);
    assert OwnedBelow(s, owner, n) == s;
  }
}
