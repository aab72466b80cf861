// Accounts, their textual ids, and the keys pairs of accounts are counted under.
module Accounts {
  datatype Account = Account(bank: string, id: string) {
    function GetId(): string {
      bank + "-" + id
    }
  }

  /** strings.Cut at the first '-': everything before it, and everything behind it. */
  function CutAtDash(s: string): (string, string) {
    if s == "" then ("", "")
    else if s[0] == '-' then ("", s[1..])
    else
      var (before, after) := CutAtDash(s[1..]);
      ([s[0]] + before, after)
  }

  function AccountFromId(id: string): Account {
    var (bank, acc) := CutAtDash(id);
    Account(bank, acc)
  }

  lemma {:induction false} CutGetId(bank: string, id: string)
    requires '-' !in bank
    ensures CutAtDash(bank + "-" + id) == (bank, id)
  {
    var s := bank + "-" + id;
    if bank == "" {
      assert s[0] == '-' && s[1..] == id;
    } else {
      assert s[0] == bank[0] && s[1..] == bank[1..] + "-" + id;
      CutGetId(bank[1..], id);
      assert [bank[0]] + bank[1..] == bank;
    }
  }

  lemma {:induction false} CutHasNoDash(s: string)
    ensures '-' !in CutAtDash(s).0
  {
    if s != "" && s[0] != '-' {
      CutHasNoDash(s[1..]);
    }
  }

  /** An account is recovered from its id exactly when its bank has no '-'. */
  lemma AccountRoundTripIff(a: Account)
    ensures AccountFromId(a.GetId()) == a <==> '-' !in a.bank
  {
    if '-' !in a.bank {
      CutGetId(a.bank, a.id);
    } else {
      CutHasNoDash(a.GetId());
    }
  }

  // ---------------------------------------------------------------- pair keys

  datatype Pair = Pair(src: string, dst: string) {
    function Key(): string {
      src + "::" + dst
    }
  }

  function PairOf(src: Account, dst: Account): Pair {
    Pair(src.GetId(), dst.GetId())
  }

  /** How a pair is written: source and sink as bank-account, and both ends joined by "::". */
  lemma PairText(u: Account, v: Account)
    ensures PairOf(u, v).src == u.bank + "-" + u.id && PairOf(u, v).dst == v.bank + "-" + v.id
    ensures PairOf(u, v).Key() == u.bank + "-" + u.id + "::" + v.bank + "-" + v.id
  {
    assert u.bank + "-" + u.id + "::" + (v.bank + "-" + v.id) == u.bank + "-" + u.id + "::" + v.bank + "-" + v.id;
  }

  /** `s` followed by "::" has its first "::" right behind `s`. */
  predicate EndsAtSeparator(s: string) {
    && (forall i :: 0 <= i < |s| - 1 ==> !(s[i] == ':' && s[i + 1] == ':'))
    && (s != "" ==> s[|s| - 1] != ':')
  }

  lemma KeyPrefix(p: Pair, q: Pair)
    requires EndsAtSeparator(p.src) && EndsAtSeparator(q.src) && p.Key() == q.Key()
    ensures |p.src| <= |q.src|
  {
    var k, n := p.Key(), |q.src|;
    assert k[n] == q.Key()[n] == ':' && k[n + 1] == q.Key()[n + 1] == ':';
    if n < |p.src| {
      assert k[n] == p.src[n];
      assert n + 1 < |p.src| ==> k[n + 1] == p.src[n + 1];
    }
  }

  /** Two pairs share a key only if they are the same pair. */
  lemma KeyInjective(p: Pair, q: Pair)
    requires EndsAtSeparator(p.src) && EndsAtSeparator(q.src) && p.Key() == q.Key()
    ensures p == q
  {
    KeyPrefix(p, q);
    KeyPrefix(q, p);
    assert p.Key()[..|p.src|] == p.src && q.Key()[..|q.src|] == q.src;
    assert p.Key()[|p.src| + 2..] == p.dst && q.Key()[|q.src| + 2..] == q.dst;
  }

  predicate SeparatorAt(k: string, i: nat) {
    i + 1 < |k| && k[i] == k[i + 1] == ':'
  }

  /** Where the first "::" of a text is. */
  function FirstSeparator(k: string, from: nat): (n: nat)
    requires exists i: nat :: from <= i && SeparatorAt(k, i)
    ensures from <= n && SeparatorAt(k, n) && forall i: nat :: from <= i < n ==> !SeparatorAt(k, i)
    decreases |k| - from
  {
    if SeparatorAt(k, from) then from else FirstSeparator(k, from + 1)
  }

  /** Every key can be cut at its first "::" into a pair, whose source meets the condition. */
  lemma CutKey(k: string) returns (q: Pair)
    requires exists i: nat :: SeparatorAt(k, i)
    ensures q.Key() == k && EndsAtSeparator(q.src)
    ensures forall i: nat :: SeparatorAt(k, i) ==> |q.src| <= i
  {
    var n := FirstSeparator(k, 0);
    q := Pair(k[..n], k[n + 2..]);
    assert k[..n] + "::" + k[n + 2..] == k;
    forall i: nat | i + 1 < n ensures !(k[i] == ':' && k[i + 1] == ':') {
      assert !SeparatorAt(k, i);
    }
    if n > 0 {
      assert !SeparatorAt(k, n - 1);
    }
  }

  /** A source id outside the condition shares its key, whatever the sink, with a pair inside it. */
  lemma KeyCollides(s: string, d: string) returns (q: Pair)
    requires !EndsAtSeparator(s)
    ensures q != Pair(s, d) && q.Key() == Pair(s, d).Key() && EndsAtSeparator(q.src) && |q.src| < |s|
  {
    var k := Pair(s, d).Key();
    var i: nat :| i < |s| && s[i] == ':' && if i + 1 < |s| then s[i + 1] == ':' else true;
    assert SeparatorAt(k, i);
    q := CutKey(k);
  }

  /** A pair is told from all pairs with such sources by its key exactly if its own source is such. */
  lemma KeyInjectiveIff(s: string)
    ensures EndsAtSeparator(s) <==>
            forall d, q: Pair :: EndsAtSeparator(q.src) && q.Key() == Pair(s, d).Key() ==> q == Pair(s, d)
  {
    if EndsAtSeparator(s) {
      forall d, q: Pair | EndsAtSeparator(q.src) && q.Key() == Pair(s, d).Key() ensures q == Pair(s, d) {
        KeyInjective(q, Pair(s, d));
      }
    } else {
      var q := KeyCollides(s, "");
    }
  }

  ghost predicate KeysDistinct(sources: set<string>) {
    forall p: Pair, q: Pair :: p.src in sources && q.src in sources && p.Key() == q.Key() ==> p == q
  }

  lemma SharedKey(s: string, t: string) returns (p: Pair, q: Pair)
    requires |s| < |t| && s + "::" <= t + "::"
    ensures p.src == s && q.src == t && p.Key() == q.Key()
  {
    p, q := Pair(s, (t + "::")[|s| + 2..]), Pair(t, "");
    assert p.Key() == t + "::" == q.Key();
  }

  lemma KeyExtends(p: Pair, q: Pair)
    requires p.Key() == q.Key() && p != q && |p.src| <= |q.src|
    ensures |p.src| < |q.src| && p.src + "::" <= q.src + "::"
  {
    var k := p.Key();
    assert k[..|p.src|] == p.src && k[|p.src| + 2..] == p.dst && k[..|p.src| + 2] == p.src + "::";
    assert k[..|q.src|] == q.src && k[|q.src| + 2..] == q.dst && k[..|q.src| + 2] == q.src + "::";
    assert k[..|p.src| + 2] == k[..|q.src| + 2][..|p.src| + 2];
  }

  /** Source ids can be used together, with any sinks, exactly if none of them begins, up to and with its
      separator, another one and its separator. */
  lemma KeysDistinctIff(sources: set<string>)
    ensures KeysDistinct(sources) <==>
            forall s <- sources, t <- sources :: |s| < |t| ==> !(s + "::" <= t + "::")
  {
    forall s <- sources, t <- sources | |s| < |t| && s + "::" <= t + "::" ensures !KeysDistinct(sources) {
      var p, q := SharedKey(s, t);
    }
    forall p: Pair, q: Pair | p.src in sources && q.src in sources && p.Key() == q.Key() && p != q
      ensures exists s <- sources, t <- sources :: |s| < |t| && s + "::" <= t + "::"
    {
      if |p.src| <= |q.src| {
        KeyExtends(p, q);
      } else {
        KeyExtends(q, p);
      }
    }
  }

  /** What the pipeline assumes of the accounts it sees. */
  predicate Readable(a: Account) {
    '-' !in a.bank && EndsAtSeparator(a.GetId())
  }

  lemma PairInjective(u: Account, v: Account, u': Account, v': Account)
    requires '-' !in u.bank && '-' !in v.bank && '-' !in u'.bank && '-' !in v'.bank
    requires PairOf(u, v) == PairOf(u', v')
    ensures u == u' && v == v'
  {
    AccountRoundTripIff(u);
    AccountRoundTripIff(v);
    AccountRoundTripIff(u');
    AccountRoundTripIff(v');
  }
}
