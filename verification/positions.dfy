// Which positions of a sequence are picked, in order: what filtering loops are measured by.
module Positions {
  /** `at` lists, from front to back, exactly the positions of `s` whose element satisfies `p`. */
  ghost predicate Picks<T(!new)>(s: seq<T>, p: T -> bool, at: seq<nat>) {
    && (forall i, j :: 0 <= i < j < |at| ==> at[i] < at[j])
    && (forall i :: 0 <= i < |at| ==> at[i] < |s| && p(s[at[i]]))
    && (forall k: nat :: k < |s| && p(s[k]) ==> k in at)
  }

  lemma PicksNone<T(!new)>(p: T -> bool)
    ensures Picks([], p, [])
  {
  }

  lemma PicksSnoc<T(!new)>(s: seq<T>, x: T, p: T -> bool, at: seq<nat>)
    requires Picks(s, p, at)
    ensures Picks(s + [x], p, if p(x) then at + [|s|] else at)
  {
    var more, all := if p(x) then at + [|s|] else at, s + [x];
    forall k: nat | k < |all| && p(all[k]) ensures k in more {
      if k < |s| {
        assert k in at;
      } else {
        assert more[|at|] == k;
      }
    }
  }

  lemma PicksAlike<T(!new)>(s: seq<T>, p: T -> bool, q: T -> bool, at: seq<nat>)
    requires Picks(s, p, at) && forall x :: p(x) <==> q(x)
    ensures Picks(s, q, at)
  {
  }

  lemma PicksAny<T(!new)>(s: seq<T>, p: T -> bool, at: seq<nat>)
    requires Picks(s, p, at)
    ensures at != [] <==> exists x <- s :: p(x)
  {
    if x :| x in s && p(x) {
      var k :| 0 <= k < |s| && s[k] == x;
      assert k in at;
    }
    if at != [] {
      assert s[at[0]] in s;
    }
  }

  /** The elements at these positions. */
  ghost predicate Pulled<T(!new)>(s: seq<T>, at: seq<nat>, l: seq<T>) {
    |at| == |l| && forall i :: 0 <= i < |l| ==> at[i] < |s| && l[i] == s[at[i]]
  }

  lemma PulledSnoc<T(!new)>(s: seq<T>, x: T, at: seq<nat>, l: seq<T>)
    requires Pulled(s, at, l)
    ensures Pulled(s + [x], at, l) && Pulled(s + [x], at + [|s|], l + [x])
  {
    var all := s + [x];
    assert forall k :: 0 <= k < |s| ==> all[k] == s[k];
  }

  /** `l` is the subsequence of all elements of `s` that satisfy `p`: each as often as it occurs, in order. */
  ghost predicate IsFiltered<T(!new)>(s: seq<T>, p: T -> bool, l: seq<T>) {
    exists at: seq<nat> :: Picks(s, p, at) && Pulled(s, at, l)
  }

  lemma FilteredNone<T(!new)>(p: T -> bool)
    ensures IsFiltered([], p, [])
  {
    PicksNone(p);
    assert Pulled<T>([], [], []);
  }

  lemma FilteredSnoc<T(!new)>(s: seq<T>, x: T, p: T -> bool, l: seq<T>)
    requires IsFiltered(s, p, l)
    ensures IsFiltered(s + [x], p, if p(x) then l + [x] else l)
  {
    hide Picks, Pulled;
    var at: seq<nat> :| Picks(s, p, at) && Pulled(s, at, l);
    PicksSnoc(s, x, p, at);
    PulledSnoc(s, x, at, l);
  }

  lemma FilteredEmptyIff<T(!new)>(s: seq<T>, p: T -> bool, l: seq<T>)
    requires IsFiltered(s, p, l)
    ensures l == [] <==> forall x <- s :: !p(x)
    ensures forall x :: x in l <==> x in s && p(x)
  {
    forall x ensures x in l <==> x in s && p(x) {
      FilteredMember(s, p, l, x);
    }
    hide IsFiltered;
    if l != [] {
      assert l[0] in l;
    }
  }

  lemma FilteredMember<T(!new)>(s: seq<T>, p: T -> bool, l: seq<T>, x: T)
    requires IsFiltered(s, p, l)
    ensures x in l <==> x in s && p(x)
  {
    hide Picks;
    var at: seq<nat> :| Picks(s, p, at) && Pulled(s, at, l);
    if x in s && p(x) {
      var k :| 0 <= k < |s| && s[k] == x;
      PickedHas(s, p, at, k);
      var i :| 0 <= i < |at| && at[i] == k;
      assert l[i] == x;
    }
    if x in l {
      var i :| 0 <= i < |l| && l[i] == x;
      PickedInside(s, p, at, i);
    }
  }

  lemma PickedHas<T(!new)>(s: seq<T>, p: T -> bool, at: seq<nat>, k: nat)
    requires Picks(s, p, at) && k < |s| && p(s[k])
    ensures k in at
  {
  }

  /** There is only one such list of positions. */
  lemma {:induction false} PicksUnique<T(!new)>(s: seq<T>, p: T -> bool, a: seq<nat>, b: seq<nat>)
    requires Picks(s, p, a) && Picks(s, p, b)
    ensures a == b
    decreases |s|
  {
    hide Picks;
    if s == [] {
      NothingPicked(s, p, a);
      NothingPicked(s, p, b);
    } else if p(s[|s| - 1]) {
      PicksLast(s, p, a);
      PicksLast(s, p, b);
      PicksUnique(s[..|s| - 1], p, a[..|a| - 1], b[..|b| - 1]);
      SameEnd(a, b);
    } else {
      PicksEarlier(s, p, a);
      PicksEarlier(s, p, b);
      PicksUnique(s[..|s| - 1], p, a, b);
    }
  }

  lemma NothingPicked<T(!new)>(s: seq<T>, p: T -> bool, at: seq<nat>)
    requires Picks(s, p, at) && s == []
    ensures at == []
  {
    if at != [] {
      PickedInside(s, p, at, 0);
    }
  }

  lemma PickedInside<T(!new)>(s: seq<T>, p: T -> bool, at: seq<nat>, i: nat)
    requires Picks(s, p, at) && i < |at|
    ensures at[i] < |s| && p(s[at[i]])
  {
  }

  lemma SameEnd(a: seq<nat>, b: seq<nat>)
    requires a != [] && b != [] && a[|a| - 1] == b[|b| - 1] && a[..|a| - 1] == b[..|b| - 1]
    ensures a == b
  {
    assert a == a[..|a| - 1] + [a[|a| - 1]] && b == b[..|b| - 1] + [b[|b| - 1]];
  }

  lemma PicksEarlier<T(!new)>(s: seq<T>, p: T -> bool, at: seq<nat>)
    requires Picks(s, p, at) && s != [] && !p(s[|s| - 1])
    ensures Picks(s[..|s| - 1], p, at)
  {
  }

  lemma PicksLast<T(!new)>(s: seq<T>, p: T -> bool, at: seq<nat>)
    requires Picks(s, p, at) && s != [] && p(s[|s| - 1])
    ensures at != [] && at[|at| - 1] == |s| - 1 && Picks(s[..|s| - 1], p, at[..|at| - 1])
  {
    var n := |s| - 1;
    var i :| 0 <= i < |at| && at[i] == n;
    assert i == |at| - 1;
    var init, front := s[..n], at[..i];
    forall k: nat | k < n && p(init[k]) ensures k in front {
      assert k in at;
      var j :| 0 <= j < |at| && at[j] == k;
      assert front[j] == k;
    }
  }

  /** Nor is there more than one filtered list. */
  lemma FilteredUnique<T(!new)>(s: seq<T>, p: T -> bool, l: seq<T>, m: seq<T>)
    requires IsFiltered(s, p, l) && IsFiltered(s, p, m)
    ensures l == m
  {
    hide Picks;
    var a: seq<nat> :| Picks(s, p, a) && Pulled(s, a, l);
    var b: seq<nat> :| Picks(s, p, b) && Pulled(s, b, m);
    PicksUnique(s, p, a, b);
  }
}
