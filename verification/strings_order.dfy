// Go's string order, and what sorting by it makes reproducible.
module StringOrder {
  /** Lexicographic order. */
  predicate Less(a: string, b: string) {
    if b == "" then false
    else if a == "" then true
    else a[0] < b[0] || (a[0] == b[0] && Less(a[1..], b[1..]))
  }

  lemma {:induction false} Trichotomy(a: string, b: string)
    ensures Less(a, b) || a == b || Less(b, a)
    ensures !(Less(a, b) && Less(b, a)) && (a == b ==> !Less(a, b))
  {
    if a != "" && b != "" {
      Trichotomy(a[1..], b[1..]);
      assert a == [a[0]] + a[1..] && b == [b[0]] + b[1..];
    }
  }

  /** Byte by byte: at the first difference the smaller character decides, and a proper prefix comes first. */
  lemma {:induction false} LessIff(a: string, b: string)
    ensures Less(a, b) <==>
            (a <= b && a != b)
            || exists i :: 0 <= i < |a| && i < |b| && a[..i] == b[..i] && a[i] < b[i]
  {
    if a != "" && b != "" {
      var s, t := a[1..], b[1..];
      LessIff(s, t);
      assert a == [a[0]] + s && b == [b[0]] + t;
      if a[0] == b[0] {
        if i :| 0 <= i < |s| && i < |t| && s[..i] == t[..i] && s[i] < t[i] {
          assert a[..i + 1] == [a[0]] + s[..i] && b[..i + 1] == [b[0]] + t[..i];
        }
        if i :| 0 <= i < |a| && i < |b| && a[..i] == b[..i] && a[i] < b[i] {
          assert s[..i - 1] == a[..i][1..] && t[..i - 1] == b[..i][1..] && s[i - 1] < t[i - 1];
        }
      } else if a[0] < b[0] {
        assert a[..0] == b[..0];
      } else if i :| 0 <= i < |a| && i < |b| && a[..i] == b[..i] && a[i] < b[i] {
        assert i > 0 ==> a[..i][0] == b[..i][0];
      }
    }
  }

  lemma {:induction false} Transitive(a: string, b: string, c: string)
    requires Less(a, b) && Less(b, c)
    ensures Less(a, c)
  {
    if a != "" && a[0] == b[0] == c[0] {
      Transitive(a[1..], b[1..], c[1..]);
    }
  }

  /** Strictly ascending by key. */
  ghost predicate Ascending<T(!new)>(l: seq<T>, key: T -> string) {
    forall i, j :: 0 <= i < j < |l| ==> Less(key(l[i]), key(l[j]))
  }

  ghost predicate Distinct<T(!new)>(s: set<T>, key: T -> string) {
    forall x <- s, y <- s :: key(x) == key(y) ==> x == y
  }

  function Elements<T>(l: seq<T>): set<T> {
    set x <- l
  }

  ghost predicate Unique<T(!new)>(l: seq<T>) {
    forall i, j :: 0 <= i < j < |l| ==> l[i] != l[j]
  }

  lemma {:induction false} ElementsCard<T>(l: seq<T>)
    ensures |Elements(l)| <= |l|
  {
    if l != [] {
      ElementsCard(l[..|l| - 1]);
      assert l == l[..|l| - 1] + [l[|l| - 1]];
      assert Elements(l) == Elements(l[..|l| - 1]) + {l[|l| - 1]};
    }
  }

  /** As many entries as elements: nothing is listed twice. */
  lemma {:induction false} ListedOnce<T(!new)>(l: seq<T>)
    requires |l| == |Elements(l)|
    ensures Unique(l)
  {
    if l != [] {
      var init, last := l[..|l| - 1], l[|l| - 1];
      ElementsCard(init);
      assert Elements(l) == Elements(init) + {last};
      assert last !in Elements(init);
      ListedOnce(init);
      assert forall x <- init :: x in Elements(init);
      assert l == init + [last];
    }
  }

  /** Some order of a set, as a map yields its keys in. */
  lemma {:induction false} SomeOrder<T(!new)>(s: set<T>) returns (l: seq<T>)
    ensures Elements(l) == s && Unique(l)
  {
    if s == {} {
      l := [];
    } else {
      var x :| x in s;
      var rest := SomeOrder(s - {x});
      l := rest + [x];
      assert forall y <- rest :: y in Elements(rest);
      assert Elements(l) == Elements(rest) + {x};
    }
  }

  /** Inserts in front of the first larger key. */
  method Insert<T(==, !new)>(l: seq<T>, x: T, key: T -> string, ghost all: set<T>) returns (r: seq<T>)
    requires Elements(l) <= all && x in all && x !in l
    requires Distinct(all, key) ==> Ascending(l, key)
    ensures Elements(r) == Elements(l) + {x} && |r| == |l| + 1
    ensures Distinct(all, key) ==> Ascending(r, key)
  {
    var i := 0;
    while i < |l| && Less(key(l[i]), key(x))
      invariant i <= |l|
      invariant forall j :: 0 <= j < i ==> Less(key(l[j]), key(x))
    {
      i := i + 1;
    }
    r := l[..i] + [x] + l[i..];
    InsertElements(l, x, i);
    if Distinct(all, key) {
      InsertKeeps(l, x, key, all, i);
    }
  }

  lemma InsertKeeps<T(!new)>(l: seq<T>, x: T, key: T -> string, all: set<T>, i: nat)
    requires Ascending(l, key) && Distinct(all, key) && Elements(l) <= all && x in all && x !in l
    requires i <= |l| && (forall j :: 0 <= j < i ==> Less(key(l[j]), key(x)))
    requires i < |l| ==> !Less(key(l[i]), key(x))
    ensures Ascending(l[..i] + [x] + l[i..], key)
  {
    var r := l[..i] + [x] + l[i..];
    forall j | i <= j < |l| ensures Less(key(x), key(l[j])) {
      assert l[i] in Elements(l) && l[i] != x;
      Trichotomy(key(l[i]), key(x));
      if i < j {
        Transitive(key(x), key(l[i]), key(l[j]));
      }
    }
  }

  lemma InsertElements<T>(l: seq<T>, x: T, i: nat)
    requires i <= |l|
    ensures Elements(l[..i] + [x] + l[i..]) == Elements(l) + {x}
  {
    var r := l[..i] + [x] + l[i..];
    forall y ensures y in Elements(r) <==> y in Elements(l) + {x} {
      if y in l {
        var j :| 0 <= j < |l| && l[j] == y;
        assert r[if j < i then j else j + 1] == y;
      }
      assert r[i] == x;
    }
  }

  /** sort.Slice over the elements of a set; strictly ascending if the keys tell the elements apart. */
  method Sorted<T(==, !new)>(s: set<T>, key: T -> string) returns (l: seq<T>)
    ensures Elements(l) == s && |l| == |s|
    ensures Distinct(s, key) ==> Ascending(l, key)
  {
    l := [];
    var todo := s;
    while todo != {}
      invariant todo <= s && Elements(l) == s - todo && |l| == |s| - |todo|
      invariant Distinct(s, key) ==> Ascending(l, key)
      decreases todo
    {
      var x :| x in todo;
      assert x !in Elements(l);
      l := Insert(l, x, key, s);
      todo := todo - {x};
    }
  }

  /** The order leaves no choice: whatever order the elements are visited in, the sorted list is the same. */
  lemma {:induction false} AscendingUnique<T(!new)>(a: seq<T>, b: seq<T>, key: T -> string)
    requires Ascending(a, key) && Ascending(b, key) && Elements(a) == Elements(b)
    ensures a == b
    decreases |a|
  {
    if a == [] || b == [] {
      EmptyElements(a);
      EmptyElements(b);
    } else {
      var n, m := |a| - 1, |b| - 1;
      assert a[n] == b[m] by {
        assert a[n] in Elements(b) && b[m] in Elements(a);
        var i :| 0 <= i <= m && b[i] == a[n];
        var j :| 0 <= j <= n && a[j] == b[m];
        Trichotomy(key(a[n]), key(b[m]));
      }
      DropLast(a, key);
      DropLast(b, key);
      AscendingUnique(a[..n], b[..m], key);
      assert a == a[..n] + [a[n]] && b == b[..m] + [b[m]];
    }
  }

  lemma EmptyElements<T>(a: seq<T>)
    ensures Elements(a) == {} <==> a == []
  {
    if a != [] {
      assert a[0] in Elements(a);
    }
  }

  lemma DropLast<T(!new)>(a: seq<T>, key: T -> string)
    requires Ascending(a, key) && a != []
    ensures Elements(a[..|a| - 1]) == Elements(a) - {a[|a| - 1]}
  {
    var n := |a| - 1;
    forall i | 0 <= i < n ensures a[i] != a[n] {
      Trichotomy(key(a[i]), key(a[n]));
    }
    assert a == a[..n] + [a[n]];
  }
}
