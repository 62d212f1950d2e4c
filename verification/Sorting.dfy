/** Stable sorting by a numeric key, as the library sorts the sources rely on. */
module Sorting {
  import opened Graphs

  ghost predicate Ascending<T>(key: T -> real, s: seq<T>) {
    forall i, j :: 0 <= i < j < |s| ==> key(s[i]) <= key(s[j])
  }

  function Sorted<T>(key: T -> real, s: seq<T>): (r: seq<T>)
    ensures |r| == |s| && Elements(r) == Elements(s) && Ascending(key, r)
    ensures Distinct(s) ==> Distinct(r)
  {
    if s == [] then [] else
      FrontAdds(s[0], s[1..]);
      assert s == [s[0]] + s[1..];
      Insert(key, s[0], Sorted(key, s[1..]))
  }

  function Insert<T>(key: T -> real, x: T, s: seq<T>): (r: seq<T>)
    requires Ascending(key, s)
    ensures |r| == |s| + 1 && Elements(r) == Elements(s) + {x} && Ascending(key, r)
    ensures Distinct(s) && x !in Elements(s) ==> Distinct(r)
  {
    if s == [] || key(x) <= key(s[0]) then
      FrontAdds(x, s);
      [x] + s
    else
      var rest := Insert(key, x, s[1..]);
      InsertedBehind(key, x, s, rest);
      [s[0]] + rest
  }

  lemma InsertedBehind<T>(key: T -> real, x: T, s: seq<T>, rest: seq<T>)
    requires s != [] && Ascending(key, s) && key(s[0]) <= key(x)
    requires |rest| == |s| && Elements(rest) == Elements(s[1..]) + {x} && Ascending(key, rest)
    requires Distinct(s[1..]) && x !in Elements(s[1..]) ==> Distinct(rest)
    ensures var r := [s[0]] + rest;
      && |r| == |s| + 1 && Elements(r) == Elements(s) + {x} && Ascending(key, r)
      && (Distinct(s) && x !in Elements(s) ==> Distinct(r))
  {
    assert s == [s[0]] + s[1..];
    FrontAdds(s[0], s[1..]);
    FrontAdds(s[0], rest);
    LeastInFront(key, s, x, rest);
  }

  lemma FrontAdds<T>(x: T, s: seq<T>)
    ensures Elements([x] + s) == Elements(s) + {x}
    ensures Distinct([x] + s) <==> Distinct(s) && x !in Elements(s)
  {
    var r := [x] + s;
    assert forall i :: 0 <= i < |s| ==> r[i + 1] == s[i];
    if Distinct(r) {
      assert forall i :: 0 <= i < |s| ==> s[i] != r[0];
    }
  }

  lemma LeastInFront<T>(key: T -> real, s: seq<T>, x: T, rest: seq<T>)
    requires s != [] && Ascending(key, s) && Ascending(key, rest) && key(s[0]) <= key(x)
    requires Elements(rest) == Elements(s[1..]) + {x}
    ensures Ascending(key, [s[0]] + rest)
  {
    forall j | 0 <= j < |rest| ensures key(s[0]) <= key(rest[j]) {
      assert rest[j] in Elements(rest);
      if rest[j] != x {
        var k :| 0 <= k < |s[1..]| && s[1..][k] == rest[j];
        assert s[k + 1] == rest[j];
      }
    }
  }

  lemma {:induction false} SortedIsPermutation<T>(key: T -> real, s: seq<T>)
    ensures multiset(Sorted(key, s)) == multiset(s)
  {
    if s != [] {
      SortedIsPermutation(key, s[1..]);
      InsertAddsOne(key, s[0], Sorted(key, s[1..]));
      OneInFront(s);
    }
  }

  lemma OneInFront<T>(s: seq<T>)
    requires s != []
    ensures multiset(s) == multiset(s[1..]) + multiset{s[0]}
  {
    assert s == [s[0]] + s[1..];
  }

  lemma {:induction false} InsertAddsOne<T>(key: T -> real, x: T, s: seq<T>)
    requires Ascending(key, s)
    ensures multiset(Insert(key, x, s)) == multiset(s) + multiset{x}
  {
    if s != [] && key(x) > key(s[0]) {
      InsertAddsOne(key, x, s[1..]);
      OneInFront(s);
    }
  }

  // ----- stability -----

  /** The elements of one key, in order. */
  ghost function WithKey<T>(key: T -> real, v: real, s: seq<T>): seq<T> {
    if s == [] then [] else (if key(s[0]) == v then [s[0]] else []) + WithKey(key, v, s[1..])
  }

  /** Elements of equal keys keep their order. */
  lemma {:induction false} SortedIsStable<T>(key: T -> real, s: seq<T>, v: real)
    ensures WithKey(key, v, Sorted(key, s)) == WithKey(key, v, s)
  {
    if s != [] {
      SortedIsStable(key, s[1..], v);
      InsertIsStable(key, s[0], Sorted(key, s[1..]), v);
    }
  }

  lemma {:induction false} InsertIsStable<T>(key: T -> real, x: T, s: seq<T>, v: real)
    requires Ascending(key, s)
    ensures WithKey(key, v, Insert(key, x, s)) == (if key(x) == v then [x] else []) + WithKey(key, v, s)
  {
    if s != [] && key(x) > key(s[0]) {
      InsertIsStable(key, x, s[1..], v);
      PassedBy(key, x, s, Insert(key, x, s[1..]), v);
    } else {
      WithKeyFront(key, v, x, s);
    }
  }

  lemma PassedBy<T>(key: T -> real, x: T, s: seq<T>, rest: seq<T>, v: real)
    requires s != [] && key(x) > key(s[0])
    requires WithKey(key, v, rest) == (if key(x) == v then [x] else []) + WithKey(key, v, s[1..])
    ensures WithKey(key, v, [s[0]] + rest) == (if key(x) == v then [x] else []) + WithKey(key, v, s)
  {
    var passed, put := if key(s[0]) == v then [s[0]] else [], if key(x) == v then [x] else [];
    WithKeyFront(key, v, s[0], rest);
    assert passed == [] || put == [];
    assert passed + (put + WithKey(key, v, s[1..])) == put + (passed + WithKey(key, v, s[1..]));
  }

  lemma WithKeyFront<T>(key: T -> real, v: real, x: T, s: seq<T>)
    ensures WithKey(key, v, [x] + s) == (if key(x) == v then [x] else []) + WithKey(key, v, s)
  {
    assert ([x] + s)[1..] == s;
  }

  /** There is only one order that rises by key and keeps equal keys in order. */
  lemma {:induction false} StableIsUnique<T>(key: T -> real, a: seq<T>, b: seq<T>)
    requires Ascending(key, a) && Ascending(key, b)
    requires forall v :: WithKey(key, v, a) == WithKey(key, v, b)
    ensures a == b
  {
    if a == [] {
      NoKeyNoElement(key, b);
    } else {
      assert WithKey(key, key(a[0]), a) != [];
      LeastFirst(key, a, b);
      LeastFirst(key, b, a);
      assert a[0] == WithKey(key, key(a[0]), a)[0] == b[0];
      forall v ensures WithKey(key, v, a[1..]) == WithKey(key, v, b[1..]) {
        var first := if key(a[0]) == v then [a[0]] else [];
        assert WithKey(key, v, a) == first + WithKey(key, v, a[1..]);
        assert WithKey(key, v, b) == first + WithKey(key, v, b[1..]);
        assert WithKey(key, v, a)[|first|..] == WithKey(key, v, a[1..]);
      }
      StableIsUnique(key, a[1..], b[1..]);
      assert a == [a[0]] + a[1..] && b == [b[0]] + b[1..];
    }
  }

  lemma NoKeyNoElement<T>(key: T -> real, s: seq<T>)
    requires s == [] || WithKey(key, key(s[0]), s) == []
    ensures s == []
  {
  }

  lemma LeastFirst<T>(key: T -> real, a: seq<T>, b: seq<T>)
    requires a != [] && Ascending(key, b) && WithKey(key, key(a[0]), b) == WithKey(key, key(a[0]), a)
    ensures b != [] && key(b[0]) <= key(a[0])
  {
    KeyIsThere(key, key(a[0]), b);
  }

  lemma {:induction false} KeyIsThere<T>(key: T -> real, v: real, s: seq<T>)
    requires WithKey(key, v, s) != []
    ensures exists i :: 0 <= i < |s| && key(s[i]) == v
  {
    if key(s[0]) != v {
      KeyIsThere(key, v, s[1..]);
      var i :| 0 <= i < |s[1..]| && key(s[1..][i]) == v;
      assert key(s[i + 1]) == v;
    }
  }
}
