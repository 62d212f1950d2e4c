/**
 Directed graphs given by adjacency lists: paths, reachability, acyclicity, and the
 two measures every loop over an acyclic graph terminates by.
 */
module Graphs {

  type Name = string

  /** Adjacency lists: the successors of every node, in the order the source keeps them. */
  type Graph = map<Name, seq<Name>>

  /** Every successor is itself a node. */
  ghost predicate Closed(g: Graph) {
    forall a, b :: a in g && b in g[a] ==> b in g
  }

  ghost predicate Edge(g: Graph, a: Name, b: Name) {
    a in g && b in g[a]
  }

  ghost predicate EdgeAt(g: Graph, p: seq<Name>, i: int)
    requires 0 <= i < |p| - 1
  {
    Edge(g, p[i], p[i + 1])
  }

  ghost predicate IsPath(g: Graph, p: seq<Name>) {
    && p != []
    && p[0] in g
    && forall i :: 0 <= i < |p| - 1 ==> EdgeAt(g, p, i)
  }

  ghost predicate PathFromTo(g: Graph, p: seq<Name>, a: Name, b: Name) {
    IsPath(g, p) && p[0] == a && p[|p| - 1] == b
  }

  /** There is a path, possibly of no edges, from `a` to `b`. */
  ghost predicate Reach(g: Graph, a: Name, b: Name) {
    exists p :: PathFromTo(g, p, a, b)
  }

  /** Everything reachable from `n`, itself included. */
  ghost function Reachable(g: Graph, n: Name): set<Name> {
    set m | m in g && Reach(g, n, m)
  }

  /** There is a path of at least one edge from `a` to `b`. */
  ghost predicate StrictReach(g: Graph, a: Name, b: Name) {
    exists c :: Edge(g, a, c) && Reach(g, c, b)
  }

  ghost predicate Acyclic(g: Graph) {
    forall n :: n in g ==> !StrictReach(g, n, n)
  }

  ghost predicate Distinct<T>(s: seq<T>) {
    forall i, j :: 0 <= i < j < |s| ==> s[i] != s[j]
  }

  function Elements<T>(s: seq<T>): (r: set<T>) {
    set x | x in s
  }

  // ----- paths -----

  lemma PathNodes(g: Graph, p: seq<Name>)
    requires Closed(g) && IsPath(g, p)
    ensures forall i :: 0 <= i < |p| ==> p[i] in g
  {
    forall i | 0 <= i < |p| ensures p[i] in g {
      if i > 0 {
        assert EdgeAt(g, p, i - 1);
      }
    }
  }

  lemma PathSlice(g: Graph, p: seq<Name>, i: nat, j: nat)
    requires Closed(g) && IsPath(g, p) && i < j <= |p|
    ensures IsPath(g, p[i..j])
  {
    PathNodes(g, p);
    forall k | 0 <= k < j - i - 1 ensures EdgeAt(g, p[i..j], k) {
      assert EdgeAt(g, p, i + k);
    }
  }

  lemma PathSnoc(g: Graph, p: seq<Name>, c: Name)
    requires IsPath(g, p) && Edge(g, p[|p| - 1], c)
    ensures IsPath(g, p + [c])
  {
    var q := p + [c];
    forall k | 0 <= k < |q| - 1 ensures EdgeAt(g, q, k) {
      if k < |p| - 1 {
        assert EdgeAt(g, p, k);
      }
    }
  }

  lemma PathCons(g: Graph, a: Name, p: seq<Name>)
    requires IsPath(g, p) && Edge(g, a, p[0])
    ensures IsPath(g, [a] + p)
  {
    var q := [a] + p;
    forall k | 0 <= k < |q| - 1 ensures EdgeAt(g, q, k) {
      if k > 0 {
        assert EdgeAt(g, p, k - 1);
      }
    }
  }

  /** Two paths meeting at a node make one path. */
  lemma PathJoin(g: Graph, p: seq<Name>, q: seq<Name>)
    requires IsPath(g, p) && IsPath(g, q) && p[|p| - 1] == q[0]
    ensures PathFromTo(g, p + q[1..], p[0], q[|q| - 1])
  {
    var r := p + q[1..];
    forall k | 0 <= k < |r| - 1 ensures EdgeAt(g, r, k) {
      if k < |p| - 1 {
        assert EdgeAt(g, p, k);
      } else {
        assert EdgeAt(g, q, k - |p| + 1);
      }
    }
  }

  // ----- reachability -----

  lemma ReachSelf(g: Graph, a: Name)
    requires a in g
    ensures Reach(g, a, a)
  {
    assert PathFromTo(g, [a], a, a);
  }

  /** A path of at least one edge witnesses strict reachability. */
  lemma StrictFromPath(g: Graph, p: seq<Name>, a: Name, c: Name)
    requires Closed(g) && PathFromTo(g, p, a, c) && |p| > 1
    ensures StrictReach(g, a, c)
  {
    PathSlice(g, p, 1, |p|);
    assert p[1..] == p[1..|p|];
    assert EdgeAt(g, p, 0);
    assert PathFromTo(g, p[1..], p[1], c);
  }

  lemma ReachNodes(g: Graph, a: Name, b: Name)
    requires Closed(g) && Reach(g, a, b)
    ensures a in g && b in g
  {
    var p :| PathFromTo(g, p, a, b);
    PathNodes(g, p);
  }

  lemma ReachTrans(g: Graph, a: Name, b: Name, c: Name)
    requires Reach(g, a, b) && Reach(g, b, c)
    ensures Reach(g, a, c)
  {
    var p :| PathFromTo(g, p, a, b);
    var q :| PathFromTo(g, q, b, c);
    PathJoin(g, p, q);
  }

  lemma ReachEdge(g: Graph, a: Name, b: Name)
    requires Closed(g) && Edge(g, a, b)
    ensures Reach(g, a, b) && StrictReach(g, a, b)
  {
    ReachSelf(g, b);
    assert EdgeAt(g, [a, b], 0);
    assert PathFromTo(g, [a, b], a, b);
  }

  /** Strict reachability is reachability, and absorbs it on either side. */
  lemma StrictIsReach(g: Graph, a: Name, b: Name)
    requires Closed(g) && StrictReach(g, a, b)
    ensures Reach(g, a, b) && a in g && b in g
  {
    var c :| Edge(g, a, c) && Reach(g, c, b);
    ReachEdge(g, a, c);
    ReachTrans(g, a, c, b);
    ReachNodes(g, c, b);
  }

  lemma ReachStrict(g: Graph, a: Name, b: Name, c: Name)
    requires Closed(g)
    requires Reach(g, a, b) && Reach(g, b, c) && (StrictReach(g, a, b) || StrictReach(g, b, c))
    ensures StrictReach(g, a, c)
  {
    if StrictReach(g, a, b) {
      var d :| Edge(g, a, d) && Reach(g, d, b);
      ReachTrans(g, d, b, c);
    } else {
      var p :| PathFromTo(g, p, a, b);
      var d :| Edge(g, b, d) && Reach(g, d, c);
      if |p| == 1 {
        assert a == b;
      } else {
        StrictFromPath(g, p, a, b);
      }
    }
  }

  /** Reaching a different node takes an edge, whether one looks at the first or at the last one. */
  lemma ReachSplit(g: Graph, a: Name, b: Name)
    requires Closed(g) && Reach(g, a, b) && a != b
    ensures StrictReach(g, a, b)
    ensures exists c :: Reach(g, a, c) && Edge(g, c, b)
  {
    var p :| PathFromTo(g, p, a, b);
    StrictFromPath(g, p, a, b);
    PathSlice(g, p, 0, |p| - 1);
    assert EdgeAt(g, p, |p| - 2);
    assert PathFromTo(g, p[0..|p| - 1], a, p[|p| - 2]);
  }

  /** A set containing the start and closed under edges contains everything reachable. */
  lemma ReachStaysIn(g: Graph, S: set<Name>, a: Name, b: Name)
    requires a in S && Reach(g, a, b)
    requires forall u, v :: u in S && Edge(g, u, v) ==> v in S
    ensures b in S
  {
    var p :| PathFromTo(g, p, a, b);
    PathStaysIn(g, S, p, |p| - 1);
  }

  lemma {:induction false} PathStaysIn(g: Graph, S: set<Name>, p: seq<Name>, i: nat)
    requires IsPath(g, p) && p[0] in S && i < |p|
    requires forall u, v :: u in S && Edge(g, u, v) ==> v in S
    ensures p[i] in S
  {
    if i > 0 {
      PathStaysIn(g, S, p, i - 1);
      assert EdgeAt(g, p, i - 1);
    }
  }

  /** A path in an acyclic graph visits no node twice. */
  lemma AcyclicPathDistinct(g: Graph, p: seq<Name>)
    requires Closed(g) && Acyclic(g) && IsPath(g, p)
    ensures Distinct(p)
  {
    PathNodes(g, p);
    forall i, j | 0 <= i < j < |p| ensures p[i] != p[j] {
      PathSlice(g, p, i, j + 1);
      StrictFromPath(g, p[i..j + 1], p[i], p[j]);
    }
  }

  // ----- sizes -----

  lemma SubsetSize<T>(a: set<T>, b: set<T>)
    requires a <= b
    ensures |a| <= |b| && (a != b ==> |a| < |b|)
  {
    assert b == a + (b - a);
    if a != b {
      assert b - a != {};
    }
  }

  // ----- lists without repetition -----

  ghost function Position(p: seq<Name>, n: Name): (k: nat)
    requires n in p
    ensures k < |p| && p[k] == n
  {
    if p[0] == n then 0 else 1 + Position(p[1..], n)
  }

  lemma PositionAt(p: seq<Name>, i: nat)
    requires Distinct(p) && i < |p|
    ensures Position(p, p[i]) == i
  {
    var k := Position(p, p[i]);
    assert p[k] == p[i];
  }

  lemma OnlyElement(s: seq<Name>, x: Name)
    requires Distinct(s) && forall y :: y in s <==> y == x
    ensures s == [x]
  {
    assert x in s;
    var last := |s| - 1;
    assert s[0] in s && s[last] in s;
    assert last == 0;
  }

  /** A list has as many elements as it is long exactly if it repeats none. */
  lemma {:induction false} ElementsSize<T>(s: seq<T>)
    ensures |Elements(s)| <= |s|
    ensures |Elements(s)| == |s| <==> Distinct(s)
  {
    if s != [] {
      var x, r := s[|s| - 1], s[..|s| - 1];
      ElementsSize(r);
      assert Elements(s) == Elements(r) + {x};
      if x in r {
        assert Elements(s) == Elements(r);
        var i :| 0 <= i < |r| && r[i] == x;
        assert s[i] == s[|s| - 1];
      } else {
        assert forall i :: 0 <= i < |r| ==> s[i] == r[i];
      }
    }
  }

  // ----- the rank of a node: how many nodes lie below it -----

  ghost function Below(g: Graph, n: Name): set<Name> {
    set m | m in g && StrictReach(g, n, m)
  }

  ghost function Rank(g: Graph, n: Name): nat {
    |Below(g, n)|
  }

  /** Following an edge of an acyclic graph lowers the rank. */
  lemma RankDrops(g: Graph, a: Name, b: Name)
    requires Closed(g) && Acyclic(g) && Edge(g, a, b)
    ensures Rank(g, b) < Rank(g, a)
  {
    ReachEdge(g, a, b);
    forall m | m in Below(g, b) ensures m in Below(g, a) {
      StrictIsReach(g, b, m);
    }
    assert b in Below(g, a) && b !in Below(g, b);
    SubsetSize(Below(g, b), Below(g, a));
  }

  lemma RankBound(g: Graph, n: Name)
    ensures Rank(g, n) <= |g|
  {
    assert Below(g, n) <= g.Keys;
    SubsetSize(Below(g, n), g.Keys);
  }

  /** Conversely, a graph whose edges all lower some number is acyclic. */
  lemma RankedIsAcyclic(g: Graph, rank: map<Name, int>)
    requires Closed(g) && rank.Keys == g.Keys
    requires forall a, b :: Edge(g, a, b) ==> rank[b] < rank[a]
    ensures Acyclic(g)
  {
    forall n | n in g ensures !StrictReach(g, n, n) {
      if StrictReach(g, n, n) {
        var c :| Edge(g, n, c) && Reach(g, c, n);
        var p :| PathFromTo(g, p, c, n);
        PathNodes(g, p);
        RankAlong(g, rank, p, |p| - 1);
      }
    }
  }

  lemma {:induction false} RankAlong(g: Graph, rank: map<Name, int>, p: seq<Name>, i: nat)
    requires Closed(g) && rank.Keys == g.Keys && IsPath(g, p) && i < |p|
    requires forall k :: 0 <= k < |p| ==> p[k] in g
    requires forall a, b :: Edge(g, a, b) ==> rank[b] < rank[a]
    ensures rank[p[i]] <= rank[p[0]]
  {
    if i > 0 {
      RankAlong(g, rank, p, i - 1);
      assert EdgeAt(g, p, i - 1);
    }
  }

  // ----- the work a queue still holds: one unit for every path leaving one of its nodes -----

  /** The number of paths that start at `n`. */
  ghost function Work(g: Graph, n: Name): nat
    requires Closed(g) && Acyclic(g) && n in g
    decreases Rank(g, n) + 1, 0
  {
    forall c {:trigger c in g[n]} | c in g[n] ensures Rank(g, c) < Rank(g, n) { RankDrops(g, n, c); }
    1 + WorkUpTo(g, Rank(g, n), g[n])
  }

  ghost function WorkUpTo(g: Graph, bound: nat, q: seq<Name>): nat
    requires Closed(g) && Acyclic(g)
    requires forall c :: c in q ==> c in g && Rank(g, c) < bound
    decreases bound, |q|
  {
    if q == [] then 0 else Work(g, q[0]) + WorkUpTo(g, bound, q[1..])
  }

  ghost function QueueWork(g: Graph, q: seq<Name>): nat
    requires Closed(g) && Acyclic(g)
    requires forall c :: c in q ==> c in g
  {
    if q == [] then 0 else Work(g, q[0]) + QueueWork(g, q[1..])
  }

  lemma {:induction false} WorkUpToIsQueueWork(g: Graph, bound: nat, q: seq<Name>)
    requires Closed(g) && Acyclic(g)
    requires forall c :: c in q ==> c in g && Rank(g, c) < bound
    ensures WorkUpTo(g, bound, q) == QueueWork(g, q)
    decreases |q|
  {
    if q != [] {
      WorkUpToIsQueueWork(g, bound, q[1..]);
    }
  }

  /** A node is worth one more than all its successors together. */
  lemma WorkOfNode(g: Graph, n: Name)
    requires Closed(g) && Acyclic(g) && n in g
    ensures Work(g, n) == 1 + QueueWork(g, g[n])
  {
    forall c {:trigger c in g[n]} | c in g[n] ensures Rank(g, c) < Rank(g, n) { RankDrops(g, n, c); }
    WorkUpToIsQueueWork(g, Rank(g, n), g[n]);
  }

  lemma {:induction false} QueueWorkConcat(g: Graph, q: seq<Name>, r: seq<Name>)
    requires Closed(g) && Acyclic(g)
    requires (forall c :: c in q ==> c in g) && (forall c :: c in r ==> c in g)
    ensures QueueWork(g, q + r) == QueueWork(g, q) + QueueWork(g, r)
    decreases |q|
  {
    if q == [] {
      assert q + r == r;
    } else {
      assert (q + r)[1..] == q[1..] + r;
      QueueWorkConcat(g, q[1..], r);
    }
  }

  // ----- the same graph seen from its edges' other end -----

  /** `h` lists as successors exactly the predecessors of `g`. */
  ghost predicate Inverse(g: Graph, h: Graph) {
    && g.Keys == h.Keys
    && forall a, b :: Edge(g, a, b) <==> Edge(h, b, a)
  }

  lemma InverseClosed(g: Graph, h: Graph)
    requires Inverse(g, h)
    ensures Closed(g) && Closed(h) && Inverse(h, g)
  {
    forall a, b | a in g && b in g[a] ensures b in g {
      assert Edge(g, a, b);
    }
    forall a, b | a in h && b in h[a] ensures b in h {
      assert Edge(h, a, b);
    }
  }

  lemma InverseReach(g: Graph, h: Graph, a: Name, b: Name)
    requires Inverse(g, h)
    ensures Reach(g, a, b) <==> Reach(h, b, a)
  {
    InverseClosed(g, h);
    if Reach(g, a, b) {
      InverseReachOneWay(g, h, a, b);
    }
    if Reach(h, b, a) {
      InverseReachOneWay(h, g, b, a);
    }
  }

  lemma InverseReachOneWay(g: Graph, h: Graph, a: Name, b: Name)
    requires Inverse(g, h) && Reach(g, a, b)
    ensures Reach(h, b, a)
  {
    InverseClosed(g, h);
    var p :| PathFromTo(g, p, a, b);
    PathNodes(g, p);
    var r := Reversed(p);
    forall k | 0 <= k < |r| - 1 ensures EdgeAt(h, r, k) {
      assert EdgeAt(g, p, |p| - 2 - k);
    }
    assert PathFromTo(h, r, b, a);
  }

  lemma InverseAcyclic(g: Graph, h: Graph)
    requires Inverse(g, h) && Acyclic(g)
    ensures Acyclic(h)
  {
    InverseClosed(g, h);
    forall n | n in h ensures !StrictReach(h, n, n) {
      if StrictReach(h, n, n) {
        var c :| Edge(h, n, c) && Reach(h, c, n);
        InverseReach(g, h, n, c);
        assert Edge(g, c, n);
        ReachStep(g, n, c, n);
      }
    }
  }

  function Reversed<T>(s: seq<T>): (r: seq<T>)
    ensures |r| == |s| && forall i :: 0 <= i < |s| ==> r[i] == s[|s| - 1 - i]
  {
    if s == [] then [] else Reversed(s[1..]) + [s[0]]
  }

  lemma ReachStep(g: Graph, a: Name, b: Name, c: Name)
    requires Closed(g) && Reach(g, a, b) && Edge(g, b, c)
    ensures Reach(g, a, c) && StrictReach(g, a, c)
  {
    ReachEdge(g, b, c);
    ReachTrans(g, a, b, c);
    ReachStrict(g, a, b, c);
  }
}
