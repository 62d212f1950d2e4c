/**
 When the two-sided search raises, where it ends, and when its answer is lowest: in terms of ancestors, distances
 and one breadth-first order, all of which a caller can compute without running the search.
 */
module LcaExact {
  import opened Graphs
  import opened Wrappers
  import opened Lca
  import opened SearchLevels

  // ----- one breadth-first order -----

  /** `q` followed by the names of `ps` it lacks, each once. */
  ghost function AppendNew(q: seq<Name>, ps: seq<Name>): seq<Name> {
    if ps == [] then q else
      var r := AppendNew(q, ps[..|ps| - 1]);
      if ps[|ps| - 1] in r then r else r + [ps[|ps| - 1]]
  }

  /** The nodes above `n` in breadth-first order, as far as expanding the first `k` of them shows. */
  ghost function MetOrder(prev: Graph, n: Name, k: nat): seq<Name> {
    if k == 0 then [n] else
      var q := MetOrder(prev, n, k - 1);
      if k - 1 < |q| && q[k - 1] in prev then AppendNew(q, prev[q[k - 1]]) else q
  }

  ghost function Met(prev: Graph, n: Name, k: nat): set<Name> {
    Elements(MetOrder(prev, n, k))
  }

  /** One side of the search and the order agree: the queue is the order from position `k` on. */
  ghost predicate Agrees(s: Side, q: seq<Name>, k: nat) {
    && k <= |q| && QueueNames(s.queue) == q[k..]
    && forall x {:trigger x in q} {:trigger x in s.visited} :: x in q <==> x in s.visited
  }

  lemma {:induction false} AppendAgrees(s: Side, q: seq<Name>, k: nat, ps: seq<Name>, d: nat)
    requires Agrees(s, q, k)
    ensures Agrees(MeetAll(s, ps, d), AppendNew(q, ps), k)
    decreases |ps|
  {
    if ps != [] {
      AppendAgrees(s, q, k, ps[..|ps| - 1], d);
      AppendOne(MeetAll(s, ps[..|ps| - 1], d), AppendNew(q, ps[..|ps| - 1]), k, ps[|ps| - 1], d);
    }
  }

  lemma AppendOne(s: Side, q: seq<Name>, k: nat, p: Name, d: nat)
    requires Agrees(s, q, k)
    ensures Agrees(Meet(s, p, d), if p in q then q else q + [p], k)
  {
    if p !in q {
      assert (q + [p])[k..] == q[k..] + [p];
      assert QueueNames(s.queue + [(p, d)]) == QueueNames(s.queue) + [p];
    }
  }

  lemma PopAgrees(s: Side, q: seq<Name>, k: nat)
    requires Agrees(s, q, k) && s.queue != []
    ensures k < |q| && q[k] == s.queue[0].0 && Agrees(s.(queue := s.queue[1..]), q, k + 1)
  {
    assert QueueNames(s.queue)[0] == s.queue[0].0;
    assert |q[k..]| == |s.queue|;
    assert QueueNames(s.queue[1..]) == QueueNames(s.queue)[1..];
  }

  lemma {:induction false} RoundAgrees(prev: Graph, n: Name, k: nat)
    requires Closed(prev) && n in prev && k <= |Ancestors(prev, n)|
    ensures Agrees(Rounds(prev, n, k), MetOrder(prev, n, k), k)
  {
    if k > 0 {
      RoundAgrees(prev, n, k - 1);
      RoundOk(prev, n, k - 1);
      var s, q := Rounds(prev, n, k - 1), MetOrder(prev, n, k - 1);
      PopAgrees(s, q, k - 1);
      AdvanceIs(prev, s);
      AppendAgrees(s.(queue := s.queue[1..]), q, k, prev[s.queue[0].0], s.queue[0].1 + 1);
    }
  }

  lemma MetIsVisited(prev: Graph, n: Name, k: nat)
    requires Closed(prev) && n in prev && k <= |Ancestors(prev, n)|
    ensures Met(prev, n, k) == Rounds(prev, n, k).visited.Keys
  {
    RoundAgrees(prev, n, k);
  }

  lemma AllMet(prev: Graph, n: Name)
    requires Closed(prev) && n in prev
    ensures Met(prev, n, |Ancestors(prev, n)|) == Ancestors(prev, n)
  {
    MetIsVisited(prev, n, |Ancestors(prev, n)|);
    RoundOk(prev, n, |Ancestors(prev, n)|);
  }

  lemma MetWithin(prev: Graph, n: Name, k: nat)
    requires Closed(prev) && n in prev && k <= |Ancestors(prev, n)|
    ensures Met(prev, n, k) <= Ancestors(prev, n)
  {
    MetIsVisited(prev, n, k);
    RoundOk(prev, n, k);
  }

  /**
   The order by distance: expanding no more than the nodes within `d` meets nothing beyond the next distance,
   and expanding at least as many meets everything up to it.
   */
  lemma MetByDistance(prev: Graph, n: Name, k: nat, d: nat)
    requires Closed(prev) && n in prev && k <= |Ancestors(prev, n)|
    ensures k <= |Ball(prev, n, d)| ==> Met(prev, n, k) <= Ball(prev, n, d + 1)
    ensures |Ball(prev, n, d)| <= k ==> Ball(prev, n, d + 1) <= Met(prev, n, k)
  {
    var s, level := Rounds(prev, n, k), LevelAfter(prev, n, k);
    MetIsVisited(prev, n, k);
    RoundOk(prev, n, k);
    RoundLevelled(prev, n, k);
    if s.queue != [] && s.queue[0].1 == level {
      WithinLevel(prev, n, s, level, k);
      InsideByDistance(prev, n, level, k, d);
    } else {
      assert s.queue != [] ==> QueuedAt(s, s.queue[0], level, level + 1);
      AtBoundary(prev, n, s, level, k);
      BoundaryByDistance(prev, n, level, d);
      BoundaryByDistance(prev, n, d, level);
    }
  }

  lemma InsideByDistance(prev: Graph, n: Name, level: nat, k: nat, d: nat)
    requires Closed(prev) && k < |Ball(prev, n, level)| && (level > 0 ==> |Ball(prev, n, level - 1)| < k)
    ensures k <= |Ball(prev, n, d)| && k > 0 ==> Ball(prev, n, level + 1) <= Ball(prev, n, d + 1)
    ensures |Ball(prev, n, d)| <= k ==> Ball(prev, n, d + 1) <= Ball(prev, n, level)
    ensures level == 0 ==> Ball(prev, n, 0) <= Ball(prev, n, d)
  {
    if level <= d {
      BallGrows(prev, n, level, d);
      BallGrows(prev, n, level + 1, d + 1);
    } else {
      BallGrows(prev, n, d, level - 1);
      BallGrows(prev, n, d + 1, level);
    }
    BallGrows(prev, n, 0, d);
  }

  /** Balls of equal size are equal, and then nothing lies beyond them. */
  lemma BoundaryByDistance(prev: Graph, n: Name, level: nat, d: nat)
    requires Closed(prev) && n in prev
    ensures |Ball(prev, n, level)| <= |Ball(prev, n, d)| ==> Ball(prev, n, level + 1) <= Ball(prev, n, d + 1)
  {
    if level <= d {
      BallGrows(prev, n, level + 1, d + 1);
    } else if |Ball(prev, n, level)| <= |Ball(prev, n, d)| {
      BallGrows(prev, n, d, d + 1);
      BallGrows(prev, n, d + 1, level);
      SubsetSize(Ball(prev, n, d), Ball(prev, n, level));
      assert Ball(prev, n, d + 1) == Ball(prev, n, d);
      BallStops(prev, n, d);
      BallInAncestors(prev, n, level + 1);
    }
  }

  // ----- when it raises -----

  /** The node with fewer ancestors shares none of them with what the other's order meets in that many expansions. */
  ghost predicate Missed(prev: Graph, a: Name, b: Name) {
    if |Ancestors(prev, a)| <= |Ancestors(prev, b)| then
      Ancestors(prev, a) * Met(prev, b, |Ancestors(prev, a)|) == {}
    else
      Ancestors(prev, b) * Met(prev, a, |Ancestors(prev, b)|) == {}
  }

  lemma MissedIsApart(prev: Graph, a: Name, b: Name)
    requires Closed(prev) && a in prev && b in prev
    ensures Missed(prev, a, b) <==> Common(prev, a, b, LastRound(prev, a, b)) == {}
  {
    var n := LastRound(prev, a, b);
    MetIsVisited(prev, a, n);
    MetIsVisited(prev, b, n);
    RoundOk(prev, a, n);
    RoundOk(prev, b, n);
    assert if |Ancestors(prev, a)| <= |Ancestors(prev, b)|
      then Common(prev, a, b, n) == Ancestors(prev, a) * Met(prev, b, n)
           else Common(prev, a, b, n) == Met(prev, a, n) * Ancestors(prev, b);
  }

  /** The search raises exactly if neither node is above the other and the one with fewer ancestors is missed. */
  lemma RaisesIff(next: Graph, prev: Graph, a: Name, b: Name, r: Option<Name>)
    requires Inverse(next, prev) && a in next && b in next && LcaAnswer(next, prev, a, b, r)
    ensures r == None <==> !Reach(next, a, b) && !Reach(next, b, a) && Missed(prev, a, b)
  {
    InverseClosed(next, prev);
    MissedIsApart(prev, a, b);
  }

  /** It raises whenever there is no common ancestor; with equally many ancestors, exactly then. */
  lemma EqualCountsRaise(next: Graph, prev: Graph, a: Name, b: Name, r: Option<Name>)
    requires Inverse(next, prev) && a in next && b in next && LcaAnswer(next, prev, a, b, r)
    ensures Ancestors(prev, a) * Ancestors(prev, b) == {} ==> r == None
    ensures |Ancestors(prev, a)| == |Ancestors(prev, b)| ==>
      (r == None <==> Ancestors(prev, a) * Ancestors(prev, b) == {})
  {
    InverseClosed(next, prev);
    AllMet(prev, a);
    AllMet(prev, b);
    RaisesIff(next, prev, a, b, r);
    MetWithin(prev, a, LastRound(prev, a, b));
    MetWithin(prev, b, LastRound(prev, a, b));
    ReachSelf(prev, a);
    ReachSelf(prev, b);
    InverseReach(next, prev, a, b);
    InverseReach(next, prev, b, a);
    assert Ancestors(prev, a) * Ancestors(prev, b) == {} ==> Missed(prev, a, b);
    assert Reach(next, a, b) ==> a in Ancestors(prev, a) * Ancestors(prev, b);
    assert Reach(next, b, a) ==> b in Ancestors(prev, a) * Ancestors(prev, b);
  }

  /**
   By distance alone: sharing nothing up to the distance the count reaches raises, sharing something within what
   it covers does not.
   */
  lemma RaisesByDistance(next: Graph, prev: Graph, a: Name, b: Name, r: Option<Name>, d: nat)
    requires Inverse(next, prev) && a in next && b in next && LcaAnswer(next, prev, a, b, r)
    requires !Reach(next, a, b) && !Reach(next, b, a) && Closed(prev) && |Ancestors(prev, a)| <= |Ancestors(prev, b)|
    ensures |Ancestors(prev, a)| <= |Ball(prev, b, d)| && Ancestors(prev, a) * Ball(prev, b, d + 1) == {} ==> r == None
    ensures |Ball(prev, b, d)| <= |Ancestors(prev, a)| && Ancestors(prev, a) * Ball(prev, b, d + 1) != {} ==> r.Some?
  {
    RaisesIff(next, prev, a, b, r);
    MetByDistance(prev, b, |Ancestors(prev, a)|, d);
  }

  // ----- where it ends -----

  /** Completing level `l` above `a` before either side runs dry shows something the other side has met by then. */
  ghost predicate MeetsAtLevel(prev: Graph, a: Name, b: Name, l: nat)
    requires Closed(prev)
  {
    var k := |Ball(prev, a, l)|;
    k < LastRound(prev, a, b) && Ball(prev, a, l + 1) * Met(prev, b, k) != {}
  }

  ghost predicate FirstToMeet(prev: Graph, a: Name, b: Name, l: nat)
    requires Closed(prev)
  {
    MeetsAtLevel(prev, a, b, l) && forall m: nat :: m < l ==> !MeetsAtLevel(prev, a, b, m)
  }

  /** The search stops between rounds exactly at a completed level that meets. */
  lemma StopsAtLevel(prev: Graph, a: Name, b: Name, k: nat)
    requires Closed(prev) && a in prev && b in prev && k < LastRound(prev, a, b) && StopsAt(prev, a, b, k)
    ensures var l := LevelAfter(prev, a, k);
      && k == |Ball(prev, a, l)| && MeetsAtLevel(prev, a, b, l)
      && Common(prev, a, b, k) == Ball(prev, a, l + 1) * Met(prev, b, k)
  {
    LevelCount(prev, a, k);
    FirstLevelMet(prev, a, b, k, LevelAfter(prev, a, k));
  }

  lemma LevelCount(prev: Graph, n: Name, k: nat)
    requires Closed(prev) && n in prev && k <= |Ancestors(prev, n)|
    requires Rounds(prev, n, k).queue != [] && Rounds(prev, n, k).queue[0].1 > LevelAfter(prev, n, k)
    ensures k == |Ball(prev, n, LevelAfter(prev, n, k))|
  {
    RoundOk(prev, n, k);
    RoundLevelled(prev, n, k);
    AtBoundary(prev, n, Rounds(prev, n, k), LevelAfter(prev, n, k), k);
  }

  lemma FirstLevelMet(prev: Graph, a: Name, b: Name, k: nat, l: nat)
    requires Closed(prev) && a in prev && b in prev && k <= LastRound(prev, a, b) && k == |Ball(prev, a, l)|
    ensures Common(prev, a, b, k) == Ball(prev, a, l + 1) * Met(prev, b, k)
  {
    MetByDistance(prev, a, k, l);
    CommonIs(prev, a, b, k);
  }

  lemma CommonIs(prev: Graph, a: Name, b: Name, k: nat)
    requires Closed(prev) && a in prev && b in prev && k <= LastRound(prev, a, b)
    ensures Common(prev, a, b, k) == Met(prev, a, k) * Met(prev, b, k)
  {
    MetIsVisited(prev, a, k);
    MetIsVisited(prev, b, k);
  }

  lemma LevelStops(prev: Graph, a: Name, b: Name, l: nat)
    requires Closed(prev) && a in prev && b in prev && MeetsAtLevel(prev, a, b, l)
    ensures StopsAt(prev, a, b, |Ball(prev, a, l)|)
  {
    var k := |Ball(prev, a, l)|;
    var s, level := Rounds(prev, a, k), LevelAfter(prev, a, k);
    RoundOk(prev, a, k);
    RoundLevelled(prev, a, k);
    MetIsVisited(prev, a, k);
    MetIsVisited(prev, b, k);
    MetByDistance(prev, a, k, l);
    assert QueuedAt(s, s.queue[0], level, level + 1);
    if s.queue[0].1 == level {
      WithinLevel(prev, a, s, level, k);
      SizesBetween(prev, a, level, l);
    }
  }

  /** No ball's size lies strictly between those of two successive ones. */
  lemma SizesBetween(prev: Graph, n: Name, level: nat, l: nat)
    requires Closed(prev)
    ensures |Ball(prev, n, l)| >= |Ball(prev, n, level)| ||
      (level > 0 && |Ball(prev, n, l)| <= |Ball(prev, n, level - 1)|)
  {
    if l >= level {
      BallGrows(prev, n, level, l);
    } else {
      BallGrows(prev, n, l, level - 1);
    }
  }

  /**
   Where the search ends: after completing the first level that meets, with what lies within one more edge
   of it as candidates on that side; or, if no level does, when the side with fewer ancestors has met them all.
   */
  lemma EndsWhere(prev: Graph, a: Name, b: Name, k: nat)
    requires Closed(prev) && a in prev && b in prev
    ensures EndsAt(prev, a, b, k) <==>
      || (k == LastRound(prev, a, b) && forall l: nat :: !MeetsAtLevel(prev, a, b, l))
      || (exists l: nat :: FirstToMeet(prev, a, b, l) && k == |Ball(prev, a, l)|)
  {
    if EndsAt(prev, a, b, k) {
      EndIsFirstLevel(prev, a, b, k);
    }
    if k == LastRound(prev, a, b) && forall l: nat :: !MeetsAtLevel(prev, a, b, l) {
      forall j: nat | j < k ensures !StopsAt(prev, a, b, j) {
        if StopsAt(prev, a, b, j) {
          StopsAtLevel(prev, a, b, j);
        }
      }
    }
    if l: nat :| FirstToMeet(prev, a, b, l) && k == |Ball(prev, a, l)| {
      LevelStops(prev, a, b, l);
      forall j: nat | j < k ensures !StopsAt(prev, a, b, j) {
        if StopsAt(prev, a, b, j) {
          StopsAtLevel(prev, a, b, j);
          var m := LevelAfter(prev, a, j);
          assert m >= l;
          BallGrows(prev, a, l, m);
        }
      }
    }
  }

  lemma EndIsFirstLevel(prev: Graph, a: Name, b: Name, k: nat)
    requires Closed(prev) && a in prev && b in prev && EndsAt(prev, a, b, k)
    ensures k < LastRound(prev, a, b) ==> var l := LevelAfter(prev, a, k);
      && k == |Ball(prev, a, l)| && FirstToMeet(prev, a, b, l)
    ensures k == LastRound(prev, a, b) ==> forall l: nat :: !MeetsAtLevel(prev, a, b, l)
  {
    if k < LastRound(prev, a, b) {
      StopsAtLevel(prev, a, b, k);
      var l := LevelAfter(prev, a, k);
      forall m: nat | m < l ensures !MeetsAtLevel(prev, a, b, m) {
        if MeetsAtLevel(prev, a, b, m) {
          LevelStops(prev, a, b, m);
          EarlierIsSmaller(prev, a, m, l);
        }
      }
    } else {
      forall l: nat ensures !MeetsAtLevel(prev, a, b, l) {
        if MeetsAtLevel(prev, a, b, l) {
          LevelStops(prev, a, b, l);
        }
      }
    }
  }

  /** Short of all ancestors, a smaller distance holds fewer nodes. */
  lemma EarlierIsSmaller(prev: Graph, n: Name, m: nat, l: nat)
    requires Closed(prev) && n in prev && m < l && |Ball(prev, n, m)| < |Ancestors(prev, n)|
    ensures |Ball(prev, n, m)| < |Ball(prev, n, l)|
  {
    BallGrows(prev, n, m, m + 1);
    BallGrows(prev, n, m + 1, l);
    if |Ball(prev, n, m + 1)| == |Ball(prev, n, m)| {
      SubsetSize(Ball(prev, n, m), Ball(prev, n, m + 1));
      BallStops(prev, n, m);
    }
  }

  // ----- when the answer is lowest -----

  /** Nothing above both nodes is deeper. */
  ghost predicate DeepestCommon(next: Graph, prev: Graph, a: Name, b: Name, x: Name) {
    DeepestOf(next, prev, Ancestors(prev, a) * Ancestors(prev, b), x)
  }

  lemma RootPathBound(next: Graph, prev: Graph, n: Name, d: nat)
    requires Closed(next) && Acyclic(next) && RootPath(next, prev, n, d)
    ensures d < |next|
  {
    var p :| IsPath(next, p) && IsRoot(prev, p[0]) && p[|p| - 1] == n && |p| == d + 1;
    AcyclicPathDistinct(next, p);
    PathNodes(next, p);
    ElementsSize(p);
    forall x | x in Elements(p) ensures x in next.Keys {
      var i :| 0 <= i < |p| && p[i] == x;
    }
    SubsetSize(Elements(p), next.Keys);
  }

  /** In an acyclic graph every node has a depth. */
  lemma SomeDepth(next: Graph, prev: Graph, n: Name) returns (d: nat)
    requires Inverse(next, prev) && Acyclic(next) && n in next
    ensures IsDepth(next, prev, n, d)
  {
    InverseClosed(next, prev);
    d := SomeRootAbove(next, prev, n);
    d := DeepestPath(next, prev, n, d);
  }

  lemma {:induction false} DeepestPath(next: Graph, prev: Graph, n: Name, d: nat) returns (most: nat)
    requires Closed(next) && Acyclic(next) && RootPath(next, prev, n, d)
    ensures IsDepth(next, prev, n, most)
    decreases |next| - d
  {
    if e: nat :| RootPath(next, prev, n, e) && e > d {
      RootPathBound(next, prev, n, d);
      most := DeepestPath(next, prev, n, e);
    } else {
      most := d;
    }
  }

  lemma EndsOnce(prev: Graph, a: Name, b: Name, j: nat, k: nat)
    requires EndsAt(prev, a, b, j) && EndsAt(prev, a, b, k)
    ensures j == k
  {
  }

  /** The nodes the search chooses from, read off distances and one breadth-first order. */
  ghost predicate SharedAtEnd(prev: Graph, a: Name, b: Name, shared: set<Name>)
    requires Closed(prev)
  {
    || (&& (forall l: nat :: !MeetsAtLevel(prev, a, b, l))
        && shared == Met(prev, a, LastRound(prev, a, b)) * Met(prev, b, LastRound(prev, a, b)))
    || (exists l: nat ::
         FirstToMeet(prev, a, b, l) && shared == Ball(prev, a, l + 1) * Met(prev, b, |Ball(prev, a, l)|))
  }

  lemma SharedIsCommon(prev: Graph, a: Name, b: Name, shared: set<Name>) returns (k: nat)
    requires Closed(prev) && a in prev && b in prev && SharedAtEnd(prev, a, b, shared)
    ensures EndsAt(prev, a, b, k) && shared == Common(prev, a, b, k)
  {
    if forall l: nat :: !MeetsAtLevel(prev, a, b, l) {
      k := LastRound(prev, a, b);
      EndsWhere(prev, a, b, k);
      CommonIs(prev, a, b, k);
    } else {
      var l: nat :| FirstToMeet(prev, a, b, l) && shared == Ball(prev, a, l + 1) * Met(prev, b, |Ball(prev, a, l)|);
      k := |Ball(prev, a, l)|;
      EndsWhere(prev, a, b, k);
      FirstLevelMet(prev, a, b, k, l);
    }
  }

  /**
   An answer on unrelated nodes is a deepest common ancestor exactly if one is among the nodes the search chooses
   from.
   */
  lemma LowestIff(next: Graph, prev: Graph, a: Name, b: Name, x: Name, shared: set<Name>)
    requires Inverse(next, prev) && Acyclic(next) && a in next && b in next && Closed(prev)
    requires !Reach(next, a, b) && !Reach(next, b, a) && LcaAnswer(next, prev, a, b, Some(x))
    requires SharedAtEnd(prev, a, b, shared)
    ensures DeepestCommon(next, prev, a, b, x) <==> exists y :: y in shared && DeepestCommon(next, prev, a, b, y)
  {
    var k := SharedIsCommon(prev, a, b, shared);
    var j :| EndsAt(prev, a, b, j) && DeepestOf(next, prev, Common(prev, a, b, j), x);
    EndsOnce(prev, a, b, j, k);
    CommonAreAncestors(next, prev, a, b, k);
    InverseReach(next, prev, x, a);
    InverseReach(next, prev, x, b);
    assert x in Ancestors(prev, a) * Ancestors(prev, b);
    if y :| y in shared && DeepestCommon(next, prev, a, b, y) {
      var e := SomeDepth(next, prev, y);
    }
  }

  // ----- there is always an answer -----

  lemma {:induction false} SomeEnd(prev: Graph, a: Name, b: Name, j: nat) returns (k: nat)
    requires j <= LastRound(prev, a, b) && NoStopBefore(prev, a, b, j)
    ensures EndsAt(prev, a, b, k)
    decreases LastRound(prev, a, b) - j
  {
    if j == LastRound(prev, a, b) || StopsAt(prev, a, b, j) {
      k := j;
    } else {
      k := SomeEnd(prev, a, b, j + 1);
    }
  }

  lemma {:induction false} SomeDeepest(next: Graph, prev: Graph, s: set<Name>) returns (x: Name)
    requires Inverse(next, prev) && Acyclic(next) && s != {} && s <= next.Keys
    ensures DeepestOf(next, prev, s, x)
    decreases s
  {
    var y :| y in s;
    var d := SomeDepth(next, prev, y);
    x := y;
    if s - {y} != {} {
      var z := SomeDeepest(next, prev, s - {y});
      var e := SomeDepth(next, prev, z);
      x := if e <= d then y else z;
      forall w, i: nat, j: nat | w in s && IsDepth(next, prev, x, i) && IsDepth(next, prev, w, j) ensures j <= i {
        DepthUnique(next, prev, x, i, if e <= d then d else e);
        if w != y {
          assert w in s - {y} && j <= e;
        } else {
          DepthUnique(next, prev, y, j, d);
        }
      }
    } else {
      assert s == {y};
    }
  }

  lemma SomeAnswer(next: Graph, prev: Graph, a: Name, b: Name) returns (r: Option<Name>)
    requires Inverse(next, prev) && Acyclic(next) && a in next && b in next
    ensures LcaAnswer(next, prev, a, b, r)
  {
    if Reach(next, a, b) {
      r := Some(a);
    } else if Reach(next, b, a) {
      r := Some(b);
    } else if Common(prev, a, b, LastRound(prev, a, b)) == {} {
      r := None;
    } else {
      var k := SomeEnd(prev, a, b, 0);
      CommonAreAncestors(next, prev, a, b, k);
      var x := SomeDeepest(next, prev, Common(prev, a, b, k));
      r := Some(x);
    }
  }

  // ----- graphs on which every answer is lowest -----

  /** Of two common ancestors the deeper one is nearer to both nodes. */
  ghost predicate DeeperIsNearer(next: Graph, prev: Graph, a: Name, b: Name) {
    var common := Ancestors(prev, a) * Ancestors(prev, b);
    forall x, y :: x in common && y in common && Deeper(next, prev, x, y) ==>
      Nearer(prev, a, x, y) && Nearer(prev, b, x, y)
  }

  ghost predicate Deeper(next: Graph, prev: Graph, x: Name, y: Name) {
    exists d: nat, e: nat :: IsDepth(next, prev, x, d) && IsDepth(next, prev, y, e) && d > e
  }

  ghost predicate Nearer(prev: Graph, n: Name, x: Name, y: Name) {
    forall t: nat :: Within(prev, n, y, t) ==> t > 0 && Within(prev, n, x, t - 1)
  }

  /** A search that has met a node has met everything nearer. */
  lemma NearerIsMet(prev: Graph, n: Name, k: nat, x: Name, y: Name)
    requires Closed(prev) && n in prev && k <= |Ancestors(prev, n)|
    requires y in Rounds(prev, n, k).visited && Nearer(prev, n, x, y)
    ensures x in Rounds(prev, n, k).visited
  {
    RoundLevelled(prev, n, k);
    var s, level := Rounds(prev, n, k), LevelAfter(prev, n, k);
    var d := s.visited[y];
    assert Exact(prev, n, y, d);
    assert d > 0 && Within(prev, n, x, d - 1);
    WithinMore(prev, n, x, d - 1, level);
  }

  /** A node is at least as deep as everything above it. */
  lemma {:induction false} AboveIsShallower(next: Graph, prev: Graph, p: seq<Name>, d: nat, e: nat)
    requires IsPath(next, p) && IsDepth(next, prev, p[0], d) && RootPath(next, prev, p[0], d)
    requires IsDepth(next, prev, p[|p| - 1], e)
    ensures d + |p| - 1 <= e
  {
    RootPathAlong(next, prev, p, d, |p| - 1);
  }

  lemma {:induction false} RootPathAlong(next: Graph, prev: Graph, p: seq<Name>, d: nat, i: nat)
    requires IsPath(next, p) && RootPath(next, prev, p[0], d) && i < |p|
    ensures RootPath(next, prev, p[i], d + i)
  {
    if i > 0 {
      RootPathAlong(next, prev, p, d, i - 1);
      assert EdgeAt(next, p, i - 1);
      RootPathStep(next, prev, p[i - 1], d + i - 1, p[i]);
    }
  }

  lemma UpperIsDeepest(next: Graph, prev: Graph, a: Name, b: Name)
    requires Inverse(next, prev) && Acyclic(next) && a in next && b in next && Reach(next, a, b)
    ensures DeepestCommon(next, prev, a, b, a) && DeepestCommon(next, prev, b, a, a)
  {
    InverseClosed(next, prev);
    InverseReach(next, prev, a, b);
    ReachSelf(prev, a);
    forall y, d: nat, e: nat | y in Ancestors(prev, a) && IsDepth(next, prev, a, d) && IsDepth(next, prev, y, e)
      ensures e <= d
    {
      InverseReach(next, prev, y, a);
      var p :| PathFromTo(next, p, y, a);
      AboveIsShallower(next, prev, p, e, d);
    }
  }

  /**
   Wherever the deeper of two common ancestors is always the nearer one, every answer is a deepest common
   ancestor.
   */
  lemma AnswerIsLowest(next: Graph, prev: Graph, a: Name, b: Name, x: Name)
    requires Inverse(next, prev) && Acyclic(next) && a in next && b in next
    requires LcaAnswer(next, prev, a, b, Some(x)) && DeeperIsNearer(next, prev, a, b)
    ensures DeepestCommon(next, prev, a, b, x)
  {
    InverseClosed(next, prev);
    if Reach(next, a, b) {
      UpperIsDeepest(next, prev, a, b);
    } else if Reach(next, b, a) {
      UpperIsDeepest(next, prev, b, a);
    } else {
      var k :| EndsAt(prev, a, b, k) && DeepestOf(next, prev, Common(prev, a, b, k), x);
      CommonAreAncestors(next, prev, a, b, k);
      InverseReach(next, prev, x, a);
      InverseReach(next, prev, x, b);
      assert x in Ancestors(prev, a) * Ancestors(prev, b);
      forall y, d: nat, e: nat | y in Ancestors(prev, a) * Ancestors(prev, b) && IsDepth(next, prev, x, d) &&
        IsDepth(next, prev, y, e)
        ensures e <= d
      {
        if e > d {
          assert Deeper(next, prev, y, x);
          NearerIsMet(prev, a, k, y, x);
          NearerIsMet(prev, b, k, y, x);
        }
      }
    }
  }

  /** Every edge raises the depth by exactly one. */
  ghost predicate Graded(next: Graph, prev: Graph) {
    forall u, c, d: nat :: Edge(next, u, c) && IsDepth(next, prev, u, d) ==> IsDepth(next, prev, c, d + 1)
  }

  lemma {:induction false} GradedPath(next: Graph, prev: Graph, p: seq<Name>, d: nat, i: nat)
    requires Graded(next, prev) && IsPath(next, p) && IsDepth(next, prev, p[0], d) && i < |p|
    ensures IsDepth(next, prev, p[i], d + i)
  {
    if i > 0 {
      GradedPath(next, prev, p, d, i - 1);
      assert EdgeAt(next, p, i - 1);
    }
  }

  /** In a graded graph all paths up to an ancestor have the difference of the depths as their length. */
  lemma UpwardLength(next: Graph, prev: Graph, p: seq<Name>, d: nat, e: nat)
    requires Inverse(next, prev) && Graded(next, prev) && IsPath(prev, p)
    requires IsDepth(next, prev, p[0], d) && IsDepth(next, prev, p[|p| - 1], e)
    ensures d == e + |p| - 1
  {
    InverseClosed(next, prev);
    PathNodes(prev, p);
    var r := Reversed(p);
    forall k | 0 <= k < |r| - 1 ensures EdgeAt(next, r, k) {
      assert EdgeAt(prev, p, |p| - 2 - k);
    }
    GradedPath(next, prev, r, e, |r| - 1);
    DepthUnique(next, prev, p[0], d, e + |p| - 1);
  }

  /** On graphs where every edge raises the depth by one, every answer is a deepest common ancestor. */
  lemma GradedIsLowest(next: Graph, prev: Graph, a: Name, b: Name, x: Name)
    requires Inverse(next, prev) && Acyclic(next) && a in next && b in next
    requires LcaAnswer(next, prev, a, b, Some(x)) && Graded(next, prev)
    ensures DeepestCommon(next, prev, a, b, x)
  {
    InverseClosed(next, prev);
    var da := SomeDepth(next, prev, a);
    var db := SomeDepth(next, prev, b);
    forall y, z | y in Ancestors(prev, a) * Ancestors(prev, b) && z in Ancestors(prev, a) * Ancestors(prev, b) &&
      Deeper(next, prev, y, z)
      ensures Nearer(prev, a, y, z) && Nearer(prev, b, y, z)
    {
      var d: nat, e: nat :| IsDepth(next, prev, y, d) && IsDepth(next, prev, z, e) && d > e;
      GradedNearer(next, prev, a, da, y, d, z, e);
      GradedNearer(next, prev, b, db, y, d, z, e);
    }
    AnswerIsLowest(next, prev, a, b, x);
  }

  lemma GradedNearer(next: Graph, prev: Graph, n: Name, dn: nat, x: Name, d: nat, y: Name, e: nat)
    requires Inverse(next, prev) && Graded(next, prev) && Closed(next) && IsDepth(next, prev, n, dn)
    requires x in Ancestors(prev, n) && y in Ancestors(prev, n) && IsDepth(next, prev, x, d) &&
      IsDepth(next, prev, y, e) && d > e
    ensures Nearer(prev, n, x, y)
  {
    InverseClosed(next, prev);
    var p :| PathFromTo(prev, p, n, x);
    UpwardLength(next, prev, p, dn, d);
    forall t: nat | Within(prev, n, y, t) ensures t > 0 && Within(prev, n, x, t - 1) {
      var q :| PathFromTo(prev, q, n, y) && |q| <= t + 1;
      UpwardLength(next, prev, q, dn, e);
    }
  }
}
