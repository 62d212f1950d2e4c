/** Common ancestors: node depths, ancestor sets, and the two-sided breadth-first search. */
module Lca {
  import opened Graphs
  import opened Wrappers

  datatype LcaError = NoSuchNode | NoCommonAncestor

  ghost predicate IsRoot(prev: Graph, n: Name) {
    n in prev && prev[n] == []
  }

  /** Some path of `d` edges leads from a root to `n`. */
  ghost predicate RootPath(next: Graph, prev: Graph, n: Name, d: nat) {
    exists p :: IsPath(next, p) && IsRoot(prev, p[0]) && p[|p| - 1] == n && |p| == d + 1
  }

  /** `d` is the number of edges of a longest path from a root to `n`. */
  ghost predicate IsDepth(next: Graph, prev: Graph, n: Name, d: nat) {
    RootPath(next, prev, n, d) && forall e: nat :: RootPath(next, prev, n, e) ==> e <= d
  }

  lemma RootPathStep(next: Graph, prev: Graph, n: Name, d: nat, c: Name)
    requires RootPath(next, prev, n, d) && Edge(next, n, c)
    ensures RootPath(next, prev, c, d + 1)
  {
    var p :| IsPath(next, p) && IsRoot(prev, p[0]) && p[|p| - 1] == n && |p| == d + 1;
    PathSnoc(next, p, c);
    assert (p + [c])[0] == p[0];
  }

  lemma RootPathSelf(next: Graph, prev: Graph, n: Name)
    requires IsRoot(prev, n) && n in next
    ensures RootPath(next, prev, n, 0)
  {
    assert IsPath(next, [n]) && [n][0] == n;
  }

  /** In an acyclic graph every node lies below some root. */
  lemma {:induction false} SomeRootAbove(next: Graph, prev: Graph, n: Name) returns (d: nat)
    requires Inverse(next, prev) && Acyclic(next) && n in next
    ensures RootPath(next, prev, n, d)
    decreases Rank(prev, n)
  {
    if prev[n] == [] {
      RootPathSelf(next, prev, n);
      d := 0;
    } else {
      var p := prev[n][0];
      InverseClosed(next, prev);
      InverseAcyclic(next, prev);
      assert Edge(prev, n, p);
      RankDrops(prev, n, p);
      d := SomeRootAbove(next, prev, p);
      RootPathStep(next, prev, p, d, n);
      d := d + 1;
    }
  }

  // ----- one side of the search -----

  /** One breadth-first search towards the roots: its queue and the nodes met, each with its distance. */
  datatype Side = Side(queue: seq<(Name, nat)>, visited: map<Name, nat>)

  ghost function Start(n: Name): Side {
    Side([(n, 0)], map[n := 0])
  }

  ghost function Meet(s: Side, parent: Name, d: nat): Side {
    if parent in s.visited then s else Side(s.queue + [(parent, d)], s.visited[parent := d])
  }

  ghost function MeetAll(s: Side, parents: seq<Name>, d: nat): Side {
    if parents == [] then s else Meet(MeetAll(s, parents[..|parents| - 1], d), parents[|parents| - 1], d)
  }

  /** Takes the head of the queue and meets its parents. */
  ghost function Advance(prev: Graph, s: Side): Side {
    if s.queue == [] || s.queue[0].0 !in prev then s
    else MeetAll(s.(queue := s.queue[1..]), prev[s.queue[0].0], s.queue[0].1 + 1)
  }

  /** The search from `n` after `k` rounds. */
  ghost function Rounds(prev: Graph, n: Name, k: nat): Side {
    if k == 0 then Start(n) else Advance(prev, Rounds(prev, n, k - 1))
  }

  /** The ancestors of `n`, itself included. */
  ghost function Ancestors(prev: Graph, n: Name): set<Name> {
    Reachable(prev, n)
  }

  /** The nodes the searches from `a` and `b` have both met after `k` rounds each. */
  ghost function Common(prev: Graph, a: Name, b: Name, k: nat): set<Name> {
    Rounds(prev, a, k).visited.Keys * Rounds(prev, b, k).visited.Keys
  }

  /** The level the search from `n` has completed when `k` rounds are over. */
  ghost function LevelAfter(prev: Graph, n: Name, k: nat): nat {
    if k == 0 then 0 else
      var before, queue := LevelAfter(prev, n, k - 1), Rounds(prev, n, k - 1).queue;
      if queue != [] && queue[0].1 > before then queue[0].1 else before
  }

  /** After `k` rounds the first search is about to enter a new level and the two have met. */
  ghost predicate StopsAt(prev: Graph, a: Name, b: Name, k: nat) {
    && Common(prev, a, b, k) != {}
    && Rounds(prev, a, k).queue != []
    && Rounds(prev, a, k).queue[0].1 > LevelAfter(prev, a, k)
  }

  /** The rounds after which the shorter search has met all its ancestors. */
  ghost function LastRound(prev: Graph, a: Name, b: Name): nat {
    var x, y := |Ancestors(prev, a)|, |Ancestors(prev, b)|;
    if x <= y then x else y
  }

  ghost predicate NoStopBefore(prev: Graph, a: Name, b: Name, k: nat) {
    forall j {:trigger StopsAt(prev, a, b, j)} :: 0 <= j < k ==> !StopsAt(prev, a, b, j)
  }

  /** The round at which the two-sided search ends: the first stop, or the last round if there is none. */
  ghost predicate EndsAt(prev: Graph, a: Name, b: Name, k: nat) {
    && k <= LastRound(prev, a, b)
    && NoStopBefore(prev, a, b, k)
    && (k < LastRound(prev, a, b) ==> StopsAt(prev, a, b, k))
  }

  ghost predicate DeepestOf(next: Graph, prev: Graph, s: set<Name>, x: Name) {
    x in s && forall y, d: nat, e: nat :: y in s && IsDepth(next, prev, x, d) && IsDepth(next, prev, y, e) ==> e <= d
  }

  /** Those of `parents` the other side has met, in order. */
  ghost function Noted(parents: seq<Name>, met: map<Name, nat>): seq<Name> {
    if parents == [] then []
    else Noted(parents[..|parents| - 1], met) + if parents[|parents| - 1] in met then [parents[|parents| - 1]] else []
  }

  /** Parents are noted one by one, in order. */
  lemma {:induction false} NotedSplit(a: seq<Name>, b: seq<Name>, p: Name, met: map<Name, nat>)
    ensures Noted(a + b, met) == Noted(a, met) + Noted(b, met)
    ensures Noted([p], met) == if p in met then [p] else []
    decreases |b|
  {
    if b == [] {
      assert a + b == a;
    } else {
      NotedSplit(a, b[..|b| - 1], p, met);
      assert (a + b)[..|a + b| - 1] == a + b[..|b| - 1];
    }
    assert [p][..0] == [];
  }

  /** The candidates noted in `k` rounds, in order: in each round the first side's parents, then the second's. */
  ghost function Candidates(prev: Graph, a: Name, b: Name, k: nat): seq<Name> {
    if k == 0 then [] else
      var first, second := Rounds(prev, a, k - 1), Rounds(prev, b, k - 1);
      if first.queue == [] || second.queue == [] || first.queue[0].0 !in prev || second.queue[0].0 !in prev
        then Candidates(prev, a, b, k - 1)
      else
        Candidates(prev, a, b, k - 1) + Noted(prev[first.queue[0].0], second.visited)
        + Noted(prev[second.queue[0].0], Rounds(prev, a, k).visited)
  }

  /** The first of the deepest in a list. */
  ghost predicate FirstDeepest(next: Graph, prev: Graph, s: seq<Name>, x: Name) {
    exists i :: 0 <= i < |s| && s[i] == x && forall j, d: nat, e: nat ::
      0 <= j < |s| && IsDepth(next, prev, x, d) && IsDepth(next, prev, s[j], e) ==> e <= d && (j < i ==> e < d)
  }

  /** What `FindLca` answers on two nodes of the graph. */
  ghost predicate LcaAnswer(next: Graph, prev: Graph, a: Name, b: Name, r: Option<Name>) {
    if Reach(next, a, b) then r == Some(a)
    else if Reach(next, b, a) then r == Some(b)
    else if Common(prev, a, b, LastRound(prev, a, b)) == {} then r == None
    else r.Some? && exists k :: EndsAt(prev, a, b, k) && DeepestOf(next, prev, Common(prev, a, b, k), r.value)
  }

  /** What every round of a search from `n` keeps. */
  ghost predicate SideOk(prev: Graph, n: Name, s: Side, k: nat) {
    && n in s.visited && s.visited.Keys <= Ancestors(prev, n)
    && |s.visited.Keys| == k + |s.queue|
    && (forall i :: 0 <= i < |s.queue| ==> s.queue[i].0 in s.visited)
    && forall u, v :: u in s.visited && Edge(prev, u, v) && v !in s.visited ==> Queued(s, u)
  }

  /** Meeting parents adds each new one to both the queue and the nodes met. */
  lemma {:induction false} MeetAllKeeps(prev: Graph, n: Name, s: Side, parents: seq<Name>, d: nat)
    requires n in s.visited && s.visited.Keys <= Ancestors(prev, n)
    requires forall p :: p in parents ==> p in Ancestors(prev, n)
    ensures var r := MeetAll(s, parents, d);
      && s.visited.Keys <= r.visited.Keys <= Ancestors(prev, n)
      && (forall p :: p in parents ==> p in r.visited)
      && |r.visited.Keys| - |r.queue| == |s.visited.Keys| - |s.queue|
    decreases |parents|
  {
    if parents != [] {
      var rest, p := parents[..|parents| - 1], parents[|parents| - 1];
      MeetAllKeeps(prev, n, s, rest, d);
      var q := MeetAll(s, rest, d);
      if p !in q.visited {
        assert Meet(q, p, d).visited.Keys == q.visited.Keys + {p};
      }
    }
  }

  ghost predicate Queued(s: Side, u: Name) {
    exists i :: 0 <= i < |s.queue| && s.queue[i].0 == u
  }

  lemma {:induction false} MeetAllQueues(s: Side, parents: seq<Name>, d: nat)
    requires forall i :: 0 <= i < |s.queue| ==> s.queue[i].0 in s.visited
    ensures var r := MeetAll(s, parents, d);
      && s.queue <= r.queue
      && (forall i :: 0 <= i < |r.queue| ==> r.queue[i].0 in r.visited)
      && (forall u :: u in r.visited && u !in s.visited ==> Queued(r, u))
    decreases |parents|
  {
    if parents != [] {
      var rest, p := parents[..|parents| - 1], parents[|parents| - 1];
      MeetAllQueues(s, rest, d);
      var q := MeetAll(s, rest, d);
      var r := Meet(q, p, d);
      if p !in q.visited {
        assert r.queue[|q.queue|] == (p, d);
        forall u | u in r.visited && u !in s.visited ensures Queued(r, u) {
          if u != p {
            assert Queued(q, u);
            var i :| 0 <= i < |q.queue| && q.queue[i].0 == u;
            assert r.queue[i].0 == u;
          }
        }
      }
    }
  }

  /** A round with a non-empty queue expands exactly one more node. */
  lemma AdvanceKeeps(prev: Graph, n: Name, s: Side, k: nat)
    requires Closed(prev) && SideOk(prev, n, s, k) && s.queue != []
    ensures s.queue[0].0 in prev && SideOk(prev, n, Advance(prev, s), k + 1)
    ensures s.visited.Keys <= Advance(prev, s).visited.Keys
  {
    var x := s.queue[0].0;
    assert x in s.visited.Keys;
    var popped := s.(queue := s.queue[1..]);
    forall i | 0 <= i < |popped.queue| ensures popped.queue[i].0 in s.visited {
      assert popped.queue[i] == s.queue[i + 1];
    }
    forall p | p in prev[x] ensures p in Ancestors(prev, n) {
      ReachStep(prev, n, x, p);
    }
    MeetAllKeeps(prev, n, popped, prev[x], s.queue[0].1 + 1);
    MeetAllQueues(popped, prev[x], s.queue[0].1 + 1);
    var r := Advance(prev, s);
    forall u, v | u in r.visited && Edge(prev, u, v) && v !in r.visited ensures Queued(r, u) {
      if u in s.visited {
        assert Queued(s, u);
        var i :| 0 <= i < |s.queue| && s.queue[i].0 == u;
        assert i > 0;
        assert popped.queue[i - 1] == s.queue[i] && r.queue[i - 1] == popped.queue[i - 1];
      }
    }
  }

  lemma StartOk(prev: Graph, n: Name)
    requires n in prev
    ensures SideOk(prev, n, Start(n), 0)
  {
    ReachSelf(prev, n);
    assert Start(n).queue[0].0 == n;
  }

  /** The queue runs dry after exactly as many rounds as there are ancestors, and then all are met. */
  lemma DryMeansAll(prev: Graph, n: Name, s: Side, k: nat)
    requires Closed(prev) && SideOk(prev, n, s, k)
    ensures s.queue == [] <==> k == |Ancestors(prev, n)|
    ensures k <= |Ancestors(prev, n)|
    ensures s.queue == [] ==> s.visited.Keys == Ancestors(prev, n)
  {
    SubsetSize(s.visited.Keys, Ancestors(prev, n));
    if s.queue == [] {
      forall m | m in Ancestors(prev, n) ensures m in s.visited.Keys {
        ReachStaysIn(prev, s.visited.Keys, n, m);
      }
      assert s.visited.Keys == Ancestors(prev, n);
    }
  }

  lemma {:induction false} MeetAllGrows(s: Side, parents: seq<Name>, d: nat)
    ensures s.visited.Keys <= MeetAll(s, parents, d).visited.Keys
    decreases |parents|
  {
    if parents != [] {
      MeetAllGrows(s, parents[..|parents| - 1], d);
    }
  }

  /** A search never forgets a node it has met. */
  lemma {:induction false} RoundsGrow(prev: Graph, n: Name, j: nat, k: nat)
    requires j <= k
    ensures Rounds(prev, n, j).visited.Keys <= Rounds(prev, n, k).visited.Keys
    decreases k
  {
    if j < k {
      RoundsGrow(prev, n, j, k - 1);
      var s := Rounds(prev, n, k - 1);
      if s.queue != [] && s.queue[0].0 in prev {
        MeetAllGrows(s.(queue := s.queue[1..]), prev[s.queue[0].0], s.queue[0].1 + 1);
      }
    }
  }

  /** While rounds last, a search expands one node a round and runs dry exactly when all ancestors are met. */
  lemma {:induction false} RoundOk(prev: Graph, n: Name, k: nat)
    requires Closed(prev) && n in prev && k <= |Ancestors(prev, n)|
    ensures SideOk(prev, n, Rounds(prev, n, k), k)
    ensures Rounds(prev, n, k).queue == [] <==> k == |Ancestors(prev, n)|
    ensures Rounds(prev, n, k).queue == [] ==> Rounds(prev, n, k).visited.Keys == Ancestors(prev, n)
    ensures Rounds(prev, n, k).queue != [] ==> Rounds(prev, n, k).queue[0].0 in prev
  {
    if k == 0 {
      StartOk(prev, n);
    } else {
      RoundOk(prev, n, k - 1);
      AdvanceKeeps(prev, n, Rounds(prev, n, k - 1), k - 1);
    }
    DryMeansAll(prev, n, Rounds(prev, n, k), k);
    assert forall x :: x in Rounds(prev, n, k).visited.Keys ==> x in prev;
  }

  /** One more round is one head taken and its parents met; the level follows the heads taken. */
  lemma RoundStep(prev: Graph, n: Name, k: nat, head: Name, d: nat)
    requires Rounds(prev, n, k).queue != [] && Rounds(prev, n, k).queue[0] == (head, d) && head in prev
    ensures Rounds(prev, n, k + 1) ==
      MeetAll(Side(Rounds(prev, n, k).queue[1..], Rounds(prev, n, k).visited), prev[head], d + 1)
    ensures LevelAfter(prev, n, k + 1) == if d > LevelAfter(prev, n, k) then d else LevelAfter(prev, n, k)
  {
  }

  lemma NoStopYet(prev: Graph, a: Name, b: Name, k: nat, candidates: seq<Name>)
    requires NoStopBefore(prev, a, b, k) && forall x :: x in candidates <==> x in Common(prev, a, b, k)
    requires candidates == [] || (Rounds(prev, a, k).queue != [] &&
      Rounds(prev, a, k).queue[0].1 <= LevelAfter(prev, a, k))
    ensures NoStopBefore(prev, a, b, k + 1)
  {
    assert candidates == [] ==> Common(prev, a, b, k) == {};
    assert !StopsAt(prev, a, b, k);
  }

  lemma NotDry(prev: Graph, a: Name, b: Name, k: nat)
    requires Closed(prev) && a in prev && b in prev && k <= LastRound(prev, a, b)
    requires Rounds(prev, a, k).queue != [] && Rounds(prev, b, k).queue != []
    ensures k < LastRound(prev, a, b) && Rounds(prev, a, k).queue[0].0 in prev && Rounds(prev, b, k).queue[0].0 in prev
  {
    RoundOk(prev, a, k);
    RoundOk(prev, b, k);
  }

  lemma DryEnds(prev: Graph, a: Name, b: Name, k: nat)
    requires Closed(prev) && a in prev && b in prev && k <= LastRound(prev, a, b) && NoStopBefore(prev, a, b, k)
    requires Rounds(prev, a, k).queue == [] || Rounds(prev, b, k).queue == []
    ensures EndsAt(prev, a, b, k)
  {
    RoundOk(prev, a, k);
    RoundOk(prev, b, k);
  }

  lemma DepthUnique(next: Graph, prev: Graph, n: Name, d: nat, e: nat)
    requires IsDepth(next, prev, n, d) && IsDepth(next, prev, n, e)
    ensures d == e
  {
  }

  lemma CommonGrows(prev: Graph, a: Name, b: Name, j: nat, k: nat)
    requires j <= k
    ensures Common(prev, a, b, j) <= Common(prev, a, b, k)
  {
    RoundsGrow(prev, a, j, k);
    RoundsGrow(prev, b, j, k);
  }

  /** Whatever both searches have met is an ancestor of both nodes. */
  lemma CommonAreAncestors(next: Graph, prev: Graph, a: Name, b: Name, k: nat)
    requires Inverse(next, prev) && a in next && b in next && k <= LastRound(prev, a, b)
    ensures forall x :: x in Common(prev, a, b, k) ==> x in next && Reach(next, x, a) && Reach(next, x, b)
  {
    InverseClosed(next, prev);
    RoundOk(prev, a, k);
    RoundOk(prev, b, k);
    forall x | x in Common(prev, a, b, k) ensures x in next && Reach(next, x, a) && Reach(next, x, b) {
      assert x in Ancestors(prev, a) && x in Ancestors(prev, b);
      InverseReach(next, prev, x, a);
      InverseReach(next, prev, x, b);
    }
  }

  // ----- what an answer means -----

  /** Whatever the search answers is an ancestor-or-self of both nodes. */
  lemma AnswerIsCommonAncestor(next: Graph, prev: Graph, a: Name, b: Name, x: Name)
    requires Inverse(next, prev) && a in next && b in next && LcaAnswer(next, prev, a, b, Some(x))
    ensures Reach(next, x, a) && Reach(next, x, b)
  {
    ReachSelf(next, a);
    ReachSelf(next, b);
    if !Reach(next, a, b) && !Reach(next, b, a) {
      var k :| EndsAt(prev, a, b, k) && DeepestOf(next, prev, Common(prev, a, b, k), x);
      CommonAreAncestors(next, prev, a, b, k);
    }
  }

  // ----- depths -----

  /** The entry `(n, d)` of the depth queue was reached along a path of `d` edges. */
  ghost predicate EntriesReached(next: Graph, prev: Graph, queue: seq<(Name, nat)>) {
    && (forall i :: 0 <= i < |queue| ==> queue[i].0 in next)
    && (forall i {:trigger RootPath(next, prev, queue[i].0, queue[i].1)} :: 0 <= i < |queue| ==>
         RootPath(next, prev, queue[i].0, queue[i].1))
  }

  /** `n` is known at depth `d` or deeper, or still queued so. */
  ghost predicate Covered(cache: map<Name, nat>, queue: seq<(Name, nat)>, n: Name, d: nat) {
    (n in cache && d <= cache[n]) || exists i :: 0 <= i < |queue| && queue[i].0 == n && d <= queue[i].1
  }

  ghost predicate AllCovered(next: Graph, prev: Graph, cache: map<Name, nat>, queue: seq<(Name, nat)>) {
    && (forall r {:trigger Covered(cache, queue, r, 0)} :: IsRoot(prev, r) ==> Covered(cache, queue, r, 0))
    && (forall u, c {:trigger Edge(next, u, c)} :: u in cache && Edge(next, u, c) ==>
         Covered(cache, queue, c, cache[u] + 1))
  }

  ghost function QueueNames(queue: seq<(Name, nat)>): (r: seq<Name>)
    ensures |r| == |queue| && forall i :: 0 <= i < |queue| ==> r[i] == queue[i].0
  {
    seq(|queue|, i requires 0 <= i < |queue| => queue[i].0)
  }

  lemma {:induction false} CoveredMeansDeepest(next: Graph, prev: Graph, cache: map<Name, nat>, p: seq<Name>)
    requires AllCovered(next, prev, cache, []) && IsPath(next, p) && IsRoot(prev, p[0])
    ensures p[|p| - 1] in cache && |p| - 1 <= cache[p[|p| - 1]]
    decreases |p|
  {
    if |p| == 1 {
      assert Covered(cache, [], p[0], 0);
    } else {
      var q := p[..|p| - 1];
      forall k | 0 <= k < |q| - 1 ensures EdgeAt(next, q, k) {
        assert EdgeAt(next, p, k);
      }
      CoveredMeansDeepest(next, prev, cache, q);
      assert EdgeAt(next, p, |p| - 2);
      assert Covered(cache, [], p[|p| - 1], cache[p[|p| - 2]] + 1);
    }
  }

  /** An empty queue leaves every node at its depth. */
  lemma DepthsFinal(next: Graph, prev: Graph, cache: map<Name, nat>)
    requires Inverse(next, prev) && Acyclic(next) && cache.Keys <= next.Keys
    requires AllCovered(next, prev, cache, []) && forall n {:trigger RootPath(next, prev, n, cache[n])} ::
      n in cache ==> RootPath(next, prev, n, cache[n])
    ensures cache.Keys == next.Keys && forall n {:trigger IsDepth(next, prev, n, cache[n])} :: n in cache ==>
      IsDepth(next, prev, n, cache[n])
  {
    forall n, e: nat | RootPath(next, prev, n, e) ensures n in cache && e <= cache[n] {
      var p :| IsPath(next, p) && IsRoot(prev, p[0]) && p[|p| - 1] == n && |p| == e + 1;
      CoveredMeansDeepest(next, prev, cache, p);
    }
    forall n | n in next ensures n in cache {
      var d := SomeRootAbove(next, prev, n);
    }
  }

  /** Processing the entry `(n, d)`: its node is now at least as deep, its successors are queued one deeper. */
  lemma ProcessEntry(next: Graph, prev: Graph, cache: map<Name, nat>, queue: seq<(Name, nat)>,
                     cache': map<Name, nat>, added: seq<(Name, nat)>)
    requires Inverse(next, prev) && queue != [] && AllCovered(next, prev, cache, queue)
    requires EntriesReached(next, prev, queue) && forall n {:trigger RootPath(next, prev, n, cache[n])} ::
      n in cache ==> RootPath(next, prev, n, cache[n])
    requires var (n, d) := queue[0];
      && cache' == cache[n := if n in cache && cache[n] >= d then cache[n] else d]
      && |added| == |next[n]| && forall i :: 0 <= i < |added| ==> added[i] == (next[n][i], d + 1)
    ensures AllCovered(next, prev, cache', queue[1..] + added)
    ensures EntriesReached(next, prev, queue[1..] + added)
    ensures forall n {:trigger RootPath(next, prev, n, cache'[n])} :: n in cache' ==> RootPath(next, prev, n, cache'[n])
  {
    InverseClosed(next, prev);
    var (n, d) := queue[0];
    var queue' := queue[1..] + added;
    forall m, e: nat | Covered(cache, queue, m, e) ensures Covered(cache', queue', m, e) {
      if !(m in cache && e <= cache[m]) {
        var i :| 0 <= i < |queue| && queue[i].0 == m && e <= queue[i].1;
        if i > 0 {
          assert queue'[i - 1] == queue[i];
        }
      }
    }
    forall u, c | u in cache' && Edge(next, u, c) ensures Covered(cache', queue', c, cache'[u] + 1) {
      if u == n && cache'[u] == d {
        var i :| 0 <= i < |next[n]| && next[n][i] == c;
        assert queue'[|queue| - 1 + i] == (c, d + 1);
      } else {
        assert Covered(cache, queue, c, cache[u] + 1);
      }
    }
    forall i | 0 <= i < |queue'| ensures queue'[i].0 in next && RootPath(next, prev, queue'[i].0, queue'[i].1) {
      if i < |queue| - 1 {
        assert queue'[i] == queue[i + 1];
      } else {
        var c := next[n][i - |queue| + 1];
        assert Edge(next, n, c);
        RootPathStep(next, prev, n, d, c);
      }
    }
  }

  /** An entry is worth one more than the entries it is replaced by. */
  lemma EntryWork(next: Graph, queue: seq<(Name, nat)>, added: seq<(Name, nat)>)
    requires Closed(next) && Acyclic(next) && queue != [] && forall n :: n in QueueNames(queue) ==> n in next
    requires queue[0].0 in next && |added| == |next[queue[0].0]|
    requires forall i :: 0 <= i < |added| ==> added[i].0 == next[queue[0].0][i]
    ensures forall n :: n in QueueNames(queue[1..] + added) ==> n in next
    ensures QueueWork(next, QueueNames(queue[1..] + added)) < QueueWork(next, QueueNames(queue))
  {
    var node := queue[0].0;
    WorkOfNode(next, node);
    assert QueueNames(queue)[1..] == QueueNames(queue[1..]);
    assert QueueNames(queue[1..] + added) == QueueNames(queue[1..]) + next[node];
    QueueWorkConcat(next, QueueNames(queue[1..]), next[node]);
  }

  class LCASolver {
    const order: seq<Name>
    const next: Graph
    const prev: Graph
    var depthCache: map<Name, nat>
    var ancestorCache: map<Name, set<Name>>

    ghost predicate Valid()
      reads this
    {
      && Inverse(next, prev)
      && depthCache.Keys == next.Keys
      && (forall n {:trigger IsDepth(next, prev, n, depthCache[n])} :: n in depthCache ==>
           IsDepth(next, prev, n, depthCache[n]))
      && (forall n :: n in ancestorCache ==> n in prev && ancestorCache[n] == Ancestors(prev, n))
    }

    constructor (order: seq<Name>, next: Graph, prev: Graph)
      requires Inverse(next, prev) && Acyclic(next) && Elements(order) == next.Keys
      ensures Valid() && this.next == next && this.prev == prev
    {
      this.order := order;
      this.next := next;
      this.prev := prev;
      this.depthCache := map[];
      this.ancestorCache := map[];
      new;
      PrecomputeDepths();
    }

    /** The depth queue starts with every root, at depth zero. */
    method RootEntries() returns (queue: seq<(Name, nat)>)
      requires Inverse(next, prev) && Elements(order) == next.Keys
      ensures EntriesReached(next, prev, queue) && AllCovered(next, prev, map[], queue)
      ensures forall n :: n in QueueNames(queue) ==> n in next
    {
      queue := [];
      for i := 0 to |order|
        invariant EntriesReached(next, prev, queue)
        invariant forall j :: 0 <= j < i && IsRoot(prev, order[j]) ==> (order[j], 0) in queue
      {
        assert order[i] in Elements(order);
        if prev[order[i]] == [] {
          RootPathSelf(next, prev, order[i]);
          queue := queue + [(order[i], 0)];
        }
      }
      forall r | IsRoot(prev, r) ensures Covered(map[], queue, r, 0) {
        assert r in Elements(order);
        var i :| 0 <= i < |queue| && queue[i] == (r, 0);
      }
    }

    /** Label-correcting breadth-first search from all roots. */
    method PrecomputeDepths()
      requires Inverse(next, prev) && Acyclic(next) && Elements(order) == next.Keys
      requires depthCache == map[] && ancestorCache == map[]
      modifies this`depthCache
      ensures Valid()
    {
      InverseClosed(next, prev);
      var queue := RootEntries();
      while queue != []
        invariant EntriesReached(next, prev, queue) && AllCovered(next, prev, depthCache, queue)
        invariant depthCache.Keys <= next.Keys && ancestorCache == map[]
        invariant forall n {:trigger RootPath(next, prev, n, depthCache[n])} :: n in depthCache ==>
          RootPath(next, prev, n, depthCache[n])
        invariant forall n :: n in QueueNames(queue) ==> n in next
        decreases QueueWork(next, QueueNames(queue))
      {
        var (node, depth) := queue[0];
        ghost var wasQueue, wasCache := queue, depthCache;
        queue := queue[1..];
        if node in depthCache {
          depthCache := depthCache[node := if depthCache[node] >= depth then depthCache[node] else depth];
        } else {
          depthCache := depthCache[node := depth];
        }
        ghost var added: seq<(Name, nat)> := [];
        for i := 0 to |next[node]|
          invariant queue == wasQueue[1..] + added && |added| == i
          invariant forall j :: 0 <= j < i ==> added[j] == (next[node][j], depth + 1)
        {
          queue := queue + [(next[node][i], depth + 1)];
          added := added + [(next[node][i], depth + 1)];
        }
        ProcessEntry(next, prev, wasCache, wasQueue, depthCache, added);
        EntryWork(next, wasQueue, added);
      }
      DepthsFinal(next, prev, depthCache);
    }

    /** Depth-first collection of all ancestors, remembered for the next call. */
    method GetAncestors(node: Name) returns (r: Result<set<Name>, LcaError>)
      requires Valid()
      modifies this`ancestorCache
      ensures Valid()
      ensures r == if node in prev then Success(Ancestors(prev, node)) else Failure(NoSuchNode)
      ensures ancestorCache.Keys == old(ancestorCache).Keys + if node in prev then {node} else {}
    {
      InverseClosed(next, prev);
      if node !in prev {
        return Failure(NoSuchNode);
      }
      if node !in ancestorCache {
        var ancestors: set<Name> := {};
        var stack := [node];
        ReachSelf(prev, node);
        while stack != []
          invariant ancestors <= Ancestors(prev, node)
          invariant forall i :: 0 <= i < |stack| ==> stack[i] in Ancestors(prev, node)
          invariant node in ancestors || node in stack
          invariant forall u, v :: u in ancestors && Edge(prev, u, v) ==> v in ancestors || v in stack
          decreases prev.Keys - ancestors, |stack|
        {
          var current := stack[|stack| - 1];
          ghost var was := stack;
          stack := stack[..|stack| - 1];
          assert forall x :: x in was ==> x == current || x in stack;
          if current !in ancestors {
            forall p | p in prev[current] ensures p in Ancestors(prev, node) {
              ReachStep(prev, node, current, p);
            }
            ancestors := ancestors + {current};
            stack := stack + prev[current];
          }
        }
        forall m | m in Ancestors(prev, node) ensures m in ancestors {
          ReachStaysIn(prev, ancestors, node, m);
        }
        ancestorCache := ancestorCache[node := ancestors];
      }
      return Success(ancestorCache[node]);
    }

    /** The first candidate of greatest depth. */
    method Deepest(candidates: seq<Name>) returns (best: Name)
      requires Valid() && candidates != [] && forall x :: x in candidates ==> x in depthCache
      ensures best in candidates && forall x :: x in candidates ==> depthCache[x] <= depthCache[best]
      ensures FirstDeepest(next, prev, candidates, best)
    {
      best := candidates[0];
      ghost var at := 0;
      for i := 1 to |candidates|
        invariant 0 <= at < i && best == candidates[at]
        invariant forall j :: 0 <= j < i ==> depthCache[candidates[j]] <= depthCache[best]
        invariant forall j :: 0 <= j < at ==> depthCache[candidates[j]] < depthCache[best]
      {
        if depthCache[candidates[i]] > depthCache[best] {
          best, at := candidates[i], i;
        }
      }
      forall j, d: nat, e: nat | 0 <= j < |candidates| && IsDepth(next, prev, best, d) &&
        IsDepth(next, prev, candidates[j], e)
        ensures e <= d && (j < at ==> e < d)
      {
        DepthUnique(next, prev, best, d, depthCache[best]);
        DepthUnique(next, prev, candidates[j], e, depthCache[candidates[j]]);
      }
    }

    /** The inner loops: meets the parents of `node` on one side, noting those the other side has met. */
    method MeetParents(node: Name, d: nat, queue0: seq<(Name, nat)>, visited0: map<Name, nat>,
                       other: map<Name, nat>, candidates0: seq<Name>)
      returns (queue: seq<(Name, nat)>, visited: map<Name, nat>, candidates: seq<Name>)
      requires node in prev
      requires forall x :: x in candidates0 <==> x in visited0 && x in other
      ensures Side(queue, visited) == MeetAll(Side(queue0, visited0), prev[node], d)
      ensures candidates == candidates0 + Noted(prev[node], other)
      ensures forall x :: x in candidates <==> x in visited && x in other
    {
      queue, visited, candidates := queue0, visited0, candidates0;
      for i := 0 to |prev[node]|
        invariant Side(queue, visited) == MeetAll(Side(queue0, visited0), prev[node][..i], d)
        invariant candidates == candidates0 + Noted(prev[node][..i], other)
        invariant forall x :: x in candidates <==> x in visited && x in other
      {
        var parent := prev[node][i];
        assert prev[node][..i + 1][..i] == prev[node][..i];
        if parent in other {
          candidates := candidates + [parent];
        }
        if parent !in visited {
          visited := visited[parent := d];
          queue := queue + [(parent, d)];
        }
      }
      assert prev[node][..|prev[node]|] == prev[node];
    }

    method FindLca(a: Name, b: Name) returns (r: Result<Name, LcaError>)
      requires Valid()
      modifies this`ancestorCache
      ensures Valid()
      ensures a !in next || b !in next ==> r == Failure(NoSuchNode)
      ensures a in next && b in next ==>
        LcaAnswer(next, prev, a, b, if r.Success? then Some(r.value) else None) && r != Failure(NoSuchNode)
      ensures r.Success? && !Reach(next, a, b) && !Reach(next, b, a) ==>
        exists k :: EndsAt(prev, a, b, k) && FirstDeepest(next, prev, Candidates(prev, a, b, k), r.value)
    {
      InverseReach(next, prev, a, b);
      InverseReach(next, prev, b, a);
      var above := GetAncestors(b);
      if above.Failure? { return Failure(NoSuchNode); }
      if a in above.value { return Success(a); }
      above := GetAncestors(a);
      if above.Failure? { return Failure(NoSuchNode); }
      if b in above.value { return Success(b); }
      r := SearchBothSides(a, b);
    }

    /** One side takes the head of its queue and meets its parents. */
    method OneSide(n: Name, ghost k: nat, queue0: seq<(Name, nat)>, visited0: map<Name, nat>, other: map<Name, nat>,
                   candidates0: seq<Name>)
      returns (queue: seq<(Name, nat)>, visited: map<Name, nat>, candidates: seq<Name>)
      requires queue0 != [] && queue0[0].0 in prev && Side(queue0, visited0) == Rounds(prev, n, k)
      requires forall x :: x in candidates0 <==> x in visited0 && x in other
      ensures Side(queue, visited) == Rounds(prev, n, k + 1)
      ensures candidates == candidates0 + Noted(prev[queue0[0].0], other)
      ensures forall x :: x in candidates <==> x in visited && x in other
    {
      var (node, depth) := queue0[0];
      RoundStep(prev, n, k, node, depth);
      queue, visited, candidates := MeetParents(node, depth + 1, queue0[1..], visited0, other, candidates0);
    }

    /** One round: the head of each queue meets its parents, first forward, then backward. */
    method Round(a: Name, b: Name, ghost k: nat, candidates0: seq<Name>, fq0: seq<(Name, nat)>, fm0: map<Name, nat>,
                 bq0: seq<(Name, nat)>, bm0: map<Name, nat>)
      returns (candidates: seq<Name>, fq: seq<(Name, nat)>, fm: map<Name, nat>, bq: seq<(Name, nat)>,
        bm: map<Name, nat>)
      requires fq0 != [] && bq0 != [] && fq0[0].0 in prev && bq0[0].0 in prev
      requires Side(fq0, fm0) == Rounds(prev, a, k) && Side(bq0, bm0) == Rounds(prev, b, k)
      requires candidates0 == Candidates(prev, a, b, k) && forall x :: x in candidates0 <==> x in fm0 && x in bm0
      ensures Side(fq, fm) == Rounds(prev, a, k + 1) && Side(bq, bm) == Rounds(prev, b, k + 1)
      ensures candidates == Candidates(prev, a, b, k + 1)
      ensures forall x :: x in candidates <==> x in fm && x in bm
    {
      fq, fm, candidates := OneSide(a, k, fq0, fm0, bm0, candidates0);
      bq, bm, candidates := OneSide(b, k, bq0, bm0, fm, candidates);
    }

    /** The loop: both sides advance one node a round, until one is dry or the searches stop at a met level. */
    method SearchRounds(a: Name, b: Name) returns (candidates: seq<Name>, ghost k: nat)
      requires Inverse(next, prev) && a in next && b in next && a != b
      ensures candidates == Candidates(prev, a, b, k) && forall x :: x in candidates <==> x in Common(prev, a, b, k)
      ensures EndsAt(prev, a, b, k)
    {
      InverseClosed(next, prev);
      var forwardVisited, backwardVisited := map[a := 0], map[b := 0];
      var forwardQueue, backwardQueue: seq<(Name, nat)> := [(a, 0)], [(b, 0)];
      var currentDepth := 0;
      candidates, k := [], 0;
      while forwardQueue != [] && backwardQueue != []
        invariant k <= LastRound(prev, a, b)
        invariant Side(forwardQueue, forwardVisited) == Rounds(prev, a, k)
        invariant Side(backwardQueue, backwardVisited) == Rounds(prev, b, k)
        invariant candidates == Candidates(prev, a, b, k)
        invariant forall x :: x in candidates <==> x in forwardVisited && x in backwardVisited
        invariant currentDepth == LevelAfter(prev, a, k)
        invariant NoStopBefore(prev, a, b, k)
        decreases LastRound(prev, a, b) - k
      {
        NotDry(prev, a, b, k);
        var depth := forwardQueue[0].1;
        if depth > currentDepth && candidates != [] {
          assert candidates[0] in Common(prev, a, b, k);
          return;
        }
        NoStopYet(prev, a, b, k, candidates);
        RoundStep(prev, a, k, forwardQueue[0].0, depth);
        if depth > currentDepth {
          currentDepth := depth;
        }
        candidates, forwardQueue, forwardVisited, backwardQueue, backwardVisited :=
          Round(a, b, k, candidates, forwardQueue, forwardVisited, backwardQueue, backwardVisited);
        k := k + 1;
      }
      DryEnds(prev, a, b, k);
    }

    method SearchBothSides(a: Name, b: Name) returns (r: Result<Name, LcaError>)
      requires Valid() && a in next && b in next && !Reach(next, a, b) && !Reach(next, b, a)
      ensures LcaAnswer(next, prev, a, b, if r.Success? then Some(r.value) else None) && r != Failure(NoSuchNode)
      ensures r.Success? ==> exists k ::
        EndsAt(prev, a, b, k) && FirstDeepest(next, prev, Candidates(prev, a, b, k), r.value)
    {
      ReachSelf(next, a);
      var candidates;
      ghost var k;
      candidates, k := SearchRounds(a, b);
      CommonGrows(prev, a, b, k, LastRound(prev, a, b));
      if candidates == [] {
        return Failure(NoCommonAncestor);
      }
      assert candidates[0] in Common(prev, a, b, LastRound(prev, a, b));
      CommonAreAncestors(next, prev, a, b, k);
      var best := Deepest(candidates);
      forall y, d: nat, e: nat | y in Common(prev, a, b, k) && IsDepth(next, prev, best, d) && IsDepth(next, prev, y, e)
        ensures e <= d
      {
        DepthUnique(next, prev, best, d, depthCache[best]);
        DepthUnique(next, prev, y, e, depthCache[y]);
      }
      assert DeepestOf(next, prev, Common(prev, a, b, k), best);
      return Success(best);
    }
  }
}
