/** Unweighted shortest path by breadth-first search. */
module BreadthFirst {
  import opened Graphs
  import opened Backtrack
  import opened PathWeights
  import opened Wrappers

  /** Every successor of `u` among the first `k` is at most one level further. */
  ghost predicate Explored(g: Graph, level: map<Name, nat>, u: Name, k: nat)
    requires u in g && u in level
  {
    forall i :: 0 <= i < k && i < |g[u]| ==> g[u][i] in level && level[g[u][i]] <= level[u] + 1
  }

  ghost predicate DoneOk(g: Graph, level: map<Name, nat>, done: set<Name>) {
    && done <= level.Keys && level.Keys <= g.Keys
    && forall u {:trigger Explored(g, level, u, |g[u]|)} :: u in done ==> Explored(g, level, u, |g[u]|)
  }

  ghost predicate Levelled(g: Graph, src: Name, level: map<Name, nat>, pred: map<Name, Name>, v: Name)
    requires v in level
  {
    v == src || (v in pred && pred[v] in level && Edge(g, pred[v], v) && level[v] == level[pred[v]] + 1)
  }

  ghost predicate LevelsOk(g: Graph, src: Name, level: map<Name, nat>, pred: map<Name, Name>) {
    && src in level && level[src] == 0
    && (forall v {:trigger Levelled(g, src, level, pred, v)} :: v in level ==> Levelled(g, src, level, pred, v))
    && pred.Keys == level.Keys - {src}
  }

  /** The queue is sorted by level and spans at most the levels `low` and `low + 1`. */
  ghost predicate QueueOk(level: map<Name, nat>, queue: seq<Name>, done: set<Name>, low: nat) {
    && Distinct(queue)
    && (forall v :: v in level ==> level[v] <= low + 1)
    && (forall i :: 0 <= i < |queue| ==> queue[i] in level && queue[i] !in done && low <= level[queue[i]] <= low + 1)
    && (forall i, j :: 0 <= i < j < |queue| ==> level[queue[i]] <= level[queue[j]])
  }

  /** No path is shorter than the least queued level, unless its end is already levelled as low. */
  lemma {:induction false} LevelBoundsPath(g: Graph, src: Name, level: map<Name, nat>, queue: seq<Name>,
                                           done: set<Name>,
                                           least: nat, p: seq<Name>)
    requires Closed(g) && src in level && level[src] == 0 && DoneOk(g, level, done)
    requires forall v :: v in level && v !in done ==> least <= level[v]
    requires IsPath(g, p) && p[0] == src
    ensures least <= |p| - 1 || (p[|p| - 1] in level && level[p[|p| - 1]] <= |p| - 1)
    decreases |p|
  {
    if |p| > 1 {
      var q := p[..|p| - 1];
      PathSlice(g, p, 0, |p| - 1);
      assert q == p[0..|p| - 1];
      LevelBoundsPath(g, src, level, queue, done, least, q);
      assert EdgeAt(g, p, |p| - 2);
      if |q| - 1 < least {
        assert Explored(g, level, p[|p| - 2], |g[p[|p| - 2]]|);
      }
    }
  }

  lemma NothingQueued(g: Graph, src: Name, level: map<Name, nat>, done: set<Name>, dest: Name)
    requires src in level && DoneOk(g, level, done) && level.Keys <= done
    requires Reach(g, src, dest)
    ensures dest in level
  {
    forall u, v | u in level.Keys && Edge(g, u, v) ensures v in level.Keys {
      assert Explored(g, level, u, |g[u]|);
    }
    ReachStaysIn(g, level.Keys, src, dest);
  }

  lemma {:induction false} PathBackLength(g: Graph, src: Name, level: map<Name, nat>, pred: map<Name, Name>,
                                          p: seq<Name>, i: nat)
    requires LevelsOk(g, src, level, pred) && FollowsAll(src, pred, p)
    requires i < |p| && p[0] == src && forall n :: n in p ==> n in level
    ensures level[p[i]] == i
  {
    if i > 0 {
      PathBackLength(g, src, level, pred, p, i - 1);
      assert Follows(src, pred, p, i - 1);
      assert Levelled(g, src, level, pred, p[i]);
    }
  }

  /** The inner loop: appends every successor of `current` not met before. */
  method Visit(g: Graph, src: Name, current: Name, pred0: map<Name, Name>, queue0: seq<Name>, visited0: set<Name>,
               ghost level0: map<Name, nat>, ghost done: set<Name>)
    returns (pred: map<Name, Name>, queue: seq<Name>, visited: set<Name>, ghost level: map<Name, nat>)
    requires Closed(g) && LevelsOk(g, src, level0, pred0) && visited0 == level0.Keys && current in level0
    requires current in done && done <= level0.Keys && DoneOk(g, level0, done - {current})
    requires QueueOk(level0, queue0, done, level0[current])
    requires forall v :: v in level0 ==> v in done || v in queue0
    ensures LevelsOk(g, src, level, pred) && DoneOk(g, level, done) && visited == level.Keys && current in level
    ensures level[current] == level0[current] && QueueOk(level, queue, done, level[current])
    ensures forall v :: v in level ==> v in done || v in queue
  {
    pred, queue, visited, level := pred0, queue0, visited0, level0;
    for i := 0 to |g[current]|
      invariant LevelsOk(g, src, level, pred) && visited == level.Keys
      invariant current in level && level[current] == level0[current] && Explored(g, level, current, i)
      invariant QueueOk(level, queue, done, level[current])
      invariant done <= level.Keys && DoneOk(g, level, done - {current})
      invariant forall v :: v in level ==> v in done || v in queue
    {
      var child := g[current][i];
      assert Edge(g, current, child);
      if child !in visited {
        AddLevel(g, src, level, pred, queue, done, current, child);
        ghost var was := level;
        visited := visited + {child};
        pred := pred[child := current];
        queue := queue + [child];
        level := level[child := level[current] + 1];
        assert queue[|queue| - 1] == child;
        assert Explored(g, was, current, i);
      }
    }
    forall u | u in done ensures Explored(g, level, u, |g[u]|) {
      if u != current {
        assert u in done - {current};
      }
    }
  }

  method ShortestPath(g: Graph, src: Name, dest: Name) returns (r: Result<seq<Name>, PathError>)
    requires Closed(g)
    ensures src !in g || dest !in g ==> r == Failure(UnknownNode)
    ensures src in g && dest in g && !Reach(g, src, dest) ==> r == Failure(NoPath)
    ensures Reach(g, src, dest) ==>
      && r.Success?
      && PathFromTo(g, r.value, src, dest)
      && forall p :: PathFromTo(g, p, src, dest) ==> |r.value| <= |p|
  {
    if src !in g || dest !in g {
      if Reach(g, src, dest) {
        ReachNodes(g, src, dest);
      }
      return Failure(UnknownNode);
    }
    var pred: map<Name, Name> := map[];
    var queue := [src];
    var visited := {src};
    ghost var level: map<Name, nat> := map[src := 0];
    ghost var done: set<Name> := {};
    ghost var low: nat := 0;
    ghost var found := false;
    while queue != []
      invariant LevelsOk(g, src, level, pred) && DoneOk(g, level, done) && QueueOk(level, queue, done, low)
      invariant visited == level.Keys
      invariant forall v :: v in level ==> v in done || v in queue
      invariant dest !in done && !found
      decreases g.Keys - done
    {
      var current := queue[0];
      low := level[current];
      assert forall v :: v in level && v !in done ==> low <= level[v];
      if current == dest {
        forall p | PathFromTo(g, p, src, dest) ensures level[dest] <= |p| - 1 {
          LevelBoundsPath(g, src, level, queue, done, low, p);
        }
        found := true;
        break;
      }
      assert forall i :: 0 <= i < |queue[1..]| ==> queue[1..][i] == queue[i + 1] != current;
      queue := queue[1..];
      done := done + {current};
      pred, queue, visited, level := Visit(g, src, current, pred, queue, visited, level, done);
    }
    if dest !in pred && src != dest {
      if Reach(g, src, dest) {
        NothingQueued(g, src, level, done, dest);
      }
      return Failure(NoPath);
    }
    assert Chained(g, src, pred, level) by {
      forall v | v in level ensures Linked(g, src, pred, level, v) {
        assert Levelled(g, src, level, pred, v);
      }
    }
    var path := PathBack(pred, src, dest, g, level);
    PathBackLength(g, src, level, pred, path, |path| - 1);
    return Success(path);
  }

  /** A newly met successor goes to the end of the queue, one level down. */
  lemma AddLevel(g: Graph, src: Name, level: map<Name, nat>, pred: map<Name, Name>, queue: seq<Name>, done: set<Name>,
                 u: Name, child: Name)
    requires LevelsOk(g, src, level, pred) && u in level && QueueOk(level, queue, done, level[u])
    requires Edge(g, u, child) && child !in level && child in g
    requires DoneOk(g, level, done - {u}) && done <= level.Keys
    ensures var level' := level[child := level[u] + 1];
      && LevelsOk(g, src, level', pred[child := u])
      && QueueOk(level', queue + [child], done, level[u])
      && DoneOk(g, level', done - {u})
  {
    var level' := level[child := level[u] + 1];
    forall v | v in level' ensures Levelled(g, src, level', pred[child := u], v) {
      if v != child {
        assert Levelled(g, src, level, pred, v);
      }
    }
    forall x | x in done - {u} ensures Explored(g, level', x, |g[x]|) {
      assert Explored(g, level, x, |g[x]|);
    }
  }
}
