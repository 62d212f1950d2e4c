/** Rebuilding a path from recorded predecessors, shared by all three path searches. */
module Backtrack {
  import opened Graphs

  /** `v` is the source, or its predecessor has an edge to it and comes earlier in `order`. */
  ghost predicate Linked(g: Graph, src: Name, pred: map<Name, Name>, order: map<Name, nat>, v: Name)
    requires v in order
  {
    v == src || (v in pred && pred[v] in order && Edge(g, pred[v], v) && order[pred[v]] < order[v])
  }

  ghost predicate Chained(g: Graph, src: Name, pred: map<Name, Name>, order: map<Name, nat>) {
    && order.Keys <= g.Keys
    && forall v {:trigger Linked(g, src, pred, order, v)} :: v in order ==> Linked(g, src, pred, order, v)
  }

  /** Node `i + 1` of the path was reached from node `i`. */
  ghost predicate Follows(src: Name, pred: map<Name, Name>, p: seq<Name>, i: int)
    requires 0 <= i < |p| - 1
  {
    p[i + 1] != src && p[i + 1] in pred && pred[p[i + 1]] == p[i]
  }

  ghost predicate FollowsAll(src: Name, pred: map<Name, Name>, p: seq<Name>) {
    forall i :: 0 <= i < |p| - 1 ==> Follows(src, pred, p, i)
  }

  /** Collects the nodes from `dest` back to `src`, then reverses them. */
  method PathBack(pred: map<Name, Name>, src: Name, dest: Name, ghost g: Graph, ghost order: map<Name, nat>)
    returns (path: seq<Name>)
    requires Closed(g) && Chained(g, src, pred, order) && dest in order
    ensures PathFromTo(g, path, src, dest) && FollowsAll(src, pred, path)
    ensures forall n :: n in path ==> n in order
  {
    var back := [];
    var current := dest;
    assert Reversed([dest]) == [dest];
    while current != src
      invariant current in order
      invariant PathFromTo(g, Reversed(back + [current]), current, dest)
      invariant FollowsAll(src, pred, Reversed(back + [current]))
      invariant forall n :: n in back ==> n in order
      decreases order[current]
    {
      assert Linked(g, src, pred, order, current);
      ghost var tail := Reversed(back + [current]);
      back := back + [current];
      var before := pred[current];
      PathCons(g, before, tail);
      assert Reversed(back + [before]) == [before] + tail;
      forall i | 0 <= i < |[before] + tail| - 1 ensures Follows(src, pred, [before] + tail, i) {
        assert i == 0 || Follows(src, pred, tail, i - 1);
      }
      current := before;
    }
    back := back + [src];
    path := Reversed(back);
  }
}
