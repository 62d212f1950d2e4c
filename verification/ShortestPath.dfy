/** Shortest paths: Dijkstra with early exit and stale entries, and breadth-first search. */
module ShortestPath {
  import opened Graphs
  import opened Backtrack
  import opened Heap
  import opened Wrappers
  import opened PathWeights

  ghost predicate NonNegative(g: Graph, w: Name -> real) {
    forall n :: n in g ==> w(n) >= 0.0
  }

  // ----- Dijkstra -----

  /** Nodes in the order Dijkstra expands them; an expanded node's label is final. */
  datatype Progress = Progress(stamp: map<Name, nat>, clock: nat, last: real)

  /** Every successor of `u` is labelled no farther than through `u`. */
  ghost predicate Explored(g: Graph, w: Name -> real, dist: map<Name, real>, u: Name, k: nat)
    requires u in g && u in dist
  {
    forall i :: 0 <= i < k && i < |g[u]| ==> g[u][i] in dist && dist[g[u][i]] <= dist[u] + w(g[u][i])
  }

  ghost predicate Expanded(g: Graph, w: Name -> real, dist: map<Name, real>, t: Progress, u: Name, busy: Option<Name>) {
    && u in dist && u in g
    && dist[u] <= t.last
    && u in t.stamp && t.stamp[u] < t.clock
    && (Some(u) != busy ==> Explored(g, w, dist, u, |g[u]|))
  }

  ghost predicate DoneOk(g: Graph, w: Name -> real, dist: map<Name, real>, t: Progress, busy: Option<Name>) {
    forall u {:trigger Expanded(g, w, dist, t, u, busy)} :: u in t.stamp ==> Expanded(g, w, dist, t, u, busy)
  }

  ghost predicate EntryOk(dist: map<Name, real>, t: Progress, e: Entry) {
    && e.node in dist && dist[e.node] <= e.key && t.last <= e.key
    && (e.node in t.stamp ==> dist[e.node] < e.key)
  }

  ghost predicate Waiting(dist: map<Name, real>, heap: seq<Entry>, t: Progress, v: Name)
    requires v in dist
  {
    && (v in t.stamp || Entry(dist[v], v) in heap)
    && multiset(heap)[Entry(dist[v], v)] <= 1
  }

  ghost predicate QueueOk(dist: map<Name, real>, heap: seq<Entry>, t: Progress) {
    && (forall e {:trigger EntryOk(dist, t, e)} :: e in heap ==> EntryOk(dist, t, e))
    && (forall v {:trigger Waiting(dist, heap, t, v)} :: v in dist ==> Waiting(dist, heap, t, v))
  }

  /** The label of `v` is that of an earlier expanded predecessor plus its own weight. */
  ghost predicate Attained(g: Graph, w: Name -> real, src: Name, dist: map<Name, real>, pred: map<Name, Name>,
                           t: Progress, v: Name)
    requires v in dist
  {
    v == src ||
    (&& v in pred && pred[v] in t.stamp && pred[v] in dist && Edge(g, pred[v], v)
     && dist[v] == dist[pred[v]] + w(v)
     && (v in t.stamp ==> t.stamp[pred[v]] < t.stamp[v]))
  }

  ghost predicate LabelsOk(g: Graph, w: Name -> real, src: Name, dist: map<Name, real>, pred: map<Name, Name>,
                           t: Progress) {
    && src in dist && dist[src] == w(src) && dist.Keys <= g.Keys
    && forall v {:trigger Attained(g, w, src, dist, pred, t, v)} :: v in dist ==> Attained(g, w, src, dist, pred, t, v)
  }

  /** Lowering the label of an unexpanded node keeps every label attained. */
  lemma LowerLabels(g: Graph, w: Name -> real, src: Name, dist: map<Name, real>, pred: map<Name, Name>, t: Progress,
                    u: Name, child: Name)
    requires LabelsOk(g, w, src, dist, pred, t) && u in t.stamp && u in dist && Edge(g, u, child)
    requires child in g && child != src && child !in t.stamp
    requires forall v :: v in t.stamp ==> v in dist
    ensures LabelsOk(g, w, src, dist[child := dist[u] + w(child)], pred[child := u], t)
  {
    var dist', pred' := dist[child := dist[u] + w(child)], pred[child := u];
    forall v | v in dist' ensures Attained(g, w, src, dist', pred', t, v) {
      if v != child {
        assert Attained(g, w, src, dist, pred, t, v);
      }
    }
  }

  lemma LowerQueue(dist: map<Name, real>, heap: seq<Entry>, t: Progress, child: Name, d: real)
    requires QueueOk(dist, heap, t) && child !in t.stamp && t.last <= d
    requires child !in dist || d < dist[child]
    ensures QueueOk(dist[child := d], heap + [Entry(d, child)], t)
  {
    var dist', heap' := dist[child := d], heap + [Entry(d, child)];
    forall e | e in heap' ensures EntryOk(dist', t, e) {
      if e in heap {
        assert EntryOk(dist, t, e);
      }
    }
    forall v | v in dist' ensures Waiting(dist', heap', t, v) {
      assert heap'[|heap|] == Entry(d, child);
      if v == child {
        assert Entry(d, child) !in heap || EntryOk(dist, t, Entry(d, child));
      } else {
        assert Waiting(dist, heap, t, v);
      }
    }
  }

  lemma LowerDone(g: Graph, w: Name -> real, dist: map<Name, real>, t: Progress, busy: Option<Name>, child: Name,
                  d: real)
    requires DoneOk(g, w, dist, t, busy) && child !in t.stamp && (child !in dist || d < dist[child])
    ensures DoneOk(g, w, dist[child := d], t, busy)
  {
    var dist' := dist[child := d];
    forall u | u in t.stamp ensures Expanded(g, w, dist', t, u, busy) {
      assert Expanded(g, w, dist, t, u, busy);
      if Some(u) != busy {
        forall i | 0 <= i < |g[u]| ensures g[u][i] in dist' && dist'[g[u][i]] <= dist'[u] + w(g[u][i]) {
          assert Explored(g, w, dist, u, |g[u]|);
        }
      }
    }
  }

  /** Expanding `u` makes it the latest expanded node. */
  lemma Expand(g: Graph, w: Name -> real, src: Name, dist: map<Name, real>, pred: map<Name, Name>,
               before: seq<Entry>, heap: seq<Entry>, t: Progress, u: Name)
    requires LabelsOk(g, w, src, dist, pred, t) && QueueOk(dist, before, t) && DoneOk(g, w, dist, t, None)
    requires u in dist && multiset(before) == multiset(heap) + multiset{Entry(dist[u], u)}
    requires forall x :: x in before ==> dist[u] <= x.key
    ensures u !in t.stamp
    ensures var t' := Progress(t.stamp[u := t.clock], t.clock + 1, dist[u]);
      LabelsOk(g, w, src, dist, pred, t') && QueueOk(dist, heap, t') && DoneOk(g, w, dist, t', Some(u))
  {
    var t' := Progress(t.stamp[u := t.clock], t.clock + 1, dist[u]);
    assert Entry(dist[u], u) in multiset(before);
    assert EntryOk(dist, t, Entry(dist[u], u)) && Waiting(dist, before, t, u);
    forall v | v in dist ensures Attained(g, w, src, dist, pred, t', v) {
      assert Attained(g, w, src, dist, pred, t, v);
      if v in pred && pred[v] in t.stamp {
        assert Expanded(g, w, dist, t, pred[v], None);
      }
    }
    forall v | v in dist ensures Waiting(dist, heap, t', v) {
      assert Waiting(dist, before, t, v);
      if v != u && Entry(dist[v], v) in before {
        assert Entry(dist[v], v) in multiset(heap);
      }
    }
    forall e | e in heap ensures EntryOk(dist, t', e) {
      assert e in multiset(before);
      assert EntryOk(dist, t, e);
      assert multiset(heap)[e] >= 1 && multiset(before)[Entry(dist[u], u)] <= 1;
    }
    forall x | x in t'.stamp ensures Expanded(g, w, dist, t', x, Some(u)) {
      if x != u {
        assert Expanded(g, w, dist, t, x, None);
      }
    }
  }

  /** A popped stale entry changes nothing that matters. */
  lemma DropStale(dist: map<Name, real>, before: seq<Entry>, heap: seq<Entry>, t: Progress, e: Entry)
    requires QueueOk(dist, before, t) && e.node in dist && e.key > dist[e.node]
    requires multiset(before) == multiset(heap) + multiset{e}
    ensures QueueOk(dist, heap, t)
  {
    forall x | x in heap ensures EntryOk(dist, t, x) {
      assert x in multiset(before);
    }
    forall v | v in dist ensures Waiting(dist, heap, t, v) {
      assert Waiting(dist, before, t, v);
      if Entry(dist[v], v) in before {
        assert Entry(dist[v], v) in multiset(heap);
      }
    }
  }

  /** No path is lighter than the least key still queued, unless its end carries a lighter label. */
  lemma {:induction false} KeyBoundsPath(g: Graph, w: Name -> real, src: Name, dist: map<Name, real>,
                                         heap: seq<Entry>, t: Progress, least: real, p: seq<Name>)
    requires Closed(g) && NonNegative(g, w) && src in dist && dist[src] == w(src)
    requires QueueOk(dist, heap, t) && DoneOk(g, w, dist, t, None)
    requires forall x :: x in heap ==> least <= x.key
    requires IsPath(g, p) && p[0] == src
    ensures least <= PathWeight(w, p) || (p[|p| - 1] in dist && dist[p[|p| - 1]] <= PathWeight(w, p))
    decreases |p|
  {
    PathNodes(g, p);
    var q := p[..|p| - 1];
    if |p| == 1 {
      assert q == [];
    } else {
      PathSlice(g, p, 0, |p| - 1);
      assert q == p[0..|p| - 1];
      KeyBoundsPath(g, w, src, dist, heap, t, least, q);
      var x, y := p[|p| - 2], p[|p| - 1];
      assert EdgeAt(g, p, |p| - 2);
      if PathWeight(w, q) < least {
        assert Waiting(dist, heap, t, x);
        if x in t.stamp {
          assert Expanded(g, w, dist, t, x, None);
          assert Explored(g, w, dist, x, |g[x]|);
        }
      }
    }
  }

  /** When nothing is queued, every node a path reaches is labelled. */
  lemma NothingQueued(g: Graph, w: Name -> real, src: Name, dist: map<Name, real>, t: Progress, dest: Name)
    requires src in dist && QueueOk(dist, [], t) && DoneOk(g, w, dist, t, None)
    requires Reach(g, src, dest)
    ensures dest in dist && dest in t.stamp
  {
    forall u, v | u in dist.Keys && Edge(g, u, v) ensures v in dist.Keys {
      assert Waiting(dist, [], t, u);
      assert Expanded(g, w, dist, t, u, None);
    }
    ReachStaysIn(g, dist.Keys, src, dest);
    assert Waiting(dist, [], t, dest);
  }

  method WeightedShortestPath(g: Graph, w: Name -> real, src: Name, dest: Name)
    returns (r: Result<(real, seq<Name>), PathError>)
    requires Closed(g) && NonNegative(g, w)
    ensures src !in g || dest !in g ==> r == Failure(UnknownNode)
    ensures src in g && dest in g && !Reach(g, src, dest) ==> r == Failure(NoPath)
    ensures Reach(g, src, dest) ==>
      && r.Success?
      && PathFromTo(g, r.value.1, src, dest)
      && PathWeight(w, r.value.1) == r.value.0
      && forall p :: PathFromTo(g, p, src, dest) ==> r.value.0 <= PathWeight(w, p)
  {
    if src !in g || dest !in g {
      if Reach(g, src, dest) {
        ReachNodes(g, src, dest);
      }
      return Failure(UnknownNode);
    }
    var dist := map[src := w(src)];
    var pred: map<Name, Name> := map[];
    var heap := [Entry(dist[src], src)];
    ghost var t := Progress(map[], 0, w(src));
    ghost var found := false;
    while heap != []
      invariant LabelsOk(g, w, src, dist, pred, t)
      invariant QueueOk(dist, heap, t)
      invariant DoneOk(g, w, dist, t, None)
      invariant dest !in t.stamp
      invariant t.stamp.Keys <= g.Keys
      invariant !found
      decreases g.Keys - t.stamp.Keys, |heap|
    {
      ghost var before := heap;
      var e;
      ghost var at;
      e, heap, at := Pop(heap);
      assert EntryOk(dist, t, e);
      if e.node == dest {
        assert Waiting(dist, before, t, dest);
        forall p | PathFromTo(g, p, src, dest) ensures dist[dest] <= PathWeight(w, p) {
          KeyBoundsPath(g, w, src, dist, before, t, e.key, p);
        }
        found := true;
        break;
      }
      if e.key > dist[e.node] {
        DropStale(dist, before, heap, t, e);
        continue;
      }
      Expand(g, w, src, dist, pred, before, heap, t, e.node);
      t := Progress(t.stamp[e.node := t.clock], t.clock + 1, dist[e.node]);
      dist, pred, heap := ExploreCheaper(g, w, src, e.node, dist, pred, heap, t);
    }
    if dest !in dist {
      if Reach(g, src, dest) {
        NothingQueued(g, w, src, dist, t, dest);
      }
      return Failure(NoPath);
    }
    assert found || Waiting(dist, heap, t, dest);
    ghost var order := LabelsChained(g, w, src, dist, pred, t);
    var path := PathBack(pred, src, dest, g, order);
    LabelIsWeight(g, w, src, dist, pred, t, path, |path|);
    assert path[..|path|] == path;
    return Success((dist[dest], path));
  }

  /** The inner loop: lowers every successor of `u` that gets closer through `u`. */
  method ExploreCheaper(g: Graph, w: Name -> real, src: Name, u: Name,
                        dist0: map<Name, real>, pred0: map<Name, Name>, heap0: seq<Entry>, ghost t: Progress)
    returns (dist: map<Name, real>, pred: map<Name, Name>, heap: seq<Entry>)
    requires Closed(g) && NonNegative(g, w)
    requires LabelsOk(g, w, src, dist0, pred0, t) && QueueOk(dist0, heap0, t) && DoneOk(g, w, dist0, t, Some(u))
    requires u in t.stamp && u in dist0 && t.last == dist0[u] && u in g
    ensures LabelsOk(g, w, src, dist, pred, t) && QueueOk(dist, heap, t) && DoneOk(g, w, dist, t, None)
  {
    dist, pred, heap := dist0, pred0, heap0;
    var current := dist[u];
    for i := 0 to |g[u]|
      invariant LabelsOk(g, w, src, dist, pred, t) && QueueOk(dist, heap, t) && DoneOk(g, w, dist, t, Some(u))
      invariant u in dist && dist[u] == current
      invariant Explored(g, w, dist, u, i)
    {
      var child := g[u][i];
      assert Edge(g, u, child);
      var newDist := current + w(child);
      if child !in dist || newDist < dist[child] {
        assert child !in t.stamp || Expanded(g, w, dist, t, child, Some(u));
        forall v | v in t.stamp ensures v in dist {
          assert Expanded(g, w, dist, t, v, Some(u));
        }
        LabelsNonNegative(g, w, src, dist, pred, t, u);
        LowerLabels(g, w, src, dist, pred, t, u, child);
        LowerQueue(dist, heap, t, child, newDist);
        LowerDone(g, w, dist, t, Some(u), child, newDist);
        ghost var was := dist;
        dist := dist[child := newDist];
        pred := pred[child := u];
        heap := heap + [Entry(newDist, child)];
        assert Explored(g, w, was, u, i);
      }
    }
    forall x | x in t.stamp ensures Expanded(g, w, dist, t, x, None) {
      assert Expanded(g, w, dist, t, x, Some(u));
    }
  }

  lemma {:induction false} LabelsNonNegative(g: Graph, w: Name -> real, src: Name, dist: map<Name, real>,
                                             pred: map<Name, Name>, t: Progress, u: Name)
    requires NonNegative(g, w) && LabelsOk(g, w, src, dist, pred, t) && u in dist && u in t.stamp
    ensures 0.0 <= dist[u]
    decreases t.stamp[u]
  {
    assert Attained(g, w, src, dist, pred, t, u);
    if u != src {
      LabelsNonNegative(g, w, src, dist, pred, t, pred[u]);
    }
  }

  lemma {:induction false} LabelIsWeight(g: Graph, w: Name -> real, src: Name, dist: map<Name, real>,
                                         pred: map<Name, Name>, t: Progress, p: seq<Name>, n: nat)
    requires LabelsOk(g, w, src, dist, pred, t)
    requires 0 < n <= |p| && p[0] == src && FollowsAll(src, pred, p)
    requires forall v :: v in p ==> v in dist
    ensures PathWeight(w, p[..n]) == dist[p[n - 1]]
  {
    if n == 1 {
      assert p[..1] == [] + [src];
      PathWeightSnoc(w, [], src);
    } else {
      LabelIsWeight(g, w, src, dist, pred, t, p, n - 1);
      assert p[..n] == p[..n - 1] + [p[n - 1]];
      PathWeightSnoc(w, p[..n - 1], p[n - 1]);
      assert Follows(src, pred, p, n - 2);
      assert Attained(g, w, src, dist, pred, t, p[n - 1]);
    }
  }

  /** Expansion order is the order of the recorded predecessors. */
  lemma LabelsChained(g: Graph, w: Name -> real, src: Name, dist: map<Name, real>, pred: map<Name, Name>, t: Progress)
    returns (order: map<Name, nat>)
    requires LabelsOk(g, w, src, dist, pred, t) && DoneOk(g, w, dist, t, None)
    ensures Chained(g, src, pred, order) && order.Keys == dist.Keys
  {
    order := map v | v in dist :: if v in t.stamp then t.stamp[v] else t.clock;
    forall v | v in order ensures Linked(g, src, pred, order, v) {
      assert Attained(g, w, src, dist, pred, t, v);
      if v != src {
        assert Expanded(g, w, dist, t, pred[v], None);
      }
    }
  }
}
