/** Weighted longest path: label correcting over an acyclic graph with a max-heap. */
module LongestPath {
  import opened Graphs
  import opened Backtrack
  import opened Heap
  import opened PathWeights
  import opened Wrappers

  /** Every successor of `u` among the first `k` is at least as far as `u` and its own weight. */
  ghost predicate Relaxed(g: Graph, w: Name -> real, dist: map<Name, real>, u: Name, k: nat)
    requires u in g && u in dist
  {
    forall i :: 0 <= i < k && i < |g[u]| ==> g[u][i] in dist && dist[u] + w(g[u][i]) <= dist[g[u][i]]
  }

  ghost predicate Settled(g: Graph, w: Name -> real, dist: map<Name, real>, u: Name)
    requires u in g && u in dist
  {
    Relaxed(g, w, dist, u, |g[u]|)
  }

  ghost predicate AllSettled(g: Graph, w: Name -> real, dist: map<Name, real>) {
    && dist.Keys <= g.Keys
    && forall u {:trigger Settled(g, w, dist, u)} :: u in dist ==> Settled(g, w, dist, u)
  }

  /** A labelled node other than the source has a labelled predecessor it was reached from. */
  ghost predicate Supported(g: Graph, w: Name -> real, src: Name, dist: map<Name, real>, pred: map<Name, Name>, v: Name)
    requires v in dist
  {
    v == src || (v in pred && pred[v] in dist && Edge(g, pred[v], v) && dist[v] <= dist[pred[v]] + w(v))
  }

  /** What every iteration keeps about the labels. */
  ghost predicate Labelled(g: Graph, w: Name -> real, src: Name, dist: map<Name, real>, pred: map<Name, Name>) {
    && src in dist && dist[src] == w(src)
    && (forall v :: v in dist ==> v in g && Reach(g, src, v))
    && (forall v {:trigger Supported(g, w, src, dist, pred, v)} :: v in dist ==> Supported(g, w, src, dist, pred, v))
  }

  ghost predicate HeapOk(g: Graph, dist: map<Name, real>, heap: seq<Entry>) {
    forall e :: e in heap ==> e.node in g && e.node in dist && -e.key <= dist[e.node]
  }

  /** Every labelled node, except possibly `busy`, is queued with its label or settled. */
  ghost predicate QueuedOrSettled(g: Graph, w: Name -> real, dist: map<Name, real>, heap: seq<Entry>,
                                  busy: Option<Name>) {
    forall u {:trigger Settled(g, w, dist, u)} :: u in dist && u in g && Some(u) != busy ==>
      Entry(-dist[u], u) in heap || Settled(g, w, dist, u)
  }

  /** When nothing is queued, no path from the source outweighs its end's label. */
  lemma {:induction false} LabelBoundsPath(g: Graph, w: Name -> real, src: Name, dist: map<Name, real>, p: seq<Name>)
    requires Closed(g) && src in dist && dist[src] == w(src)
    requires AllSettled(g, w, dist)
    requires IsPath(g, p) && p[0] == src
    ensures p[|p| - 1] in dist && PathWeight(w, p) <= dist[p[|p| - 1]]
    decreases |p|
  {
    if |p| == 1 {
      PathWeightSnoc(w, [], src);
      assert p == [] + [src];
    } else {
      var q := p[..|p| - 1];
      PathSlice(g, p, 0, |p| - 1);
      assert q == p[0..|p| - 1];
      LabelBoundsPath(g, w, src, dist, q);
      assert EdgeAt(g, p, |p| - 2);
      assert Settled(g, w, dist, q[|q| - 1]);
    }
  }

  /** No edge leads from a reachable node back to the source. */
  lemma NoEdgeToSource(g: Graph, src: Name, u: Name)
    requires Closed(g) && Acyclic(g) && Reach(g, src, u)
    ensures !Edge(g, u, src)
  {
    if Edge(g, u, src) {
      ReachStep(g, src, u, src);
      StrictIsReach(g, src, src);
    }
  }

  /** The inner loop: raises every successor of `u` that gets farther through `u`. */
  method ExploreNeighbors(g: Graph, w: Name -> real, src: Name, u: Name,
                          dist0: map<Name, real>, pred0: map<Name, Name>, heap0: seq<Entry>)
    returns (dist: map<Name, real>, pred: map<Name, Name>, heap: seq<Entry>)
    requires Closed(g) && Acyclic(g) && Labelled(g, w, src, dist0, pred0) && u in dist0
    requires HeapOk(g, dist0, heap0) && QueuedOrSettled(g, w, dist0, heap0, Some(u))
    requires forall n :: n in NodesOf(heap0) ==> n in g
    ensures Labelled(g, w, src, dist, pred) && HeapOk(g, dist, heap)
    ensures QueuedOrSettled(g, w, dist, heap, None)
    ensures forall n :: n in NodesOf(heap) ==> n in g
    ensures QueueWork(g, NodesOf(heap)) < QueueWork(g, NodesOf(heap0)) + Work(g, u)
  {
    dist, pred, heap := dist0, pred0, heap0;
    var current := dist[u];
    WorkOfNode(g, u);
    for i := 0 to |g[u]|
      invariant Exploring(g, w, src, u, current, dist, pred, heap, i)
      invariant forall n :: n in g[u][..i] ==> n in g
      invariant QueueWork(g, NodesOf(heap)) <= QueueWork(g, NodesOf(heap0)) + QueueWork(g, g[u][..i])
    {
      OneMoreChild(g, u, i);
      dist, pred, heap := ExploreNeighbor(g, w, src, u, current, dist, pred, heap, i);
    }
    assert g[u][..|g[u]|] == g[u];
  }

  /** One successor: its label is raised, and it is queued, if it gets farther through `u`. */
  method ExploreNeighbor(g: Graph, w: Name -> real, src: Name, u: Name, current: real,
                         dist0: map<Name, real>, pred0: map<Name, Name>, heap0: seq<Entry>, k: nat)
    returns (dist: map<Name, real>, pred: map<Name, Name>, heap: seq<Entry>)
    requires Closed(g) && Acyclic(g) && Exploring(g, w, src, u, current, dist0, pred0, heap0, k) && k < |g[u]|
    ensures Exploring(g, w, src, u, current, dist, pred, heap, k + 1)
    ensures QueueWork(g, NodesOf(heap)) <= QueueWork(g, NodesOf(heap0)) + Work(g, g[u][k])
  {
    var child := g[u][k];
    var newDist := current + w(child);
    if child !in dist0 || newDist > dist0[child] {
      StepExploring(g, w, src, u, current, dist0, pred0, heap0, k);
      PushWork(g, heap0, Entry(-newDist, child));
      return dist0[child := newDist], pred0[child := u], heap0 + [Entry(-newDist, child)];
    }
    SkipExploring(g, w, src, u, current, dist0, pred0, heap0, k);
    return dist0, pred0, heap0;
  }

  lemma SkipExploring(g: Graph, w: Name -> real, src: Name, u: Name, current: real,
                      dist: map<Name, real>, pred: map<Name, Name>, heap: seq<Entry>, k: nat)
    requires Exploring(g, w, src, u, current, dist, pred, heap, k) && k < |g[u]|
    requires g[u][k] in dist && current + w(g[u][k]) <= dist[g[u][k]]
    ensures Exploring(g, w, src, u, current, dist, pred, heap, k + 1)
  {
  }

  /** What the inner loop keeps after the first `k` successors of `u`. */
  ghost predicate Exploring(g: Graph, w: Name -> real, src: Name, u: Name, current: real,
                            dist: map<Name, real>, pred: map<Name, Name>, heap: seq<Entry>, k: nat)
  {
    && Labelled(g, w, src, dist, pred)
    && u in g && u in dist && dist[u] == current
    && HeapOk(g, dist, heap) && QueuedOrSettled(g, w, dist, heap, Some(u))
    && Relaxed(g, w, dist, u, k)
    && forall n :: n in NodesOf(heap) ==> n in g
  }

  lemma OneMoreChild(g: Graph, u: Name, i: nat)
    requires Closed(g) && Acyclic(g) && u in g && i < |g[u]| && forall n :: n in g[u][..i] ==> n in g
    ensures g[u][i] in g && forall n :: n in g[u][..i + 1] ==> n in g
    ensures QueueWork(g, g[u][..i + 1]) == QueueWork(g, g[u][..i]) + Work(g, g[u][i])
  {
    assert g[u][..i + 1] == g[u][..i] + [g[u][i]];
    QueueWorkConcat(g, g[u][..i], [g[u][i]]);
    assert [g[u][i]][1..] == [];
  }

  lemma StepExploring(g: Graph, w: Name -> real, src: Name, u: Name, current: real,
                      dist: map<Name, real>, pred: map<Name, Name>, heap: seq<Entry>, k: nat)
    requires Closed(g) && Acyclic(g) && Exploring(g, w, src, u, current, dist, pred, heap, k) && k < |g[u]|
    requires g[u][k] !in dist || current + w(g[u][k]) > dist[g[u][k]]
    ensures var d := current + w(g[u][k]);
            Exploring(g, w, src, u, current, dist[g[u][k] := d], pred[g[u][k] := u], heap + [Entry(-d, g[u][k])], k + 1)
  {
    var child, d := g[u][k], current + w(g[u][k]);
    assert Edge(g, u, child);
    StepLabelled(g, w, src, dist, pred, u, child);
    StepQueued(g, w, dist, heap, u, child, d);
    RaiseKeepsRelaxed(g, w, dist, u, k, child, d);
    assert NodesOf(heap + [Entry(-d, child)]) == NodesOf(heap) + [child];
  }

  method WeightedLongestPath(g: Graph, w: Name -> real, src: Name, dest: Name)
    returns (r: Result<(real, seq<Name>), PathError>)
    requires Closed(g) && Acyclic(g)
    ensures src !in g || dest !in g ==> r == Failure(UnknownNode)
    ensures src in g && dest in g && !Reach(g, src, dest) ==> r == Failure(NoPath)
    ensures Reach(g, src, dest) ==>
      && r.Success?
      && PathFromTo(g, r.value.1, src, dest)
      && PathWeight(w, r.value.1) == r.value.0
      && forall p :: PathFromTo(g, p, src, dest) ==> PathWeight(w, p) <= r.value.0
  {
    if src !in g || dest !in g {
      if Reach(g, src, dest) {
        ReachNodes(g, src, dest);
      }
      return Failure(UnknownNode);
    }
    var dist := map[src := w(src)];
    var pred: map<Name, Name> := map[];
    var heap := [Entry(-dist[src], src)];
    ReachSelf(g, src);
    while heap != []
      invariant Labelled(g, w, src, dist, pred)
      invariant HeapOk(g, dist, heap)
      invariant QueuedOrSettled(g, w, dist, heap, None)
      invariant forall n :: n in NodesOf(heap) ==> n in g
      decreases QueueWork(g, NodesOf(heap))
    {
      ghost var before := heap;
      var e;
      ghost var at;
      e, heap, at := Pop(heap);
      PopWork(g, before, at);
      WorkOfNode(g, e.node);
      var current := -e.key;
      var u := e.node;
      if current < dist[u] {
        continue;
      }
      dist, pred, heap := ExploreNeighbors(g, w, src, u, dist, pred, heap);
    }
    LabelsAreLongest(g, w, src, dist);
    if dest !in dist {
      return Failure(NoPath);
    }
    ghost var order := LabelsChained(g, w, src, dist, pred);
    var path := PathBack(pred, src, dest, g, order);
    LabelIsWeight(g, w, src, dist, pred, path, |path|);
    assert path[..|path|] == path;
    return Success((dist[dest], path));
  }

  lemma LabelsAreLongest(g: Graph, w: Name -> real, src: Name, dist: map<Name, real>)
    requires Closed(g) && src in dist && dist[src] == w(src)
    requires AllSettled(g, w, dist)
    ensures forall p, v :: PathFromTo(g, p, src, v) ==> v in dist && PathWeight(w, p) <= dist[v]
  {
    forall p, v | PathFromTo(g, p, src, v) ensures v in dist && PathWeight(w, p) <= dist[v] {
      LabelBoundsPath(g, w, src, dist, p);
    }
  }

  /** Raising the label of a successor keeps every label supported. */
  lemma StepLabelled(g: Graph, w: Name -> real, src: Name, dist: map<Name, real>, pred: map<Name, Name>,
                     u: Name, child: Name)
    requires Closed(g) && Acyclic(g) && Labelled(g, w, src, dist, pred)
    requires u in dist && Edge(g, u, child)
    requires child !in dist || dist[u] + w(child) > dist[child]
    ensures child != u && child != src
    ensures Labelled(g, w, src, dist[child := dist[u] + w(child)], pred[child := u])
  {
    NoEdgeToSource(g, src, u);
    ReachStep(g, src, u, child);
    ReachEdge(g, u, child);
    var dist', pred' := dist[child := dist[u] + w(child)], pred[child := u];
    assert child != u;
    forall x | x in dist' ensures Supported(g, w, src, dist', pred', x) {
      if x != child {
        assert Supported(g, w, src, dist, pred, x);
      }
    }
  }

  /** A settled node stays settled when the label of another node rises. */
  lemma RaiseKeepsRelaxed(g: Graph, w: Name -> real, dist: map<Name, real>, x: Name, k: nat, child: Name, d: real)
    requires x in g && x in dist && x != child && (child !in dist || d > dist[child])
    requires Relaxed(g, w, dist, x, k)
    ensures Relaxed(g, w, dist[child := d], x, k)
  {
    var dist' := dist[child := d];
    forall i | 0 <= i < k && i < |g[x]| ensures g[x][i] in dist' && dist'[x] + w(g[x][i]) <= dist'[g[x][i]] {
      assert dist[x] + w(g[x][i]) <= dist[g[x][i]];
    }
  }

  lemma StepQueued(g: Graph, w: Name -> real, dist: map<Name, real>, heap: seq<Entry>, u: Name, child: Name, d: real)
    requires child in g && (child !in dist || d > dist[child])
    requires QueuedOrSettled(g, w, dist, heap, Some(u)) && HeapOk(g, dist, heap)
    ensures QueuedOrSettled(g, w, dist[child := d], heap + [Entry(-d, child)], Some(u))
    ensures HeapOk(g, dist[child := d], heap + [Entry(-d, child)])
  {
    var dist', heap' := dist[child := d], heap + [Entry(-d, child)];
    forall x | x in dist' && x in g && Some(x) != Some(u)
      ensures Entry(-dist'[x], x) in heap' || Settled(g, w, dist', x)
    {
      if x == child {
        assert heap'[|heap|] == Entry(-d, child);
      } else if Entry(-dist[x], x) in heap {
        assert Entry(-dist'[x], x) in heap';
      } else {
        assert Settled(g, w, dist, x);
        RaiseKeepsRelaxed(g, w, dist, x, |g[x]|, child, d);
      }
    }
  }

  /** Once settled, every label is exactly its predecessor's plus the node's own weight. */
  lemma {:induction false} LabelIsWeight(g: Graph, w: Name -> real, src: Name, dist: map<Name, real>,
                                         pred: map<Name, Name>, p: seq<Name>, n: nat)
    requires Labelled(g, w, src, dist, pred) && AllSettled(g, w, dist)
    requires 0 < n <= |p| && p[0] == src && FollowsAll(src, pred, p)
    requires forall v :: v in p ==> v in dist
    ensures PathWeight(w, p[..n]) == dist[p[n - 1]]
  {
    if n == 1 {
      assert p[..1] == [] + [src];
      PathWeightSnoc(w, [], src);
    } else {
      LabelIsWeight(g, w, src, dist, pred, p, n - 1);
      assert p[..n] == p[..n - 1] + [p[n - 1]];
      PathWeightSnoc(w, p[..n - 1], p[n - 1]);
      assert Follows(src, pred, p, n - 2);
      assert Supported(g, w, src, dist, pred, p[n - 1]);
      assert Settled(g, w, dist, p[n - 2]);
    }
  }

  /** An acyclic graph orders the labelled nodes along their recorded predecessors. */
  lemma LabelsChained(g: Graph, w: Name -> real, src: Name, dist: map<Name, real>, pred: map<Name, Name>)
    returns (order: map<Name, nat>)
    requires Closed(g) && Acyclic(g) && Labelled(g, w, src, dist, pred)
    ensures Chained(g, src, pred, order) && order.Keys == dist.Keys
  {
    forall v ensures Rank(g, v) <= |g| {
      RankBound(g, v);
    }
    order := map v | v in dist :: |g| - Rank(g, v);
    forall v | v in order ensures Linked(g, src, pred, order, v) {
      assert Supported(g, w, src, dist, pred, v);
      if v != src {
        RankDrops(g, pred[v], v);
      }
    }
  }
}
