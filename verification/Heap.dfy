/** The priority queue of the weighted searches: a list from which the least key is taken. */
module Heap {
  import opened Graphs

  datatype Entry = Entry(key: real, node: Name)

  ghost function NodesOf(h: seq<Entry>): (r: seq<Name>)
    ensures |r| == |h| && forall i :: 0 <= i < |h| ==> r[i] == h[i].node
  {
    seq(|h|, i requires 0 <= i < |h| => h[i].node)
  }

  /** Takes some entry of least key; which one among equals is left open. */
  method Pop(h: seq<Entry>) returns (e: Entry, rest: seq<Entry>, ghost at: nat)
    requires h != []
    ensures at < |h| && e == h[at] && rest == h[..at] + h[at + 1..]
    ensures forall x :: x in h ==> e.key <= x.key
    ensures forall x :: x in h ==> x == e || x in rest
    ensures forall x :: x in rest ==> x in h
    ensures multiset(h) == multiset(rest) + multiset{e}
  {
    var best := 0;
    for i := 1 to |h|
      invariant best < |h|
      invariant forall k :: 0 <= k < i ==> h[best].key <= h[k].key
    {
      if h[i].key < h[best].key {
        best := i;
      }
    }
    e, rest, at := h[best], h[..best] + h[best + 1..], best;
    assert h == h[..best] + [e] + h[best + 1..];
  }

  /** Taking an entry out removes exactly the work of its node. */
  lemma PopWork(g: Graph, h: seq<Entry>, at: nat)
    requires Closed(g) && Acyclic(g) && at < |h|
    requires forall x :: x in h ==> x.node in g
    ensures (forall n :: n in NodesOf(h) ==> n in g) && (forall n :: n in NodesOf(h[..at] + h[at + 1..]) ==> n in g)
    ensures QueueWork(g, NodesOf(h)) == QueueWork(g, NodesOf(h[..at] + h[at + 1..])) + Work(g, h[at].node)
  {
    var a, b := NodesOf(h[..at]), NodesOf(h[at + 1..]);
    forall n | n in a + [h[at].node] + b ensures n in g {
      assert forall x :: x in h[..at] || x in h[at + 1..] ==> x in h;
    }
    assert NodesOf(h) == (a + [h[at].node]) + b;
    assert NodesOf(h[..at] + h[at + 1..]) == a + b;
    QueueWorkConcat(g, a, b);
    QueueWorkConcat(g, a + [h[at].node], b);
    QueueWorkConcat(g, a, [h[at].node]);
  }

  lemma PushWork(g: Graph, h: seq<Entry>, e: Entry)
    requires Closed(g) && Acyclic(g) && e.node in g
    requires forall x :: x in h ==> x.node in g
    ensures (forall n :: n in NodesOf(h) ==> n in g) && (forall n :: n in NodesOf(h + [e]) ==> n in g)
    ensures QueueWork(g, NodesOf(h + [e])) == QueueWork(g, NodesOf(h)) + Work(g, e.node)
  {
    assert NodesOf(h + [e]) == NodesOf(h) + [e.node];
    QueueWorkConcat(g, NodesOf(h), [e.node]);
  }
}
