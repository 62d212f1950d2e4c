/** Latency accounting of a finished task: its critical path and its longest transmission. */
module TaskTimes {
  import opened Graphs
  import opened Wrappers
  import opened Dags
  import opened DagExtraction
  import opened PathWeights
  import opened LongestPath

  datatype TimeError = NotCompleted | NoCriticalPath

  function ServiceTime(nodes: Nodes): Name -> real {
    n => if n in nodes then nodes[n].service.TotalTime() else 0.0
  }

  /** The transmission times of the services along a path, added up. */
  ghost function TransmitAlong(nodes: Nodes, p: seq<Name>): real {
    if p == [] then 0.0 else
      TransmitAlong(nodes, p[..|p| - 1])
      + if p[|p| - 1] in nodes then nodes[p[|p| - 1]].service.transmitTime else 0.0
  }

  /** The execution times of the services along a path, added up. */
  ghost function ExecuteAlong(nodes: Nodes, p: seq<Name>): real {
    if p == [] then 0.0 else
      ExecuteAlong(nodes, p[..|p| - 1])
      + if p[|p| - 1] in nodes then nodes[p[|p| - 1]].service.executeTime else 0.0
  }

  /** `total` is the most that transmissions and executions take together along a path from the start to the end. */
  ghost predicate IsCriticalTime(nodes: Nodes, total: real) {
    && (exists p :: PathFromTo(Next(nodes), p, START, END)
         && TransmitAlong(nodes, p) + ExecuteAlong(nodes, p) == total)
    && forall p :: PathFromTo(Next(nodes), p, START, END) ==>
      TransmitAlong(nodes, p) + ExecuteAlong(nodes, p) <= total
  }

  /** The weight the search goes by splits into the two. */
  lemma {:induction false} WeightSplits(nodes: Nodes, p: seq<Name>)
    ensures PathWeight(ServiceTime(nodes), p) == TransmitAlong(nodes, p) + ExecuteAlong(nodes, p)
    decreases |p|
  {
    if p != [] {
      WeightSplits(nodes, p[..|p| - 1]);
    }
  }

  ghost predicate IsLongestTransmission(nodes: Nodes, t: real) {
    && (forall n :: n in nodes ==> nodes[n].service.transmitTime <= t)
    && 0.0 <= t && (t == 0.0 || exists n :: n in nodes && nodes[n].service.transmitTime == t)
  }

  method CalculateTotalTime(dag: DAG, flowIndex: Name) returns (r: Result<real, TimeError>)
    requires dag.Valid() && Validated(dag.nodes)
    ensures flowIndex != END ==> r == Failure(NotCompleted)
    ensures flowIndex == END ==> (r.Success? <==> Reach(Next(dag.nodes), START, END))
    ensures r.Success? ==> IsCriticalTime(dag.nodes, r.value)
  {
    if flowIndex != END {
      return Failure(NotCompleted);
    }
    InverseClosed(Next(dag.nodes), Prev(dag.nodes));
    var best := WeightedLongestPath(Next(dag.nodes), ServiceTime(dag.nodes), START, END);
    if best.Failure? {
      return Failure(NoCriticalPath);
    }
    forall p ensures PathWeight(ServiceTime(dag.nodes), p) ==
                     TransmitAlong(dag.nodes, p) + ExecuteAlong(dag.nodes, p) {
      WeightSplits(dag.nodes, p);
    }
    return Success(best.value.0);
  }

  method CalculateCloudEdgeTransmitTime(dag: DAG, flowIndex: Name) returns (r: Result<real, TimeError>)
    requires dag.Valid()
    ensures flowIndex != END <==> r.Failure?
    ensures r.Success? ==> IsLongestTransmission(dag.nodes, r.value)
  {
    if flowIndex != END {
      return Failure(NotCompleted);
    }
    var t := 0.0;
    for i := 0 to |dag.order|
      invariant 0.0 <= t && (t == 0.0 || exists n :: n in dag.nodes && dag.nodes[n].service.transmitTime == t)
      invariant forall j :: 0 <= j < i ==>
        dag.order[j] in dag.nodes && dag.nodes[dag.order[j]].service.transmitTime <= t
    {
      var n := dag.order[i];
      assert n in Elements(dag.order);
      if dag.nodes[n].service.transmitTime > t {
        t := dag.nodes[n].service.transmitTime;
      }
    }
    forall n | n in dag.nodes ensures dag.nodes[n].service.transmitTime <= t {
      assert n in Elements(dag.order);
    }
    return Success(t);
  }

  lemma {:induction false} NodeWithinPath(w: Name -> real, p: seq<Name>, i: nat)
    requires i < |p| && forall n :: 0.0 <= w(n)
    ensures w(p[i]) <= PathWeight(w, p) && 0.0 <= PathWeight(w, p[..i])
    decreases |p|
  {
    var q := p[..|p| - 1];
    if i < |p| - 1 {
      NodeWithinPath(w, q, i);
      assert q[..i] == p[..i];
    } else if |q| > 0 {
      NodeWithinPath(w, q, |q| - 1);
      assert q == p[..i];
      assert q[..|q| - 1] + [q[|q| - 1]] == q;
    }
  }

  /** On a normalised graph the critical path takes at least as long as any one service, its transmission included. */
  lemma TotalCoversServices(nodes: Nodes, total: real, n: Name)
    requires Normalised(nodes) && NonNegativeTimes(nodes) && IsCriticalTime(nodes, total) && n in nodes
    ensures nodes[n].service.transmitTime + nodes[n].service.executeTime <= total
  {
    var g, w := Next(nodes), ServiceTime(nodes);
    var p :| PathFromTo(g, p, START, n);
    var q :| PathFromTo(g, q, n, END);
    PathJoin(g, p, q);
    WeightSplits(nodes, p + q[1..]);
    NodeWithinPath(w, p + q[1..], |p| - 1);
  }

  /** So it takes at least as long as any single transmission. */
  lemma TotalCoversTransmission(nodes: Nodes, total: real, t: real)
    requires Normalised(nodes) && NonNegativeTimes(nodes)
    requires IsCriticalTime(nodes, total) && IsLongestTransmission(nodes, t)
    ensures t <= total
  {
    if t == 0.0 {
      TotalCoversServices(nodes, total, START);
    } else {
      var n :| n in nodes && nodes[n].service.transmitTime == t;
      TotalCoversServices(nodes, total, n);
    }
  }
}
