/** The backend's check of a drawn service graph: a topological sort that compares types along every edge. */
module DagCheck {
  import opened Graphs
  import opened Wrappers

  /** A known service and what it takes and gives. */
  datatype ServiceDef = ServiceDef(id: Name, input: string, output: string)

  datatype Drawn = Drawn(prev: seq<Name>, succ: seq<Name>)

  type Drawing = map<Name, Drawn>

  datatype CheckError =
    | KeyMissing(key: Name)
    | MissingService(id: Name)
    | Mismatch(parent: Name, child: Name)
    | CyclesOrUnreachable

  ghost function Succ(dag: Drawing): Graph {
    map n | n in dag :: dag[n].succ
  }

  ghost function Prev(dag: Drawing): Graph {
    map n | n in dag :: dag[n].prev
  }

  /** The first service with the given id. */
  ghost function ServiceOf(services: seq<ServiceDef>, id: Name): Option<ServiceDef> {
    if services == [] then None
    else if services[0].id == id then Some(services[0])
    else ServiceOf(services[1..], id)
  }

  /** What the second service takes is what the first one gives. */
  ghost predicate Joinable(services: seq<ServiceDef>, a: Name, b: Name) {
    && ServiceOf(services, a).Some? && ServiceOf(services, b).Some?
    && ServiceOf(services, a).value.output == ServiceOf(services, b).value.input
  }

  ghost predicate AllJoinable(services: seq<ServiceDef>, dag: Drawing) {
    forall a, b {:trigger Edge(Succ(dag), a, b)} :: Edge(Succ(dag), a, b) ==> Joinable(services, a, b)
  }

  /** The lists agree, nothing is repeated, and the start list holds exactly the nodes without predecessors. */
  ghost predicate WellLinked(starts: seq<Name>, dag: Drawing) {
    && Inverse(Succ(dag), Prev(dag))
    && (forall n :: n in dag ==> Distinct(dag[n].prev) && Distinct(dag[n].succ))
    && Distinct(starts)
    && forall n {:trigger n in starts} {:trigger n in dag} :: n in starts <==> n in dag && dag[n].prev == []
  }

  /** Which edge an error speaks of. */
  ghost predicate Explained(services: seq<ServiceDef>, starts: seq<Name>, dag: Drawing, e: CheckError) {
    match e
    case KeyMissing(key) => key !in dag && (key in starts || exists p :: Edge(Succ(dag), p, key))
    case MissingService(id) => ServiceOf(services, id).None? && exists p, c ::
      Edge(Succ(dag), p, c) && (id == p || (id == c && ServiceOf(services, p).Some?))
    case Mismatch(p, c) => Edge(Succ(dag), p, c) && !Joinable(services, p, c)
    case CyclesOrUnreachable => true
  }

  method FindServiceById(services: seq<ServiceDef>, id: Name) returns (r: Option<ServiceDef>)
    ensures r == ServiceOf(services, id)
    ensures r == None <==> forall i :: 0 <= i < |services| ==> services[i].id != id
    ensures r.Some? ==> r.value.id == id && exists i :: 0 <= i < |services| && services[i] == r.value &&
                                                        forall j :: 0 <= j < i ==> services[j].id != id
  {
    for i := 0 to |services|
      invariant ServiceOf(services, id) == ServiceOf(services[i..], id)
      invariant forall j :: 0 <= j < i ==> services[j].id != id
    {
      if services[i].id == id {
        return Some(services[i]);
      }
    }
    return None;
  }

  /** The nodes still waiting for a predecessor. */
  ghost function Waiting(inDegree: map<Name, int>): set<Name> {
    set n | n in inDegree && inDegree[n] > 0
  }

  /** One occurrence of every name of `list` is taken off. */
  ghost predicate Lowered(before: map<Name, int>, list: seq<Name>, after: map<Name, int>) {
    after.Keys == before.Keys && forall n :: n in before ==> after[n] == before[n] - if n in list then 1 else 0
  }

  /** `grown` is `queue` and, once each, the names of `list` that were waiting for exactly one more. */
  ghost predicate Released(before: map<Name, int>, list: seq<Name>, queue: seq<Name>, grown: seq<Name>) {
    && |queue| <= |grown| && grown[..|queue|] == queue
    && Distinct(grown[|queue|..])
    && forall n :: n in grown[|queue|..] <==> n in list && n in before && before[n] == 1
  }

  /** The inner loop: check the edges out of `parent`, lower its successors' in-degrees, queue those that reach zero. */
  method Relax(services: seq<ServiceDef>, dag: Drawing, parent: Name, inDegree: map<Name, int>, queue: seq<Name>)
    returns (err: Option<CheckError>, lowered: map<Name, int>, grown: seq<Name>)
    requires parent in dag && inDegree.Keys == dag.Keys
    ensures err.Some? ==> Explained(services, [], dag, err.value) && err.value != CyclesOrUnreachable
    ensures err == None ==> forall c :: c in dag[parent].succ ==> c in dag && Joinable(services, parent, c)
    ensures lowered.Keys == dag.Keys && forall n :: n in grown ==> n in queue || n in dag
    ensures |grown| + |Waiting(lowered)| <= |queue| + |Waiting(inDegree)|
    ensures err == None && Distinct(dag[parent].succ) ==>
      Lowered(inDegree, dag[parent].succ, lowered) && Released(inDegree, dag[parent].succ, queue, grown)
  {
    lowered, grown, err := inDegree, queue, None;
    var succ := dag[parent].succ;
    for i := 0 to |succ|
      invariant lowered.Keys == dag.Keys && forall n :: n in grown ==> n in queue || n in dag
      invariant |grown| + |Waiting(lowered)| <= |queue| + |Waiting(inDegree)|
      invariant forall c :: c in succ[..i] ==> c in dag && Joinable(services, parent, c)
      invariant Distinct(succ) ==> Lowered(inDegree, succ[..i], lowered) && Released(inDegree, succ[..i], queue, grown)
    {
      var child := succ[i];
      assert Edge(Succ(dag), parent, child);
      var parentService := FindServiceById(services, parent);
      var childService := FindServiceById(services, child);
      if parentService == None || childService == None {
        err := Some(MissingService(if parentService == None then parent else child));
        return;
      }
      if childService.value.input != parentService.value.output {
        err := Some(Mismatch(parent, child));
        return;
      }
      if child !in lowered {
        err := Some(KeyMissing(child));
        return;
      }
      ghost var before, had := lowered, grown;
      lowered := lowered[child := lowered[child] - 1];
      if lowered[child] == 0 {
        grown := grown + [child];
      }
      WaitingAfter(before, child);
      if Distinct(succ) {
        StepLowered(inDegree, succ, i, before);
        StepReleased(inDegree, succ, i, queue, had, before);
      }
      assert succ[..i + 1] == succ[..i] + [child];
    }
    assert succ[..|succ|] == succ;
  }

  lemma WaitingAfter(before: map<Name, int>, child: Name)
    requires child in before
    ensures var after := before[child := before[child] - 1];
            |Waiting(after)| + (if before[child] == 1 then 1 else 0) <= |Waiting(before)|
  {
    var after := before[child := before[child] - 1];
    if before[child] == 1 {
      assert Waiting(before) == Waiting(after) + {child};
    } else {
      assert Waiting(before) == Waiting(after);
    }
  }

  lemma StepLowered(inDegree: map<Name, int>, succ: seq<Name>, i: nat, before: map<Name, int>)
    requires i < |succ| && Distinct(succ) && Lowered(inDegree, succ[..i], before) && succ[i] in before
    ensures Lowered(inDegree, succ[..i + 1], before[succ[i] := before[succ[i]] - 1])
    ensures before[succ[i]] == inDegree[succ[i]]
  {
    assert succ[i] !in succ[..i];
    assert succ[..i + 1] == succ[..i] + [succ[i]];
  }

  lemma StepReleased(inDegree: map<Name, int>, succ: seq<Name>, i: nat, queue: seq<Name>, had: seq<Name>,
                     before: map<Name, int>)
    requires i < |succ| && Distinct(succ) && Lowered(inDegree, succ[..i], before) && succ[i] in before
    requires Released(inDegree, succ[..i], queue, had)
    ensures Released(inDegree, succ[..i + 1], queue, if before[succ[i]] == 1 then had + [succ[i]] else had)
  {
    assert succ[i] !in succ[..i];
    assert succ[..i + 1] == succ[..i] + [succ[i]];
    var tail := had[|queue|..];
    assert (had + [succ[i]])[|queue|..] == tail + [succ[i]];
    assert (had + [succ[i]])[..|queue|] == had[..|queue|];
  }

  // ----- what the outer loop keeps on well-linked drawings -----

  ghost function Missing(dag: Drawing, done: seq<Name>, n: Name): set<Name>
    requires n in dag
  {
    Elements(dag[n].prev) - Elements(done)
  }

  /** A node waits for its predecessors outside `done`. */
  ghost predicate CountsMissing(dag: Drawing, done: seq<Name>, inDegree: map<Name, int>) {
    && inDegree.Keys == dag.Keys
    && forall n {:trigger inDegree[n]} {:trigger Missing(dag, done, n)} :: n in dag ==>
       inDegree[n] == |Missing(dag, done, n)|
  }

  ghost predicate After(dag: Drawing, n: Name, done: seq<Name>) {
    n in dag && Missing(dag, done, n) == {}
  }

  /** Nothing is listed before its predecessors. */
  ghost predicate Ordered(dag: Drawing, seen: seq<Name>) {
    forall i {:trigger After(dag, seen[i], seen[..i])} :: 0 <= i < |seen| ==> After(dag, seen[i], seen[..i])
  }

  /** Exactly the nodes that wait for nothing have been seen. */
  ghost predicate SeenIff(dag: Drawing, seen: seq<Name>, inDegree: map<Name, int>) {
    inDegree.Keys == dag.Keys && forall n :: n in seen <==> n in dag && inDegree[n] == 0
  }

  ghost predicate Progress(dag: Drawing, topo: seq<Name>, queue: seq<Name>, inDegree: map<Name, int>) {
    && CountsMissing(dag, topo, inDegree)
    && Distinct(topo + queue) && Ordered(dag, topo + queue)
    && SeenIff(dag, topo + queue, inDegree)
  }

  ghost predicate DoneJoinable(services: seq<ServiceDef>, dag: Drawing, topo: seq<Name>) {
    forall p, c :: p in topo && p in dag && c in dag[p].succ ==> Joinable(services, p, c)
  }

  lemma NothingDone(dag: Drawing, n: Name)
    requires n in dag && Distinct(dag[n].prev)
    ensures |Missing(dag, [], n)| == |dag[n].prev|
  {
    ElementsSize(dag[n].prev);
    assert Missing(dag, [], n) == Elements(dag[n].prev);
  }

  lemma InitialProgress(starts: seq<Name>, dag: Drawing, inDegree: map<Name, int>)
    requires WellLinked(starts, dag) && inDegree == map n | n in dag :: |dag[n].prev|
    ensures Progress(dag, [], starts, inDegree)
  {
    assert [] + starts == starts;
    InitialCounts(dag, inDegree);
    InitialOrder(starts, dag);
  }

  lemma InitialCounts(dag: Drawing, inDegree: map<Name, int>)
    requires inDegree == map n | n in dag :: |dag[n].prev|
    requires forall n :: n in dag ==> Distinct(dag[n].prev)
    ensures CountsMissing(dag, [], inDegree)
  {
    forall n | n in dag ensures inDegree[n] == |Missing(dag, [], n)| {
      NothingDone(dag, n);
    }
  }

  lemma InitialOrder(starts: seq<Name>, dag: Drawing)
    requires forall n :: n in starts ==> n in dag && dag[n].prev == []
    ensures Ordered(dag, starts)
  {
    forall i | 0 <= i < |starts| ensures After(dag, starts[i], starts[..i]) {
      assert starts[i] in starts;
    }
  }

  /** Taking the first queued node through `Relax` keeps the counts. */
  lemma CountsAfter(dag: Drawing, topo: seq<Name>, parent: Name, before: map<Name, int>, after: map<Name, int>)
    requires Inverse(Succ(dag), Prev(dag)) && parent in dag && parent !in topo
    requires CountsMissing(dag, topo, before) && Lowered(before, dag[parent].succ, after)
    ensures CountsMissing(dag, topo + [parent], after)
  {
    forall n | n in dag ensures after[n] == |Missing(dag, topo + [parent], n)| {
      assert Edge(Succ(dag), parent, n) <==> Edge(Prev(dag), n, parent);
      MissingAfter(dag, topo, parent, n);
    }
  }

  lemma MissingAfter(dag: Drawing, topo: seq<Name>, parent: Name, n: Name)
    requires n in dag && parent !in topo
    ensures |Missing(dag, topo + [parent], n)| == |Missing(dag, topo, n)| - if parent in dag[n].prev then 1 else 0
  {
    assert Elements(topo + [parent]) == Elements(topo) + {parent};
    assert Missing(dag, topo + [parent], n) == Missing(dag, topo, n) - {parent};
  }

  /** Exactly the released nodes become ready. */
  lemma SeenAfter(dag: Drawing, seen: seq<Name>, added: seq<Name>, succ: seq<Name>, before: map<Name, int>,
                  after: map<Name, int>)
    requires SeenIff(dag, seen, before) && Lowered(before, succ, after)
    requires forall n :: n in before ==> before[n] >= 0 && after[n] >= 0
    requires forall n :: n in added <==> n in succ && n in before && before[n] == 1
    ensures SeenIff(dag, seen + added, after)
  {
    forall n ensures n in seen + added <==> n in dag && after[n] == 0 {
      assert n in seen + added <==> n in seen || n in added;
    }
  }

  lemma AfterMore(dag: Drawing, n: Name, done: seq<Name>, more: seq<Name>)
    requires After(dag, n, done) && Elements(done) <= Elements(more)
    ensures After(dag, n, more)
  {
  }

  lemma OrderedAfter(dag: Drawing, seen: seq<Name>, done: nat, added: seq<Name>)
    requires Ordered(dag, seen) && done <= |seen|
    requires forall n :: n in added ==> After(dag, n, seen[..done])
    ensures Ordered(dag, seen + added)
  {
    var all := seen + added;
    forall i | 0 <= i < |all| ensures After(dag, all[i], all[..i]) {
      if i < |seen| {
        assert all[..i] == seen[..i];
        assert After(dag, seen[i], seen[..i]);
      } else {
        assert all[i] in added;
        assert all[..i][..done] == seen[..done];
        AfterMore(dag, all[i], seen[..done], all[..i]);
      }
    }
  }

  lemma NewAreDistinct(seen: seq<Name>, added: seq<Name>)
    requires Distinct(seen) && Distinct(added)
    requires forall n :: n in added ==> n !in seen
    ensures Distinct(seen + added)
  {
    var all := seen + added;
    forall i, j | 0 <= i < j < |all| ensures all[i] != all[j] {
      if i < |seen| <= j {
        assert all[i] in seen && all[j] in added;
      }
    }
  }

  lemma NotBefore(topo: seq<Name>, parent: Name, rest: seq<Name>)
    requires Distinct(topo + ([parent] + rest))
    ensures parent !in topo
  {
    var all := topo + ([parent] + rest);
    assert all[|topo|] == parent;
    forall i | 0 <= i < |topo| ensures topo[i] != parent {
      assert all[i] == topo[i];
    }
  }

  /** The nodes released come after all their predecessors, and are new. */
  lemma ProgressAfter(dag: Drawing, topo: seq<Name>, parent: Name, rest: seq<Name>, added: seq<Name>,
                      before: map<Name, int>, after: map<Name, int>)
    requires Inverse(Succ(dag), Prev(dag)) && parent in dag
    requires Progress(dag, topo, [parent] + rest, before)
    requires Lowered(before, dag[parent].succ, after) && Released(before, dag[parent].succ, rest, rest + added)
    ensures Progress(dag, topo + [parent], rest + added, after)
  {
    var seen := topo + ([parent] + rest);
    assert (topo + [parent]) + (rest + added) == seen + added && seen[..|topo| + 1] == topo + [parent];
    assert (rest + added)[|rest|..] == added;
    NotBefore(topo, parent, rest);
    CountsAfter(dag, topo, parent, before, after);
    SeenAfter(dag, seen, added, dag[parent].succ, before, after);
    forall n | n in added ensures After(dag, n, seen[..|topo| + 1]) {
      assert after[n] == 0;
    }
    OrderedAfter(dag, seen, |topo| + 1, added);
    NewAreDistinct(seen, added);
  }

  lemma RoundKeepsProgress(dag: Drawing, topo: seq<Name>, parent: Name, rest: seq<Name>, grown: seq<Name>,
                           before: map<Name, int>, after: map<Name, int>)
    requires Inverse(Succ(dag), Prev(dag)) && parent in dag
    requires Progress(dag, topo, [parent] + rest, before)
    requires Lowered(before, dag[parent].succ, after) && Released(before, dag[parent].succ, rest, grown)
    ensures Progress(dag, topo + [parent], grown, after)
  {
    var added := grown[|rest|..];
    assert grown == rest + added;
    ProgressAfter(dag, topo, parent, rest, added, before, after);
  }

  /** A drained queue has seen every node of an acyclic drawing. */
  lemma {:induction false} DrainedSeesAll(starts: seq<Name>, dag: Drawing, topo: seq<Name>, inDegree: map<Name, int>,
                                          n: Name)
    requires WellLinked(starts, dag) && Acyclic(Prev(dag)) && Progress(dag, topo, [], inDegree) && n in dag
    ensures n in topo
    decreases Rank(Prev(dag), n)
  {
    assert topo + [] == topo;
    InverseClosed(Succ(dag), Prev(dag));
    forall p | p in dag[n].prev ensures p in topo {
      assert Edge(Prev(dag), n, p);
      RankDrops(Prev(dag), n, p);
      DrainedSeesAll(starts, dag, topo, inDegree, p);
    }
    assert Missing(dag, topo, n) == {};
  }

  /** A list of all nodes in which nothing comes before its predecessors shows there is no cycle. */
  lemma OrderedIsAcyclic(dag: Drawing, topo: seq<Name>)
    requires Inverse(Succ(dag), Prev(dag)) && Distinct(topo) && Ordered(dag, topo) && Elements(topo) == dag.Keys
    ensures Acyclic(Succ(dag))
  {
    InverseClosed(Succ(dag), Prev(dag));
    var rank: map<Name, int> := map n | n in dag :: |topo| - Position(topo, n);
    forall a, b | Edge(Succ(dag), a, b) ensures rank[b] < rank[a] {
      assert Edge(Prev(dag), b, a);
      assert a in Elements(topo) && b in Elements(topo);
      var i := Position(topo, b);
      assert After(dag, topo[i], topo[..i]);
      assert a in Elements(dag[b].prev) && a !in Missing(dag, topo[..i], b);
      assert a in Elements(topo[..i]);
      var j :| 0 <= j < i && topo[..i][j] == a;
      PositionAt(topo, j);
    }
    RankedIsAcyclic(Succ(dag), rank);
  }

  lemma FullCount(dag: Drawing, topo: seq<Name>)
    requires Distinct(topo) && forall n :: n in topo ==> n in dag
    ensures |topo| == |dag| <==> Elements(topo) == dag.Keys
  {
    ElementsSize(topo);
    SubsetSize(Elements(topo), dag.Keys);
  }

  /** On a well-linked drawing, seeing as many nodes as there are means there is no cycle, and conversely. */
  lemma CountDecides(starts: seq<Name>, dag: Drawing, topo: seq<Name>, inDegree: map<Name, int>)
    requires WellLinked(starts, dag) && Progress(dag, topo, [], inDegree)
    ensures |topo| == |inDegree| <==> Acyclic(Succ(dag))
    ensures |topo| == |inDegree| ==> forall n :: n in dag ==> n in topo
  {
    assert topo + [] == topo;
    FullCount(dag, topo);
    assert |inDegree| == |inDegree.Keys| == |dag.Keys|;
    if Acyclic(Succ(dag)) {
      InverseAcyclic(Succ(dag), Prev(dag));
      forall n | n in dag ensures n in topo { DrainedSeesAll(starts, dag, topo, inDegree, n); }
      assert Elements(topo) == dag.Keys;
    }
    if Elements(topo) == dag.Keys {
      OrderedIsAcyclic(dag, topo);
      assert forall n :: n in dag ==> n in Elements(topo);
    }
  }

  /**
   The check. On a well-linked drawing it succeeds exactly if there is no cycle and every edge joins known
   services with matching types; it always ends, and an edge error names an edge at fault.
   */
  method CheckDag(services: seq<ServiceDef>, starts: Option<seq<Name>>, dag: Drawing, startKey: Name)
    returns (err: Option<CheckError>)
    requires startKey !in dag
    ensures starts == None ==> err == Some(KeyMissing(startKey))
    ensures starts.Some? && err.Some? ==> Explained(services, starts.value, dag, err.value)
    ensures starts.Some? && WellLinked(starts.value, dag) ==>
      && (err == None <==> Acyclic(Succ(dag)) && AllJoinable(services, dag))
      && (err == Some(CyclesOrUnreachable) ==> !Acyclic(Succ(dag)))
  {
    if starts == None {
      return Some(KeyMissing(startKey));
    }
    ghost var good := WellLinked(starts.value, dag);
    var inDegree := map n | n in dag :: |dag[n].prev|;
    var queue, topo := starts.value, [];
    if good {
      InitialProgress(starts.value, dag, inDegree);
    }
    while queue != []
      invariant inDegree.Keys == dag.Keys && forall n :: n in queue ==> n in starts.value || n in dag
      invariant good ==> Progress(dag, topo, queue, inDegree)
      invariant DoneJoinable(services, dag, topo)
      decreases |queue| + |Waiting(inDegree)|
    {
      var parent, rest := queue[0], queue[1..];
      ghost var before, done := inDegree, topo;
      assert queue == [parent] + rest;
      topo := topo + [parent];
      if parent !in dag {
        assert parent in queue;
        return Some(KeyMissing(parent));
      }
      err, inDegree, queue := Relax(services, dag, parent, inDegree, rest);
      if err.Some? {
        return;
      }
      if good {
        RoundKeepsProgress(dag, done, parent, rest, queue, before, inDegree);
      }
    }
    if good {
      CountDecides(starts.value, dag, topo, inDegree);
    }
    if |topo| != |inDegree| {
      return Some(CyclesOrUnreachable);
    }
    return None;
  }
}
