/** What a breadth-first search towards the roots has met after a number of expansions: its order, and its distances. */
module SearchLevels {
  import opened Graphs
  import opened Lca

  // ----- distance -----

  /** The nodes at most `d` edges above `n`. */
  ghost function Ball(prev: Graph, n: Name, d: nat): (r: set<Name>)
    requires Closed(prev)
    ensures forall m {:trigger m in r} {:trigger Within(prev, n, m, d)} :: m in r <==> Within(prev, n, m, d)
  {
    forall m | Within(prev, n, m, d) ensures m in prev {
      var p :| PathFromTo(prev, p, n, m) && |p| <= d + 1;
      PathNodes(prev, p);
    }
    set m | m in prev && Within(prev, n, m, d)
  }

  ghost predicate Within(prev: Graph, n: Name, m: Name, d: nat) {
    exists p :: PathFromTo(prev, p, n, m) && |p| <= d + 1
  }

  lemma WithinSelf(prev: Graph, n: Name, d: nat)
    requires n in prev
    ensures Within(prev, n, n, d)
  {
    assert PathFromTo(prev, [n], n, n);
  }

  lemma WithinZero(prev: Graph, n: Name, m: Name)
    requires Within(prev, n, m, 0)
    ensures m == n
  {
  }

  lemma WithinMore(prev: Graph, n: Name, m: Name, d: nat, e: nat)
    requires Within(prev, n, m, d) && d <= e
    ensures Within(prev, n, m, e)
  {
  }

  lemma WithinStep(prev: Graph, n: Name, u: Name, m: Name, d: nat)
    requires Closed(prev) && Within(prev, n, u, d) && Edge(prev, u, m)
    ensures Within(prev, n, m, d + 1)
  {
    var p :| PathFromTo(prev, p, n, u) && |p| <= d + 1;
    PathSnoc(prev, p, m);
    assert PathFromTo(prev, p + [m], n, m);
  }

  /** Beyond the start, the last edge of a path comes from one edge nearer. */
  lemma WithinBefore(prev: Graph, n: Name, m: Name, d: nat) returns (u: Name)
    requires Closed(prev) && Within(prev, n, m, d + 1) && m != n
    ensures Within(prev, n, u, d) && Edge(prev, u, m)
  {
    var p :| PathFromTo(prev, p, n, m) && |p| <= d + 2;
    PathSlice(prev, p, 0, |p| - 1);
    assert EdgeAt(prev, p, |p| - 2);
    u := p[|p| - 2];
    assert PathFromTo(prev, p[0..|p| - 1], n, u);
  }

  lemma BallInAncestors(prev: Graph, n: Name, d: nat)
    requires Closed(prev)
    ensures Ball(prev, n, d) <= Ancestors(prev, n)
  {
    forall m | m in Ball(prev, n, d) ensures m in Ancestors(prev, n) {
      var p :| PathFromTo(prev, p, n, m) && |p| <= d + 1;
      PathNodes(prev, p);
    }
  }

  lemma BallGrows(prev: Graph, n: Name, d: nat, e: nat)
    requires Closed(prev) && d <= e
    ensures Ball(prev, n, d) <= Ball(prev, n, e) && |Ball(prev, n, d)| <= |Ball(prev, n, e)|
  {
    SubsetSize(Ball(prev, n, d), Ball(prev, n, e));
  }

  /** A distance that brings in nothing new is the last. */
  lemma BallStops(prev: Graph, n: Name, d: nat)
    requires Closed(prev) && n in prev && Ball(prev, n, d + 1) == Ball(prev, n, d)
    ensures Ball(prev, n, d) == Ancestors(prev, n)
  {
    var all := Ball(prev, n, d);
    WithinSelf(prev, n, d);
    forall u, v | u in all && Edge(prev, u, v) ensures v in all {
      WithinStep(prev, n, u, v, d);
      assert v in Ball(prev, n, d + 1);
    }
    forall m | m in Ancestors(prev, n) ensures m in all {
      ReachStaysIn(prev, all, n, m);
    }
    BallInAncestors(prev, n, d);
  }

  // ----- the state of one side, by distance -----

  /** A node is recorded with its distance. */
  ghost predicate Exact(prev: Graph, n: Name, x: Name, d: nat) {
    Within(prev, n, x, d) && (d > 0 ==> !Within(prev, n, x, d - 1))
  }

  ghost predicate NodesExact(prev: Graph, n: Name, visited: map<Name, nat>, most: nat) {
    forall x {:trigger visited[x]} {:trigger x in visited} :: x in visited ==>
      visited[x] <= most && Exact(prev, n, x, visited[x])
  }

  /** The queue holds nodes met, each once, nearest first, from level `least` to level `most`. */
  ghost predicate QueueLevelled(s: Side, least: nat, most: nat) {
    && (forall i {:trigger s.queue[i]} :: 0 <= i < |s.queue| ==> QueuedAt(s, s.queue[i], least, most))
    && (forall i, j :: 0 <= i < j < |s.queue| ==> s.queue[i].1 <= s.queue[j].1 && s.queue[i].0 != s.queue[j].0)
  }

  ghost predicate QueuedAt(s: Side, e: (Name, nat), least: nat, most: nat) {
    e.0 in s.visited && s.visited[e.0] == e.1 && least <= e.1 <= most
  }

  /**
   The levels of a search: nodes are recorded with their distances, the queue goes on from level `level` to the
   next and no further, something on that level has been expanded, and everything up to it has been met.
   */
  ghost predicate Levelled(prev: Graph, n: Name, s: Side, level: nat) {
    && NodesExact(prev, n, s.visited, level + 1)
    && QueueLevelled(s, level, level + 1)
    && (forall x {:trigger Expanded(s, x)} :: Expanded(s, x) ==> s.visited[x] <= level)
    && (level > 0 ==> exists x :: Expanded(s, x) && s.visited[x] == level)
    && (forall x {:trigger Within(prev, n, x, level)} :: Within(prev, n, x, level) ==> x in s.visited)
  }

  /** Met and no longer queued. */
  ghost predicate Expanded(s: Side, x: Name) {
    x in s.visited && !Queued(s, x)
  }

  ghost function ExpandedSet(s: Side): set<Name> {
    set x | x in s.visited && Expanded(s, x)
  }

  lemma StartLevelled(prev: Graph, n: Name)
    requires Closed(prev) && n in prev
    ensures Levelled(prev, n, Start(n), 0)
  {
    var s := Start(n);
    WithinSelf(prev, n, 0);
    assert s.queue[0].0 == n;
    assert Queued(s, n);
    forall x | Within(prev, n, x, 0) ensures x in s.visited {
      WithinZero(prev, n, x);
    }
  }

  lemma LongerQueue(s: Side, r: Side, x: Name)
    requires s.queue <= r.queue && Queued(s, x)
    ensures Queued(r, x)
  {
    var i :| 0 <= i < |s.queue| && s.queue[i].0 == x;
    assert r.queue[i].0 == x;
  }

  ghost predicate KeepsMet(s: Side, r: Side) {
    forall x :: x in s.visited ==> x in r.visited && r.visited[x] == s.visited[x]
  }

  ghost predicate SameExpanded(s: Side, r: Side) {
    forall x {:trigger Expanded(r, x)} {:trigger Expanded(s, x)} :: Expanded(r, x) <==> Expanded(s, x)
  }

  lemma MeetExact(prev: Graph, n: Name, s: Side, p: Name, d: nat, least: nat)
    requires NodesExact(prev, n, s.visited, d) && QueueLevelled(s, least, d) && least <= d
    requires p !in s.visited ==> Exact(prev, n, p, d)
    ensures var r := Meet(s, p, d);
      && NodesExact(prev, n, r.visited, d) && QueueLevelled(r, least, d)
      && s.queue <= r.queue && p in r.visited && KeepsMet(s, r) && SameExpanded(s, r)
  {
    if p !in s.visited {
      var r := Side(s.queue + [(p, d)], s.visited[p := d]);
      NewQueued(s, r, p, d, least);
      NewSameExpanded(s, r, p, d);
    }
  }

  lemma NewQueued(s: Side, r: Side, p: Name, d: nat, least: nat)
    requires QueueLevelled(s, least, d) && least <= d && p !in s.visited &&
      r == Side(s.queue + [(p, d)], s.visited[p := d])
    ensures QueueLevelled(r, least, d)
  {
    forall i | 0 <= i < |r.queue| ensures QueuedAt(r, r.queue[i], least, d) {
      assert i < |s.queue| ==> QueuedAt(s, s.queue[i], least, d);
    }
    forall i | 0 <= i < |s.queue| ensures s.queue[i].1 <= d && s.queue[i].0 != p {
      assert QueuedAt(s, s.queue[i], least, d);
    }
  }

  lemma NewSameExpanded(s: Side, r: Side, p: Name, d: nat)
    requires p !in s.visited && r == Side(s.queue + [(p, d)], s.visited[p := d])
    ensures SameExpanded(s, r)
  {
    assert r.queue[|s.queue|] == (p, d);
    forall x ensures Expanded(r, x) <==> Expanded(s, x) {
      assert x == p ==> Queued(r, x);
      if Queued(s, x) {
        LongerQueue(s, r, x);
      }
      if Queued(r, x) && x != p {
        var i :| 0 <= i < |r.queue| && r.queue[i].0 == x;
        assert s.queue[i].0 == x;
      }
    }
  }

  /** Meeting parents one level up appends exactly the new ones. */
  lemma {:induction false} MeetAllExact(prev: Graph, n: Name, s: Side, parents: seq<Name>, d: nat, least: nat)
    requires NodesExact(prev, n, s.visited, d) && QueueLevelled(s, least, d) && least <= d
    requires forall p :: p in parents && p !in s.visited ==> Exact(prev, n, p, d)
    ensures var r := MeetAll(s, parents, d);
      && NodesExact(prev, n, r.visited, d) && QueueLevelled(r, least, d)
      && s.queue <= r.queue && (forall p :: p in parents ==> p in r.visited)
      && KeepsMet(s, r) && SameExpanded(s, r)
    decreases |parents|
  {
    if parents != [] {
      var rest, p := parents[..|parents| - 1], parents[|parents| - 1];
      assert parents == rest + [p];
      MeetAllExact(prev, n, s, rest, d, least);
      MeetExact(prev, n, MeetAll(s, rest, d), p, d, least);
    }
  }

  ghost predicate OneExpanded(s: Side, r: Side, head: Name) {
    forall x {:trigger Expanded(r, x)} :: Expanded(r, x) <==> Expanded(s, x) || x == head
  }

  /** The head leaves the queue and is expanded; nothing else changes. */
  lemma PopLevelled(prev: Graph, n: Name, s: Side, level: nat)
    requires Levelled(prev, n, s, level) && s.queue != []
    ensures var popped := s.(queue := s.queue[1..]);
      && QueueLevelled(popped, s.queue[0].1, level + 1)
      && OneExpanded(s, popped, s.queue[0].0)
  {
    var popped := s.(queue := s.queue[1..]);
    assert QueuedAt(s, s.queue[0], level, level + 1);
    forall i | 0 <= i < |popped.queue| ensures QueuedAt(popped, popped.queue[i], s.queue[0].1, level + 1) {
      assert popped.queue[i] == s.queue[i + 1] && QueuedAt(s, s.queue[i + 1], level, level + 1);
    }
    forall x ensures Expanded(popped, x) <==> Expanded(s, x) || x == s.queue[0].0 {
      if Queued(popped, x) {
        var i :| 0 <= i < |popped.queue| && popped.queue[i].0 == x;
        assert s.queue[i + 1].0 == x;
        assert Queued(s, x);
      }
      if Queued(s, x) {
        var i :| 0 <= i < |s.queue| && s.queue[i].0 == x;
        if i > 0 {
          assert popped.queue[i - 1].0 == x;
          assert Queued(popped, x);
        }
      }
    }
  }

  /** When the head enters the next level, everything on that level has been met. */
  lemma NextLevelMet(prev: Graph, n: Name, s: Side, level: nat, k: nat)
    requires Closed(prev) && Levelled(prev, n, s, level) && SideOk(prev, n, s, k)
    requires s.queue == [] || s.queue[0].1 > level
    ensures forall x {:trigger Within(prev, n, x, level + 1)} :: Within(prev, n, x, level + 1) ==> x in s.visited
  {
    forall x | Within(prev, n, x, level + 1) ensures x in s.visited {
      if x != n {
        var u := WithinBefore(prev, n, x, level);
        assert u in s.visited;
        NearIsExpanded(prev, n, s, level, u);
      }
    }
  }

  /** With the head on the next level, whatever is as near as this one has been expanded. */
  lemma NearIsExpanded(prev: Graph, n: Name, s: Side, level: nat, u: Name)
    requires Levelled(prev, n, s, level) && Within(prev, n, u, level) && (s.queue == [] || s.queue[0].1 > level)
    ensures Expanded(s, u)
  {
    assert u in s.visited && Exact(prev, n, u, s.visited[u]);
    forall i | 0 <= i < |s.queue| ensures s.queue[i].0 != u {
      assert QueuedAt(s, s.queue[i], level, level + 1);
      assert s.queue[0].1 <= s.queue[i].1;
    }
  }

  /** Parents of the head not met before are one farther than it. */
  lemma HeadParentsExact(prev: Graph, n: Name, s: Side, level: nat, k: nat)
    requires Closed(prev) && Levelled(prev, n, s, level) && SideOk(prev, n, s, k)
    requires s.queue != [] && s.queue[0].0 in prev
    ensures var (head, d) := s.queue[0]; level <= d && forall p :: p in prev[head] && p !in s.visited ==>
      Exact(prev, n, p, d + 1)
    ensures forall x {:trigger Within(prev, n, x, s.queue[0].1)} :: Within(prev, n, x, s.queue[0].1) ==> x in s.visited
  {
    var (head, d) := s.queue[0];
    assert QueuedAt(s, s.queue[0], level, level + 1);
    if d > level {
      NextLevelMet(prev, n, s, level, k);
    }
    forall p | p in prev[head] && p !in s.visited ensures Exact(prev, n, p, d + 1) {
      assert Exact(prev, n, head, d);
      WithinStep(prev, n, head, p, d);
      assert !Within(prev, n, p, d);
    }
  }

  lemma QueueReaches(s: Side, least: nat, most: nat, more: nat)
    requires QueueLevelled(s, least, most) && most <= more
    ensures QueueLevelled(s, least, more)
  {
    forall i | 0 <= i < |s.queue| ensures QueuedAt(s, s.queue[i], least, more) {
      assert QueuedAt(s, s.queue[i], least, most);
    }
  }

  /** With the head gone, the rest of the queue lies between its level and the next. */
  lemma PoppedReady(prev: Graph, n: Name, s: Side, level: nat)
    requires Levelled(prev, n, s, level) && s.queue != [] && level <= s.queue[0].1
    ensures var (head, d), popped := s.queue[0], s.(queue := s.queue[1..]);
      && NodesExact(prev, n, popped.visited, d + 1) && QueueLevelled(popped, d, d + 1) && OneExpanded(s, popped, head)
      && head in s.visited && s.visited[head] == d
  {
    PopLevelled(prev, n, s, level);
    QueueReaches(s.(queue := s.queue[1..]), s.queue[0].1, level + 1, s.queue[0].1 + 1);
    assert QueuedAt(s, s.queue[0], level, level + 1);
  }

  lemma AdvanceIs(prev: Graph, s: Side)
    requires s.queue != [] && s.queue[0].0 in prev
    ensures Advance(prev, s) == MeetAll(s.(queue := s.queue[1..]), prev[s.queue[0].0], s.queue[0].1 + 1)
  {
  }

  /** Expanding the head keeps the levels; the level is the head's. */
  lemma AdvanceLevelled(prev: Graph, n: Name, s: Side, level: nat, k: nat)
    requires Closed(prev) && n in prev && Levelled(prev, n, s, level) && SideOk(prev, n, s, k)
    requires s.queue != [] && s.queue[0].0 in prev
    ensures level <= s.queue[0].1 && Levelled(prev, n, Advance(prev, s), s.queue[0].1)
  {
    HeadParentsExact(prev, n, s, level, k);
    AdvanceIs(prev, s);
    ParentsMet(prev, n, s, level, Advance(prev, s));
  }

  lemma ParentsMet(prev: Graph, n: Name, s: Side, level: nat, r: Side)
    requires Levelled(prev, n, s, level) && s.queue != [] && s.queue[0].0 in prev && level <= s.queue[0].1
    requires forall p :: p in prev[s.queue[0].0] && p !in s.visited ==> Exact(prev, n, p, s.queue[0].1 + 1)
    requires forall x {:trigger Within(prev, n, x, s.queue[0].1)} :: Within(prev, n, x, s.queue[0].1) ==> x in s.visited
    requires r == MeetAll(s.(queue := s.queue[1..]), prev[s.queue[0].0], s.queue[0].1 + 1)
    ensures Levelled(prev, n, r, s.queue[0].1)
  {
    var (head, d) := s.queue[0];
    var popped := s.(queue := s.queue[1..]);
    PoppedReady(prev, n, s, level);
    MeetAllExact(prev, n, popped, prev[head], d + 1, d);
    Relevelled(prev, n, s, popped, r, level);
  }

  /** With the head expanded and its parents met, the side is on the head's level. */
  lemma Relevelled(prev: Graph, n: Name, s: Side, popped: Side, r: Side, level: nat)
    requires Levelled(prev, n, s, level) && s.queue != [] && level <= s.queue[0].1 && s.queue[0].0 in s.visited
    requires s.visited[s.queue[0].0] == s.queue[0].1
    requires forall x {:trigger Within(prev, n, x, s.queue[0].1)} :: Within(prev, n, x, s.queue[0].1) ==> x in s.visited
    requires popped.visited == s.visited && OneExpanded(s, popped, s.queue[0].0)
    requires NodesExact(prev, n, r.visited, s.queue[0].1 + 1) && QueueLevelled(r, s.queue[0].1, s.queue[0].1 + 1)
    requires KeepsMet(popped, r) && SameExpanded(popped, r)
    ensures Levelled(prev, n, r, s.queue[0].1)
  {
    var (head, d) := s.queue[0];
    assert Expanded(popped, head) && Expanded(r, head) && r.visited[head] == d;
    forall x | Expanded(r, x) ensures r.visited[x] <= d {
      assert Expanded(popped, x);
      assert x == head || Expanded(s, x);
    }
  }

  lemma LevelAdvances(prev: Graph, n: Name, k: nat)
    requires Closed(prev) && n in prev && 0 < k <= |Ancestors(prev, n)|
    requires Levelled(prev, n, Rounds(prev, n, k - 1), LevelAfter(prev, n, k - 1))
    ensures Levelled(prev, n, Rounds(prev, n, k), LevelAfter(prev, n, k))
  {
    var s := Rounds(prev, n, k - 1);
    NextRoundQueue(prev, n, k - 1);
    AdvanceLevelled(prev, n, s, LevelAfter(prev, n, k - 1), k - 1);
    assert Rounds(prev, n, k) == Advance(prev, s) && LevelAfter(prev, n, k) == s.queue[0].1;
  }

  /** After any number of rounds the levels are in order, and the level is the one the last head was on. */
  lemma {:induction false} RoundLevelled(prev: Graph, n: Name, k: nat)
    requires Closed(prev) && n in prev && k <= |Ancestors(prev, n)|
    ensures Levelled(prev, n, Rounds(prev, n, k), LevelAfter(prev, n, k))
  {
    if k == 0 {
      StartLevelled(prev, n);
    } else {
      RoundLevelled(prev, n, k - 1);
      LevelAdvances(prev, n, k);
    }
  }

  /** Short of all ancestors something is queued, and it is a node. */
  lemma NextRoundQueue(prev: Graph, n: Name, k: nat)
    requires Closed(prev) && n in prev && k < |Ancestors(prev, n)|
    ensures var s := Rounds(prev, n, k); SideOk(prev, n, s, k) && s.queue != [] && s.queue[0].0 in prev
  {
    RoundOk(prev, n, k);
  }

  // ----- counting expansions -----

  lemma QueuedNames(s: Side, least: nat, most: nat)
    requires QueueLevelled(s, least, most)
    ensures |Elements(QueueNames(s.queue))| == |s.queue| && Elements(QueueNames(s.queue)) <= s.visited.Keys
    ensures forall x :: x in Elements(QueueNames(s.queue)) <==> Queued(s, x)
  {
    var names := QueueNames(s.queue);
    ElementsSize(names);
    forall x ensures x in Elements(names) <==> Queued(s, x) {
      if Queued(s, x) {
        var i :| 0 <= i < |s.queue| && s.queue[i].0 == x;
        assert names[i] == x;
      }
      if x in Elements(names) {
        var i :| 0 <= i < |names| && names[i] == x;
        assert s.queue[i].0 == x;
      }
    }
    forall x | x in Elements(names) ensures x in s.visited.Keys {
      var i :| 0 <= i < |names| && names[i] == x;
      assert QueuedAt(s, s.queue[i], least, most);
    }
  }

  lemma ExpandedCount(s: Side, least: nat, most: nat, k: nat)
    requires QueueLevelled(s, least, most) && |s.visited.Keys| == k + |s.queue|
    ensures |ExpandedSet(s)| == k
  {
    var names := Elements(QueueNames(s.queue));
    QueuedNames(s, least, most);
    assert ExpandedSet(s) == s.visited.Keys - names;
    assert s.visited.Keys == ExpandedSet(s) + names;
  }

  /** Between levels: exactly the level is expanded, and exactly the next one met. */
  lemma AtBoundary(prev: Graph, n: Name, s: Side, level: nat, k: nat)
    requires Closed(prev) && Levelled(prev, n, s, level) && SideOk(prev, n, s, k)
    requires s.queue == [] || s.queue[0].1 > level
    ensures s.visited.Keys == Ball(prev, n, level + 1) && k == |Ball(prev, n, level)|
  {
    NextLevelMet(prev, n, s, level, k);
    ExpandedCount(s, level, level + 1, k);
    forall x ensures x in s.visited.Keys <==> x in Ball(prev, n, level + 1) {
      if x in s.visited {
        assert Exact(prev, n, x, s.visited[x]);
        WithinMore(prev, n, x, s.visited[x], level + 1);
      }
    }
    forall x ensures x in ExpandedSet(s) <==> x in Ball(prev, n, level) {
      if Expanded(s, x) {
        assert Exact(prev, n, x, s.visited[x]);
        WithinMore(prev, n, x, s.visited[x], level);
      }
      if Within(prev, n, x, level) {
        NearIsExpanded(prev, n, s, level, x);
      }
    }
    assert ExpandedSet(s) == Ball(prev, n, level);
  }

  /** Within a level: more is expanded than the level before, and less than this one. */
  lemma WithinLevel(prev: Graph, n: Name, s: Side, level: nat, k: nat)
    requires Closed(prev) && Levelled(prev, n, s, level) && SideOk(prev, n, s, k)
    requires s.queue != [] && s.queue[0].1 == level
    ensures k < |Ball(prev, n, level)| && (level > 0 ==> |Ball(prev, n, level - 1)| < k)
    ensures Ball(prev, n, level) <= s.visited.Keys <= Ball(prev, n, level + 1)
  {
    ExpandedCount(s, level, level + 1, k);
    assert QueuedAt(s, s.queue[0], level, level + 1);
    var head := s.queue[0].0;
    assert Queued(s, head) && Exact(prev, n, head, level);
    forall x | x in s.visited ensures x in Ball(prev, n, level + 1) {
      assert Exact(prev, n, x, s.visited[x]);
      WithinMore(prev, n, x, s.visited[x], level + 1);
    }
    forall x | Expanded(s, x) ensures x in Ball(prev, n, level) {
      assert Exact(prev, n, x, s.visited[x]);
      WithinMore(prev, n, x, s.visited[x], level);
    }
    assert head in Ball(prev, n, level) && head !in ExpandedSet(s);
    SubsetSize(ExpandedSet(s), Ball(prev, n, level));
    if level > 0 {
      var last :| Expanded(s, last) && s.visited[last] == level;
      assert Exact(prev, n, last, level);
      forall x | x in Ball(prev, n, level - 1) ensures x in ExpandedSet(s) {
        NearerIsExpanded(prev, n, s, level, x);
      }
      SubsetSize(Ball(prev, n, level - 1), ExpandedSet(s));
    }
  }

  lemma NearerIsExpanded(prev: Graph, n: Name, s: Side, level: nat, x: Name)
    requires Levelled(prev, n, s, level) && level > 0 && Within(prev, n, x, level - 1)
    ensures Expanded(s, x)
  {
    WithinMore(prev, n, x, level - 1, level);
    assert x in s.visited;
    ExactIsLeast(prev, n, x, s.visited[x], level - 1);
    forall i | 0 <= i < |s.queue| ensures s.queue[i].0 != x {
      assert QueuedAt(s, s.queue[i], level, level + 1);
    }
  }

  lemma ExactIsLeast(prev: Graph, n: Name, x: Name, d: nat, e: nat)
    requires Exact(prev, n, x, d) && Within(prev, n, x, e)
    ensures d <= e
  {
  }
}
