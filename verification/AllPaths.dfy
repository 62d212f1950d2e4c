/** All simple paths between two nodes, by an explicit stack of partial paths. */
module AllPaths {
  import opened Graphs
  import opened PathWeights
  import opened Wrappers

  ghost predicate SimplePath(g: Graph, p: seq<Name>, src: Name, dest: Name) {
    PathFromTo(g, p, src, dest) && Distinct(p)
  }

  /** A partial path as the stack holds it. */
  ghost predicate Partial(g: Graph, p: seq<Name>) {
    IsPath(g, p) && Distinct(p)
  }

  ghost function Last(p: seq<Name>): Name
    requires p != []
  {
    p[|p| - 1]
  }

  lemma DistinctWithin<T>(s: seq<T>, bound: set<T>)
    requires Distinct(s) && forall x :: x in s ==> x in bound
    ensures |s| <= |bound|
  {
    ElementsSize(s);
    SubsetSize(Elements(s), bound);
  }

  lemma PartialExtends(g: Graph, p: seq<Name>, c: Name)
    requires Closed(g) && Partial(g, p) && Last(p) in g && c in g[Last(p)] && c !in p
    ensures Partial(g, p + [c]) && |p| < |g|
  {
    PathSnoc(g, p, c);
    PathNodes(g, p + [c]);
    DistinctWithin(p + [c], g.Keys);
  }

  lemma PartialEnds(g: Graph, p: seq<Name>)
    requires Closed(g) && Partial(g, p)
    ensures Last(p) in g && |p| <= |g|
  {
    PathNodes(g, p);
    DistinctWithin(p, g.Keys);
  }

  /** The completions of `p` to `dest`, in the order the stack search meets them: last successor first. */
  ghost function Completions(g: Graph, dest: Name, p: seq<Name>): seq<seq<Name>>
    requires Closed(g) && Partial(g, p)
    decreases |g| - |p|, 1, 0
  {
    PartialEnds(g, p);
    if Last(p) == dest then [p] else CompletionsVia(g, dest, p, g[Last(p)])
  }

  ghost function CompletionsVia(g: Graph, dest: Name, p: seq<Name>, cs: seq<Name>): seq<seq<Name>>
    requires Closed(g) && Partial(g, p) && Last(p) in g && cs <= g[Last(p)] && |p| <= |g|
    decreases |g| - |p|, 0, |cs|
  {
    if cs == [] then [] else
      var c := cs[|cs| - 1];
      (if c in p then [] else (PartialExtends(g, p, c); Completions(g, dest, p + [c])))
      + CompletionsVia(g, dest, p, cs[..|cs| - 1])
  }

  /** How many partial paths the search still pops below `p`, itself included. */
  ghost function Pops(g: Graph, dest: Name, p: seq<Name>): nat
    requires Closed(g) && Partial(g, p)
    decreases |g| - |p|, 1, 0
  {
    PartialEnds(g, p);
    if Last(p) == dest then 1 else 1 + PopsVia(g, dest, p, g[Last(p)])
  }

  ghost function PopsVia(g: Graph, dest: Name, p: seq<Name>, cs: seq<Name>): nat
    requires Closed(g) && Partial(g, p) && Last(p) in g && cs <= g[Last(p)] && |p| <= |g|
    decreases |g| - |p|, 0, |cs|
  {
    if cs == [] then 0 else
      var c := cs[|cs| - 1];
      (if c in p then 0 else (PartialExtends(g, p, c); Pops(g, dest, p + [c])))
      + PopsVia(g, dest, p, cs[..|cs| - 1])
  }

  ghost predicate StackOk(g: Graph, stack: seq<(Name, seq<Name>)>) {
    forall i :: 0 <= i < |stack| ==> Partial(g, stack[i].1) && stack[i].0 == Last(stack[i].1)
  }

  ghost function StackCompletions(g: Graph, dest: Name, stack: seq<(Name, seq<Name>)>): seq<seq<Name>>
    requires Closed(g) && StackOk(g, stack)
  {
    if stack == [] then [] else
      Completions(g, dest, stack[|stack| - 1].1) + StackCompletions(g, dest, stack[..|stack| - 1])
  }

  ghost function StackPops(g: Graph, dest: Name, stack: seq<(Name, seq<Name>)>): nat
    requires Closed(g) && StackOk(g, stack)
  {
    if stack == [] then 0 else
      Pops(g, dest, stack[|stack| - 1].1) + StackPops(g, dest, stack[..|stack| - 1])
  }

  /** Popping the topmost partial path. */
  lemma StackTop(g: Graph, dest: Name, stack: seq<(Name, seq<Name>)>, top: (Name, seq<Name>))
    requires Closed(g) && StackOk(g, stack) && Partial(g, top.1) && top.0 == Last(top.1)
    ensures StackOk(g, stack + [top])
    ensures StackCompletions(g, dest, stack + [top]) == Completions(g, dest, top.1) + StackCompletions(g, dest, stack)
    ensures StackPops(g, dest, stack + [top]) == Pops(g, dest, top.1) + StackPops(g, dest, stack)
  {
    assert (stack + [top])[..|stack|] == stack;
  }

  /** The stack holds the completions and pops of the first `n` successors on top of those of `stack0`. */
  ghost predicate Pushed(g: Graph, dest: Name, path: seq<Name>, n: nat, stack0: seq<(Name, seq<Name>)>,
                         stack: seq<(Name, seq<Name>)>)
    requires Closed(g) && Partial(g, path) && Last(path) in g && |path| <= |g| && StackOk(g, stack0) &&
      n <= |g[Last(path)]|
  {
    && StackOk(g, stack)
    && StackCompletions(g, dest, stack) == CompletionsVia(g, dest, path, g[Last(path)][..n]) +
       StackCompletions(g, dest, stack0)
    && StackPops(g, dest, stack) == PopsVia(g, dest, path, g[Last(path)][..n]) + StackPops(g, dest, stack0)
  }

  lemma PushChild(g: Graph, dest: Name, path: seq<Name>, n: nat, stack0: seq<(Name, seq<Name>)>,
                  stack: seq<(Name, seq<Name>)>)
    requires Closed(g) && Partial(g, path) && Last(path) in g && |path| <= |g| && StackOk(g, stack0) &&
      n < |g[Last(path)]|
    requires Pushed(g, dest, path, n, stack0, stack)
    ensures var child := g[Last(path)][n];
            Pushed(g, dest, path, n + 1, stack0, if child in path then stack else stack + [(child, path + [child])])
  {
    var cs := g[Last(path)];
    var child := cs[n];
    assert cs[..n + 1][..n] == cs[..n] && cs[..n + 1][n] == child;
    if child !in path {
      PartialExtends(g, path, child);
      StackTop(g, dest, stack, (child, path + [child]));
      ConcatAssociates(Completions(g, dest, path + [child]), CompletionsVia(g, dest, path, cs[..n]),
        StackCompletions(g, dest, stack0));
    }
  }

  lemma ConcatAssociates<T>(a: seq<T>, b: seq<T>, c: seq<T>)
    ensures a + (b + c) == a + b + c
  {
  }

  /** The inner loop: pushes every extension of `path` by a successor not yet on it. */
  method PushChildren(g: Graph, dest: Name, current: Name, path: seq<Name>, stack0: seq<(Name, seq<Name>)>)
    returns (stack: seq<(Name, seq<Name>)>)
    requires Closed(g) && StackOk(g, stack0) && Partial(g, path) && current == Last(path) && current != dest
    ensures StackOk(g, stack)
    ensures StackCompletions(g, dest, stack) == Completions(g, dest, path) + StackCompletions(g, dest, stack0)
    ensures StackPops(g, dest, stack) < Pops(g, dest, path) + StackPops(g, dest, stack0)
  {
    PartialEnds(g, path);
    stack := stack0;
    assert g[current][..0] == [];
    for i := 0 to |g[current]|
      invariant Pushed(g, dest, path, i, stack0, stack)
    {
      var child := g[current][i];
      PushChild(g, dest, path, i, stack0, stack);
      if child !in path {
        stack := stack + [(child, path + [child])];
      }
    }
    assert g[current][..|g[current]|] == g[current];
  }

  method GetAllPaths(g: Graph, src: Name, dest: Name) returns (r: Result<seq<seq<Name>>, PathError>)
    requires Closed(g)
    ensures src !in g || dest !in g ==> r == Failure(UnknownNode)
    ensures src in g && dest in g ==> (r == Failure(NoPath) <==> !Reach(g, src, dest))
    ensures Reach(g, src, dest) ==> r.Success? && forall p :: p in r.value <==> SimplePath(g, p, src, dest)
    ensures r.Success? && (forall n :: n in g ==> Distinct(g[n])) ==> Distinct(r.value)
  {
    if src !in g || dest !in g {
      if Reach(g, src, dest) {
        ReachNodes(g, src, dest);
      }
      return Failure(UnknownNode);
    }
    var paths: seq<seq<Name>> := [];
    var stack := [(src, [src])];
    assert StackCompletions(g, dest, stack) == Completions(g, dest, [src]);
    while stack != []
      invariant StackOk(g, stack)
      invariant paths + StackCompletions(g, dest, stack) == Completions(g, dest, [src])
      decreases StackPops(g, dest, stack)
    {
      var (current, path) := stack[|stack| - 1];
      StackTop(g, dest, stack[..|stack| - 1], stack[|stack| - 1]);
      assert stack == stack[..|stack| - 1] + [stack[|stack| - 1]];
      stack := stack[..|stack| - 1];
      if current == dest {
        paths := paths + [path];
        continue;
      }
      stack := PushChildren(g, dest, current, path, stack);
    }
    assert paths == Completions(g, dest, [src]);
    CompletionsAnswer(g, src, dest, paths);
    if paths == [] {
      return Failure(NoPath);
    }
    return Success(paths);
  }

  lemma CompletionsAnswer(g: Graph, src: Name, dest: Name, paths: seq<seq<Name>>)
    requires Closed(g) && src in g && paths == Completions(g, dest, [src])
    ensures paths == [] <==> !Reach(g, src, dest)
    ensures forall p :: p in paths <==> SimplePath(g, p, src, dest)
    ensures (forall n :: n in g ==> Distinct(g[n])) ==> Distinct(paths)
  {
    CompletionsExact(g, src, dest);
    if forall n :: n in g ==> Distinct(g[n]) {
      CompletionsDistinct(g, dest, [src]);
    }
  }

  /** The search from `src` lists exactly the simple paths, and some iff `dest` is reachable. */
  lemma CompletionsExact(g: Graph, src: Name, dest: Name)
    requires Closed(g) && src in g
    ensures forall q :: q in Completions(g, dest, [src]) <==> SimplePath(g, q, src, dest)
    ensures Completions(g, dest, [src]) == [] <==> !Reach(g, src, dest)
  {
    forall q ensures q in Completions(g, dest, [src]) <==> SimplePath(g, q, src, dest) {
      if q in Completions(g, dest, [src]) {
        CompletionSound(g, dest, [src], q);
      }
      if SimplePath(g, q, src, dest) {
        CompletionFound(g, dest, [src], q);
      }
    }
    if Reach(g, src, dest) {
      var p :| PathFromTo(g, p, src, dest);
      var q := CutLoops(g, p);
      assert SimplePath(g, q, src, dest);
    }
    if Completions(g, dest, [src]) != [] {
      assert Completions(g, dest, [src])[0] in Completions(g, dest, [src]);
    }
  }

  lemma {:induction false} CompletionSound(g: Graph, dest: Name, p: seq<Name>, q: seq<Name>)
    requires Closed(g) && Partial(g, p) && q in Completions(g, dest, p)
    ensures SimplePath(g, q, p[0], dest) && p <= q
    decreases |g| - |p|, 1, 0
  {
    PartialEnds(g, p);
    if Last(p) != dest {
      CompletionViaSound(g, dest, p, g[Last(p)], q);
    }
  }

  lemma {:induction false} CompletionViaSound(g: Graph, dest: Name, p: seq<Name>, cs: seq<Name>, q: seq<Name>)
    requires Closed(g) && Partial(g, p) && Last(p) in g && cs <= g[Last(p)] && |p| <= |g|
    requires q in CompletionsVia(g, dest, p, cs)
    ensures SimplePath(g, q, p[0], dest) && p <= q && |q| > |p| && q[|p|] in cs
    decreases |g| - |p|, 0, |cs|
  {
    var c := cs[|cs| - 1];
    if q in CompletionsVia(g, dest, p, cs[..|cs| - 1]) {
      CompletionViaSound(g, dest, p, cs[..|cs| - 1], q);
    } else {
      PartialExtends(g, p, c);
      CompletionSound(g, dest, p + [c], q);
      assert p <= p + [c];
      assert (p + [c])[|p|] == c;
    }
  }

  lemma {:induction false} CompletionFound(g: Graph, dest: Name, p: seq<Name>, q: seq<Name>)
    requires Closed(g) && Partial(g, p) && SimplePath(g, q, p[0], dest) && p <= q
    ensures q in Completions(g, dest, p)
    decreases |g| - |p|
  {
    PartialEnds(g, p);
    if Last(p) == dest {
      assert q[|p| - 1] == Last(p) == q[|q| - 1];
      assert |p| == |q| && p == q;
    } else {
      assert q[|p| - 1] == Last(p) && |p| < |q|;
      var c := q[|p|];
      assert EdgeAt(g, q, |p| - 1);
      assert c !in p by {
        assert forall i :: 0 <= i < |p| ==> p[i] == q[i] != q[|p|];
      }
      PartialExtends(g, p, c);
      CompletionFound(g, dest, p + [c], q);
      CompletionViaFound(g, dest, p, g[Last(p)], c, q);
    }
  }

  lemma {:induction false} CompletionViaFound(g: Graph, dest: Name, p: seq<Name>, cs: seq<Name>, c: Name, q: seq<Name>)
    requires Closed(g) && Partial(g, p) && Last(p) in g && cs <= g[Last(p)] && |p| <= |g|
    requires c in cs && c !in p && Partial(g, p + [c]) && q in Completions(g, dest, p + [c])
    ensures q in CompletionsVia(g, dest, p, cs)
    decreases |cs|
  {
    if cs[|cs| - 1] != c {
      CompletionViaFound(g, dest, p, cs[..|cs| - 1], c, q);
    }
  }

  /** Duplicate-free successor lists make the search meet every path once. */
  lemma {:induction false} CompletionsDistinct(g: Graph, dest: Name, p: seq<Name>)
    requires Closed(g) && Partial(g, p) && forall n :: n in g ==> Distinct(g[n])
    ensures Distinct(Completions(g, dest, p))
    decreases |g| - |p|, 1, 0
  {
    PartialEnds(g, p);
    if Last(p) != dest {
      CompletionsViaDistinct(g, dest, p, g[Last(p)]);
    }
  }

  lemma {:induction false} CompletionsViaDistinct(g: Graph, dest: Name, p: seq<Name>, cs: seq<Name>)
    requires Closed(g) && Partial(g, p) && Last(p) in g && cs <= g[Last(p)] && |p| <= |g|
    requires forall n :: n in g ==> Distinct(g[n])
    ensures Distinct(CompletionsVia(g, dest, p, cs))
    decreases |g| - |p|, 0, |cs|
  {
    if cs != [] {
      var c, rest := cs[|cs| - 1], cs[..|cs| - 1];
      var later := CompletionsVia(g, dest, p, rest);
      CompletionsViaDistinct(g, dest, p, rest);
      assert Distinct(g[Last(p)]);
      assert c !in rest;
      if c !in p {
        PartialExtends(g, p, c);
        var first := Completions(g, dest, p + [c]);
        CompletionsDistinct(g, dest, p + [c]);
        forall q | q in first ensures q !in later {
          CompletionSound(g, dest, p + [c], q);
          assert q[|p|] == (p + [c])[|p|] == c;
          if q in later {
            CompletionViaSound(g, dest, p, rest, q);
          }
        }
        DistinctConcat(first, later);
      } else {
        assert CompletionsVia(g, dest, p, cs) == [] + later == later;
      }
    }
  }

  lemma DistinctConcat<T>(a: seq<T>, b: seq<T>)
    requires Distinct(a) && Distinct(b) && forall x :: x in a ==> x !in b
    ensures Distinct(a + b)
  {
    var s := a + b;
    forall i, j | 0 <= i < j < |s| ensures s[i] != s[j] {
      if i < |a| <= j {
        assert s[i] in a && s[j] == b[j - |a|];
      }
    }
  }

  /** Cutting its loops turns any path into a simple one with the same ends. */
  lemma {:induction false} CutLoops(g: Graph, p: seq<Name>) returns (q: seq<Name>)
    requires Closed(g) && IsPath(g, p)
    ensures SimplePath(g, q, p[0], Last(p))
    decreases |p|
  {
    if Distinct(p) {
      q := p;
    } else {
      var i, j :| 0 <= i < j < |p| && p[i] == p[j];
      PathSlice(g, p, 0, i + 1);
      PathSlice(g, p, j, |p|);
      PathJoin(g, p[0..i + 1], p[j..|p|]);
      q := CutLoops(g, p[0..i + 1] + p[j..|p|][1..]);
    }
  }
}
