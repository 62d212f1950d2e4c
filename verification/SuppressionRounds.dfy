/**
 Suppression in rounds: the first of a list is kept and everything it suppresses goes, itself included if it
 suppresses itself, until nothing is left. Over any relation, so that when the rounds end is seen apart from boxes.
 */
module SuppressionRounds {

  /** What the first one does not suppress, in order. */
  function Survivors<T(!new)>(hits: (T, T) -> bool, first: T, s: seq<T>): (r: seq<T>)
    ensures |r| <= |s| && forall b :: b in r <==> b in s && !hits(first, b)
  {
    if s == [] then []
    else
      var rest := Survivors(hits, first, s[1..]);
      if hits(first, s[0]) then rest else [s[0]] + rest
  }

  ghost function NextRound<T(!new)>(hits: (T, T) -> bool, s: seq<T>): seq<T> {
    if s == [] then [] else Survivors(hits, s[0], s)
  }

  /** What is left after `n` rounds. */
  ghost function Rounds<T(!new)>(hits: (T, T) -> bool, s: seq<T>, n: nat): seq<T>
    decreases n
  {
    if n == 0 then s else Rounds(hits, NextRound(hits, s), n - 1)
  }

  ghost predicate SomeRoundEnds<T(!new)>(hits: (T, T) -> bool, s: seq<T>) {
    exists n: nat :: Rounds(hits, s, n) == []
  }

  /** A round either removes its first element or leaves it first for ever. */
  lemma RoundStuckIff<T(!new)>(hits: (T, T) -> bool, s: seq<T>)
    requires s != []
    ensures if hits(s[0], s[0]) then |NextRound(hits, s)| < |s|
      else NextRound(hits, s) != [] && NextRound(hits, s)[0] == s[0]
  {
  }

  /** The rounds end if everything suppresses itself. */
  lemma {:induction false} RoundsEnd<T(!new)>(hits: (T, T) -> bool, s: seq<T>, n: nat)
    requires forall b :: b in s ==> hits(b, b)
    ensures Rounds(hits, s, n) == [] || |Rounds(hits, s, n)| + n <= |s|
    decreases n
  {
    if n > 0 {
      RoundsEnd(hits, NextRound(hits, s), n - 1);
      if s != [] {
        RoundStuckIff(hits, s);
      }
    }
  }

  /** They never do if the first does not suppress itself. */
  lemma {:induction false} RoundsStuck<T(!new)>(hits: (T, T) -> bool, s: seq<T>, n: nat)
    requires s != [] && !hits(s[0], s[0])
    ensures Rounds(hits, s, n) != [] && Rounds(hits, s, n)[0] == s[0]
    decreases n
  {
    if n > 0 {
      RoundStuckIff(hits, s);
      RoundsStuck(hits, NextRound(hits, s), n - 1);
    }
  }

  // ----- what the rounds keep, and on which lists they end -----

  ghost predicate Suppressed<T(!new)>(hits: (T, T) -> bool, over: set<T>, b: T) {
    exists k :: k in over && hits(k, b)
  }

  /** Each element that nothing over it and nothing kept before it suppresses, in order. */
  ghost function Chosen<T(!new)>(hits: (T, T) -> bool, over: set<T>, s: seq<T>): (r: seq<T>)
    ensures forall b :: b in r ==> b in s
    decreases |s|
  {
    if s == [] then []
    else if Suppressed(hits, over, s[0]) then Chosen(hits, over, s[1..])
    else [s[0]] + Chosen(hits, over + {s[0]}, s[1..])
  }

  /** Removing what an element suppresses is choosing under that element. */
  lemma {:induction false} ChosenAmongSurvivors<T(!new)>(hits: (T, T) -> bool, over: set<T>, f: T, s: seq<T>)
    ensures Chosen(hits, over + {f}, s) == Chosen(hits, over, Survivors(hits, f, s))
    decreases |s|
  {
    if s != [] {
      var rest := Survivors(hits, f, s[1..]);
      assert Suppressed(hits, over + {f}, s[0]) <==> Suppressed(hits, over, s[0]) || hits(f, s[0]);
      ChosenAmongSurvivors(hits, over, f, s[1..]);
      ChosenAmongSurvivors(hits, over + {s[0]}, f, s[1..]);
      assert over + {f} + {s[0]} == over + {s[0]} + {f};
      assert ([s[0]] + rest)[1..] == rest;
    }
  }

  /** A round that removes its first element chooses it. */
  lemma ChosenByRound<T(!new)>(hits: (T, T) -> bool, s: seq<T>)
    requires s != [] && hits(s[0], s[0])
    ensures Chosen(hits, {}, s) == [s[0]] + Chosen(hits, {}, NextRound(hits, s))
  {
    ChosenAmongSurvivors(hits, {}, s[0], s[1..]);
    assert {} + {s[0]} == {s[0]};
    assert NextRound(hits, s) == Survivors(hits, s[0], s[1..]);
  }

  lemma EndsShift<T(!new)>(hits: (T, T) -> bool, s: seq<T>)
    requires s != []
    ensures SomeRoundEnds(hits, s) <==> SomeRoundEnds(hits, NextRound(hits, s))
  {
    if n: nat :| Rounds(hits, s, n) == [] {
      assert n > 0;
      assert Rounds(hits, NextRound(hits, s), n - 1) == [];
    }
    if n: nat :| Rounds(hits, NextRound(hits, s), n) == [] {
      assert Rounds(hits, s, n + 1) == [];
    }
  }

  /** The rounds end exactly if everything they come to choose suppresses itself. */
  lemma {:induction false} RoundsEndIff<T(!new)>(hits: (T, T) -> bool, s: seq<T>)
    ensures SomeRoundEnds(hits, s) <==> forall b :: b in Chosen(hits, {}, s) ==> hits(b, b)
    decreases |s|
  {
    if s == [] {
      assert Rounds(hits, s, 0) == [];
    } else if hits(s[0], s[0]) {
      RoundStuckIff(hits, s);
      RoundsEndIff(hits, NextRound(hits, s));
      ChosenByRound(hits, s);
      EndsShift(hits, s);
    } else {
      assert Chosen(hits, {}, s)[0] == s[0];
      forall n: nat ensures Rounds(hits, s, n) != [] {
        RoundsStuck(hits, s, n);
      }
    }
  }
}
