/** What the path searches are about: the weight of a path, and how a search can fail. */
module PathWeights {
  import opened Graphs

  datatype PathError = UnknownNode | NoPath

  /** The weight of a path is the sum of the weights of its nodes. */
  ghost function PathWeight(w: Name -> real, p: seq<Name>): real {
    if p == [] then 0.0 else PathWeight(w, p[..|p| - 1]) + w(p[|p| - 1])
  }

  lemma PathWeightSnoc(w: Name -> real, p: seq<Name>, c: Name)
    ensures PathWeight(w, p + [c]) == PathWeight(w, p) + w(c)
  {
    assert (p + [c])[..|p|] == p;
  }
}
