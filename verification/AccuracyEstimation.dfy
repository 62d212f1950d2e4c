/**
 Detection accuracy: greedy matching of predictions to ground truth, average precision and its means, over the
 reals.
 */
module AccuracyEstimation {
  import opened Wrappers
  import opened Sorting
  import opened Boxes

  type ClassId = string

  datatype Prediction = Prediction(bbox: Rect, prob: real, classId: ClassId)

  datatype GroundTruth = GroundTruth(bbox: Rect, classId: ClassId)

  datatype AccError = ZeroDivision

  function Union(a: Rect, b: Rect): real {
    Area(a) + Area(b) - Intersection(a, b)
  }

  /** Intersection over union; the caller has seen that the union is not zero. */
  ghost function Iou(a: Rect, b: Rect): real {
    if Union(a, b) == 0.0 then 0.0 else Intersection(a, b) / Union(a, b)
  }

  method CalculateIou(a: Rect, b: Rect) returns (r: Result<real, AccError>)
    ensures r.Failure? <==> Area(a) + Area(b) == Intersection(a, b)
    ensures r.Success? ==> r.value == Iou(a, b)
    ensures r.Success? ==> r.value * (Area(a) + Area(b) - Intersection(a, b)) == Intersection(a, b)
    ensures Ordered(a) && Ordered(b) ==> r.Success? && 0.0 <= r.value <= 1.0
    ensures Ordered(a) && a == b ==> r == Success(1.0)
  {
    var union := Union(a, b);
    if Ordered(a) && Ordered(b) {
      IntersectionBounds(a, b);
      QuotientCompare(Intersection(a, b), union, 0.0);
      QuotientCompare(Intersection(a, b), union, 1.0);
    }
    if union == 0.0 {
      return Failure(ZeroDivision);
    }
    r := Success(Intersection(a, b) / union);
  }

  // ----- greedy matching -----

  /** The index a prediction is matched to: a ground truth, or -1 for none; or no match at all, a false positive. */
  type Match = Option<int>

  ghost function Used(matches: seq<Match>): set<int> {
    set m | m in matches && m.Some? :: m.value
  }

  /** The best still unused ground truth among the first `n`: the overlap, and the first index that has it. */
  ghost function Best(bbox: Rect, gts: seq<GroundTruth>, used: set<int>, n: nat): (real, int)
    requires n <= |gts|
  {
    if n == 0 then (0.0, -1)
    else
      var rest := Best(bbox, gts, used, n - 1);
      if Iou(bbox, gts[n - 1].bbox) > rest.0 && n - 1 !in used then (Iou(bbox, gts[n - 1].bbox), n - 1) else rest
  }

  /** An unused ground truth overlaps no more than the best, and less if it comes before it. */
  ghost predicate Outdone(bbox: Rect, gts: seq<GroundTruth>, best: (real, int), j: int)
    requires 0 <= j < |gts|
  {
    Iou(bbox, gts[j].bbox) <= best.0 && (j < best.1 ==> Iou(bbox, gts[j].bbox) < best.0)
  }

  lemma {:induction false} BestIsBest(bbox: Rect, gts: seq<GroundTruth>, used: set<int>, n: nat)
    requires n <= |gts|
    ensures var r := Best(bbox, gts, used, n);
            && r.0 >= 0.0 && -1 <= r.1 < n && (r.1 == -1 <==> r.0 == 0.0)
            && (r.1 >= 0 ==> r.1 !in used && r.0 == Iou(bbox, gts[r.1].bbox))
            && forall j :: 0 <= j < n && j !in used ==> Outdone(bbox, gts, r, j)
  {
    if n > 0 {
      var rest := Best(bbox, gts, used, n - 1);
      BestIsBest(bbox, gts, used, n - 1);
      forall j | 0 <= j < n && j !in used ensures Outdone(bbox, gts, Best(bbox, gts, used, n), j) {
        assert j < n - 1 ==> Outdone(bbox, gts, rest, j);
      }
    }
  }

  ghost function MatchOne(bbox: Rect, gts: seq<GroundTruth>, used: set<int>, threshold: real): Match {
    var best := Best(bbox, gts, used, |gts|);
    if best.0 >= threshold then Some(best.1) else None
  }

  /** The greedy matching of the first `n` predictions, best first. */
  ghost function Matching(preds: seq<Prediction>, gts: seq<GroundTruth>, threshold: real, n: nat): (r: seq<Match>)
    requires n <= |preds|
    ensures |r| == n
  {
    if n == 0 then []
    else
      var before := Matching(preds, gts, threshold, n - 1);
      before + [MatchOne(preds[n - 1].bbox, gts, Used(before), threshold)]
  }

  ghost function Hits(matches: seq<Match>): nat {
    if matches == [] then 0
    else Hits(matches[..|matches| - 1]) + if matches[|matches| - 1].Some? then 1 else 0
  }

  ghost predicate HitsAre(matches: seq<Match>, gts: seq<GroundTruth>) {
    forall i :: 0 <= i < |matches| && matches[i].Some? ==> 0 <= matches[i].value < |gts|
  }

  ghost predicate NoneTwice(matches: seq<Match>) {
    forall i, j :: 0 <= i < j < |matches| && matches[i].Some? ==> matches[i] != matches[j]
  }

  lemma OneMore(before: seq<Match>, last: Match, gts: seq<GroundTruth>)
    requires HitsAre(before, gts) && |Used(before)| == Hits(before) && NoneTwice(before)
    requires last.Some? ==> 0 <= last.value < |gts| && last.value !in Used(before)
    ensures var m := before + [last]; HitsAre(m, gts) && |Used(m)| == Hits(m) && NoneTwice(m)
  {
    OneMoreHit(before, last);
    OneMoreOnce(before, last);
  }

  lemma OneMoreHit(before: seq<Match>, last: Match)
    requires |Used(before)| == Hits(before) && (last.Some? ==> last.value !in Used(before))
    ensures |Used(before + [last])| == Hits(before + [last])
  {
    assert (before + [last])[..|before|] == before;
    UsedAfter(before, last);
  }

  lemma OneMoreOnce(before: seq<Match>, last: Match)
    requires NoneTwice(before) && (last.Some? ==> last.value !in Used(before))
    ensures NoneTwice(before + [last])
  {
    forall i | 0 <= i < |before| && before[i].Some? ensures before[i] != last {
      assert before[i] in before && before[i].value in Used(before);
    }
  }

  /** With a positive threshold every match uses a ground truth of its own. */
  lemma {:induction false} EachUsedOnce(preds: seq<Prediction>, gts: seq<GroundTruth>, threshold: real, n: nat)
    requires n <= |preds| && threshold > 0.0
    ensures var m := Matching(preds, gts, threshold, n);
            HitsAre(m, gts) && NoneTwice(m) && |Used(m)| == Hits(m) <= |gts|
  {
    var m := Matching(preds, gts, threshold, n);
    if n > 0 {
      EachUsedOnce(preds, gts, threshold, n - 1);
      BestIsBest(preds[n - 1].bbox, gts, Used(Matching(preds, gts, threshold, n - 1)), |gts|);
      OneMore(Matching(preds, gts, threshold, n - 1), m[n - 1], gts);
    } else {
      assert Used(m) == {};
    }
    UsedInRange(m, gts);
    IndicesBound(Used(m), |gts|);
  }

  lemma UsedInRange(m: seq<Match>, gts: seq<GroundTruth>)
    requires HitsAre(m, gts)
    ensures forall j :: j in Used(m) ==> 0 <= j < |gts|
  {
  }

  lemma {:induction false} IndicesBound(s: set<int>, n: nat)
    requires forall j :: j in s ==> 0 <= j < n
    ensures |s| <= n
  {
    if n == 0 {
      assert forall j :: j !in s;
    } else {
      IndicesBound(s - {n - 1}, n - 1);
    }
  }

  /**
   Without one, every prediction counts as a hit, so recall exceeds one as soon as there are more predictions
   than ground truths.
   */
  lemma {:induction false} NonPositiveThresholdHitsAll(preds: seq<Prediction>, gts: seq<GroundTruth>, threshold: real,
                                                       n: nat)
    requires n <= |preds| && threshold <= 0.0
    ensures Hits(Matching(preds, gts, threshold, n)) == n
  {
    if n > 0 {
      NonPositiveThresholdHitsAll(preds, gts, threshold, n - 1);
      var before := Matching(preds, gts, threshold, n - 1);
      BestIsBest(preds[n - 1].bbox, gts, Used(before), |gts|);
      assert Matching(preds, gts, threshold, n)[..n - 1] == before;
    }
  }

  /** There are never more hits than ground truths exactly if the threshold is positive. */
  lemma HitsBoundedIff(threshold: real)
    ensures threshold > 0.0 <==> forall preds, gts :: HitsBounded(preds, gts, threshold)
  {
    if threshold > 0.0 {
      forall preds, gts ensures HitsBounded(preds, gts, threshold) {
        EachUsedOnce(preds, gts, threshold, |preds|);
      }
    } else {
      var preds := [Prediction(Rect(0.0, 0.0, 0.0, 0.0), 0.0, "")];
      NonPositiveThresholdHitsAll(preds, [], threshold, 1);
      assert !HitsBounded(preds, [], threshold);
    }
  }

  ghost predicate HitsBounded(preds: seq<Prediction>, gts: seq<GroundTruth>, threshold: real) {
    Hits(Matching(preds, gts, threshold, |preds|)) <= |gts|
  }

  // ----- recall and precision -----

  /** The recall after each prediction. */
  ghost function Recalls(matches: seq<Match>, total: nat): (r: seq<real>)
    requires total > 0
    ensures |r| == |matches| && forall i :: 0 <= i < |r| ==> r[i] == Hits(matches[..i + 1]) as real / total as real
  {
    seq(|matches|, i requires 0 <= i < |matches| => Hits(matches[..i + 1]) as real / total as real)
  }

  /** The precision after each prediction. */
  ghost function Precisions(matches: seq<Match>): (r: seq<real>)
    ensures |r| == |matches| && forall i :: 0 <= i < |r| ==> r[i] == Hits(matches[..i + 1]) as real / (i + 1) as real
  {
    seq(|matches|, i requires 0 <= i < |matches| => Hits(matches[..i + 1]) as real / (i + 1) as real)
  }

  ghost predicate Rising(s: seq<real>) {
    forall i, j :: 0 <= i <= j < |s| ==> s[i] <= s[j]
  }

  ghost predicate InUnit(s: seq<real>) {
    forall i :: 0 <= i < |s| ==> 0.0 <= s[i] <= 1.0
  }

  lemma {:induction false} HitsGrow(matches: seq<Match>, i: nat, j: nat)
    requires i <= j <= |matches|
    ensures Hits(matches[..i]) <= Hits(matches[..j]) <= Hits(matches[..i]) + (j - i)
  {
    if i < j {
      HitsGrow(matches, i, j - 1);
      assert matches[..j][..j - 1] == matches[..j - 1];
    }
  }

  /** Recalls never fall and, with every ground truth used at most once, never exceed one; precisions never do. */
  lemma RecallsRise(matches: seq<Match>, total: nat)
    requires total > 0 && Hits(matches) <= total
    ensures Rising(Recalls(matches, total)) && InUnit(Recalls(matches, total)) && InUnit(Precisions(matches))
  {
    assert matches[..|matches|] == matches;
    forall i | 0 <= i < |matches|
      ensures 0.0 <= Recalls(matches, total)[i] <= 1.0 && 0.0 <= Precisions(matches)[i] <= 1.0
    {
      HitsGrow(matches, 0, i + 1);
      HitsGrow(matches, i + 1, |matches|);
      RatioInUnit(Hits(matches[..i + 1]), total);
      RatioInUnit(Hits(matches[..i + 1]), i + 1);
    }
    forall i, j | 0 <= i <= j < |matches| ensures Recalls(matches, total)[i] <= Recalls(matches, total)[j] {
      HitsGrow(matches, i + 1, j + 1);
      RatioMonotone(Hits(matches[..i + 1]), Hits(matches[..j + 1]), total);
    }
  }

  lemma RatioInUnit(a: nat, b: nat)
    requires a <= b && b > 0
    ensures 0.0 <= a as real / b as real <= 1.0
  {
    QuotientCompare(a as real, b as real, 0.0);
    QuotientCompare(a as real, b as real, 1.0);
  }

  lemma RatioMonotone(a: nat, b: nat, c: nat)
    requires a <= b && c > 0
    ensures a as real / c as real <= b as real / c as real
  {
    var q := a as real / c as real;
    assert q * c as real == a as real;
    QuotientCompare(b as real, c as real, q);
  }

  // ----- average precision -----

  /** The greatest value from position `i` on. */
  ghost function SuffixMax(s: seq<real>, i: nat): real
    requires i < |s|
    decreases |s| - i
  {
    if i == |s| - 1 then s[i] else Max(s[i], SuffixMax(s, i + 1))
  }

  lemma {:induction false} SuffixMaxIsGreatest(s: seq<real>, i: nat)
    requires i < |s|
    ensures forall j :: i <= j < |s| ==> s[j] <= SuffixMax(s, i)
    ensures exists j :: i <= j < |s| && s[j] == SuffixMax(s, i)
    decreases |s| - i
  {
    if i == |s| - 1 {
      assert s[i] == SuffixMax(s, i);
    } else {
      SuffixMaxIsGreatest(s, i + 1);
      var j :| i + 1 <= j < |s| && s[j] == SuffixMax(s, i + 1);
      assert s[i] == SuffixMax(s, i) || s[j] == SuffixMax(s, i);
    }
  }

  ghost function Sum(f: nat -> real, n: nat): real {
    if n == 0 then 0.0 else Sum(f, n - 1) + f(n)
  }

  /** Each step of the recall, weighted by the best precision from there on. */
  ghost function Steps(recalls: seq<real>, precisions: seq<real>): nat -> real
    requires |recalls| == |precisions|
  {
    k => if 0 < k < |recalls| then (recalls[k] - recalls[k - 1]) * SuffixMax(precisions, k) else 0.0
  }

  function Padded(s: seq<real>, end: real): (r: seq<real>)
    ensures |r| == |s| + 2 && r[0] == 0.0 && r[1..|s| + 1] == s && r[|s| + 1] == end
  {
    [0.0] + s + [end]
  }

  ghost function Ap(recalls: seq<real>, precisions: seq<real>): real
    requires |recalls| == |precisions|
  {
    Sum(Steps(Padded(recalls, 1.0), Padded(precisions, 0.0)), |recalls| + 1)
  }

  /** The envelope of the precisions, filled in from the back, in place. */
  method FillEnvelope(p: array<real>)
    modifies p
    ensures forall k :: 0 <= k < p.Length ==> p[k] == SuffixMax(old(p[..]), k)
  {
    ghost var raw := p[..];
    var i := p.Length - 1;
    while i > 0
      invariant -1 <= i < p.Length && (p.Length > 0 ==> i >= 0)
      invariant forall k :: 0 <= k < i ==> p[k] == raw[k]
      invariant forall k :: 0 <= i <= k < p.Length ==> p[k] == SuffixMax(raw, k)
    {
      assert p[i - 1] == raw[i - 1];
      p[i - 1] := Max(p[i - 1], p[i]);
      i := i - 1;
    }
  }

  lemma StepIs(r: seq<real>, p: seq<real>, k: nat)
    requires |r| == |p| && 0 < k < |r|
    ensures Steps(r, p)(k) == (r[k] - r[k - 1]) * SuffixMax(p, k)
    ensures r[k] == r[k - 1] ==> Steps(r, p)(k) == 0.0
  {
  }

  /** The recall steps are summed where the recall changes. */
  method SumSteps(r: seq<real>, envelope: array<real>, ghost raw: seq<real>) returns (ap: real)
    requires 0 < |r| == |raw| == envelope.Length
    requires forall k :: 0 <= k < |raw| ==> envelope[k] == SuffixMax(raw, k)
    ensures ap == Sum(Steps(r, raw), |r| - 1)
  {
    ap := 0.0;
    for k := 1 to |r|
      invariant ap == Sum(Steps(r, raw), k - 1)
    {
      StepIs(r, raw, k);
      if r[k] != r[k - 1] {
        var rise, weight := r[k] - r[k - 1], envelope[k];
        ap := ap + rise * weight;
      }
    }
  }

  method ComputeAp(recalls: seq<real>, precisions: seq<real>) returns (ap: real)
    requires |recalls| == |precisions|
    ensures ap == Ap(recalls, precisions)
  {
    var r, p := Padded(recalls, 1.0), Padded(precisions, 0.0);
    var envelope := new real[|p|](i requires 0 <= i < |p| => p[i]);
    assert envelope[..] == p;
    FillEnvelope(envelope);
    ap := SumSteps(r, envelope, p);
  }

  /** Every step lies between nothing and the full rise. */
  ghost predicate StepsWithin(f: nat -> real, r: seq<real>) {
    forall k {:trigger f(k)} :: 0 < k < |r| ==> 0.0 <= f(k) <= r[k] - r[k - 1]
  }

  lemma {:induction false} SumBetween(f: nat -> real, r: seq<real>, n: nat)
    requires n < |r| && StepsWithin(f, r)
    ensures 0.0 <= Sum(f, n) <= r[n] - r[0]
    ensures Sum(f, n) == r[n] - r[0] <==> forall k {:trigger f(k)} :: 0 < k <= n ==> f(k) == r[k] - r[k - 1]
  {
    if n > 0 {
      SumBetween(f, r, n - 1);
      assert Sum(f, n) == Sum(f, n - 1) + f(n);
    }
  }

  lemma StepBetween(x: real, d: real, e: real)
    requires d >= 0.0 && 0.0 <= e <= 1.0 && x == d * e
    ensures 0.0 <= x <= d
    ensures x == d <==> d == 0.0 || e == 1.0
    ensures e == 0.0 ==> x == 0.0
  {
    assert x - d == d * (e - 1.0);
  }

  lemma StepAt(r: seq<real>, p: seq<real>, k: nat)
    requires |r| == |p| && 0 < k < |r| && r[k - 1] <= r[k] && 0.0 <= SuffixMax(p, k) <= 1.0
    ensures 0.0 <= Steps(r, p)(k) <= r[k] - r[k - 1]
    ensures Steps(r, p)(k) == r[k] - r[k - 1] <==> r[k] == r[k - 1] || SuffixMax(p, k) == 1.0
    ensures SuffixMax(p, k) == 0.0 ==> Steps(r, p)(k) == 0.0
  {
    StepIs(r, p, k);
    StepBetween(Steps(r, p)(k), r[k] - r[k - 1], SuffixMax(p, k));
  }

  lemma SuffixInUnit(p: seq<real>, k: nat)
    requires InUnit(p) && k < |p|
    ensures 0.0 <= SuffixMax(p, k) <= 1.0
  {
    SuffixMaxIsGreatest(p, k);
    var j :| k <= j < |p| && p[j] == SuffixMax(p, k);
  }

  lemma StepsWithinRises(r: seq<real>, p: seq<real>)
    requires |r| == |p| && Rising(r) && InUnit(p)
    ensures StepsWithin(Steps(r, p), r)
  {
    forall k: nat | 0 < k < |r| ensures 0.0 <= Steps(r, p)(k) <= r[k] - r[k - 1] {
      SuffixInUnit(p, k);
      StepAt(r, p, k);
    }
  }

  lemma PaddedProper(recalls: seq<real>, precisions: seq<real>)
    requires |recalls| == |precisions| && Rising(recalls) && InUnit(recalls) && InUnit(precisions)
    ensures Rising(Padded(recalls, 1.0)) && InUnit(Padded(precisions, 0.0))
    ensures var n := |recalls|; SuffixMax(Padded(precisions, 0.0), n + 1) == 0.0
    ensures Padded(recalls, 1.0)[0] == 0.0 && Padded(recalls, 1.0)[|recalls|] == Reached(recalls)
  {
  }

  ghost function Reached(recalls: seq<real>): real {
    if recalls == [] then 0.0 else recalls[|recalls| - 1]
  }

  /** The recall step at `k` counts in full. */
  ghost predicate StepCounts(recalls: seq<real>, precisions: seq<real>, k: nat)
    requires |recalls| == |precisions| && 0 < k <= |recalls|
  {
    var r := Padded(recalls, 1.0);
    Steps(r, Padded(precisions, 0.0))(k) == r[k] - r[k - 1]
  }

  ghost predicate NothingLost(recalls: seq<real>, precisions: seq<real>)
    requires |recalls| == |precisions|
  {
    forall k: nat {:trigger StepCounts(recalls, precisions, k)} :: 0 < k <= |recalls| ==>
      StepCounts(recalls, precisions, k)
  }

  lemma NothingLostMeans(recalls: seq<real>, precisions: seq<real>, f: nat -> real)
    requires |recalls| == |precisions| && f == Steps(Padded(recalls, 1.0), Padded(precisions, 0.0))
    ensures var r := Padded(recalls, 1.0);
            NothingLost(recalls, precisions) <==>
              forall k {:trigger f(k)} :: 0 < k <= |recalls| ==> f(k) == r[k] - r[k - 1]
  {
    var r := Padded(recalls, 1.0);
    if NothingLost(recalls, precisions) {
      forall k: nat | 0 < k <= |recalls| ensures f(k) == r[k] - r[k - 1] {
        assert StepCounts(recalls, precisions, k);
      }
    }
    if forall k {:trigger f(k)} :: 0 < k <= |recalls| ==> f(k) == r[k] - r[k - 1] {
      forall k: nat | 0 < k <= |recalls| ensures StepCounts(recalls, precisions, k) {
        assert f(k) == r[k] - r[k - 1];
      }
    }
  }

  /** The average precision never exceeds the recall reached. */
  lemma ApInUnit(recalls: seq<real>, precisions: seq<real>)
    requires |recalls| == |precisions| && Rising(recalls) && InUnit(recalls) && InUnit(precisions)
    ensures 0.0 <= Ap(recalls, precisions) <= Reached(recalls) <= 1.0
    ensures Ap(recalls, precisions) == Reached(recalls) <==> NothingLost(recalls, precisions)
  {
    var r, p, n := Padded(recalls, 1.0), Padded(precisions, 0.0), |recalls|;
    PaddedProper(recalls, precisions);
    StepsWithinRises(r, p);
    StepAt(r, p, n + 1);
    LastStep(Steps(r, p), r, n);
    NothingLostMeans(recalls, precisions, Steps(r, p));
  }

  lemma LastStep(f: nat -> real, r: seq<real>, n: nat)
    requires n < |r| && StepsWithin(f, r) && f(n + 1) == 0.0
    ensures 0.0 <= Sum(f, n + 1) <= r[n] - r[0]
    ensures Sum(f, n + 1) == r[n] - r[0] <==> forall k {:trigger f(k)} :: 0 < k <= n ==> f(k) == r[k] - r[k - 1]
  {
    SumBetween(f, r, n);
  }

  // ----- a perfect score -----

  ghost predicate AllHits(matches: seq<Match>, n: nat) {
    n <= |matches| && forall i :: 0 <= i < n ==> matches[i].Some?
  }

  lemma {:induction false} AllHitsCount(matches: seq<Match>, n: nat)
    requires n <= |matches|
    ensures Hits(matches[..n]) <= n
    ensures AllHits(matches, n) <==> Hits(matches[..n]) == n
  {
    if n > 0 {
      AllHitsCount(matches, n - 1);
      assert matches[..n][..n - 1] == matches[..n - 1];
      HitsGrow(matches, 0, n - 1);
    }
  }

  /** If every hit comes after hits only, the hits are a prefix. */
  lemma {:induction false} HitsArePrefix(matches: seq<Match>, n: nat)
    requires n <= |matches|
    requires forall k :: 0 < k <= n && matches[k - 1].Some? ==> AllHits(matches, k)
    ensures AllHits(matches, Hits(matches[..n]))
  {
    if n > 0 {
      HitsArePrefix(matches, n - 1);
      assert matches[..n][..n - 1] == matches[..n - 1];
      if matches[n - 1].Some? {
        AllHitsCount(matches, n);
      }
    }
  }

  /** A recall step is full if nothing was hit, or if everything was hit up to some later prediction. */
  lemma FullStepMeans(matches: seq<Match>, total: nat, k: nat)
    requires total > 0 && Hits(matches) <= total && 0 < k <= |matches|
    ensures var r, p := Padded(Recalls(matches, total), 1.0), Padded(Precisions(matches), 0.0);
            && (r[k] == r[k - 1] <==> matches[k - 1].None?)
            && (SuffixMax(p, k) == 1.0 <==> exists j :: k <= j <= |matches| && AllHits(matches, j))
  {
    var r, p := Padded(Recalls(matches, total), 1.0), Padded(Precisions(matches), 0.0);
    assert matches[..k][..k - 1] == matches[..k - 1];
    RecallStep(matches, total, k);
    RecallsRise(matches, total);
    PaddedProper(Recalls(matches, total), Precisions(matches));
    SuffixInUnit(p, k);
    SuffixMaxIsGreatest(p, k);
    if SuffixMax(p, k) == 1.0 {
      var j :| k <= j < |p| && p[j] == 1.0;
      assert p[|p| - 1] == 0.0;
      PrecisionOne(matches, j);
    }
    if j :| k <= j <= |matches| && AllHits(matches, j) {
      PrecisionOne(matches, j);
      assert p[j] == 1.0;
    }
  }

  lemma RecallStep(matches: seq<Match>, total: nat, k: nat)
    requires total > 0 && 0 < k <= |matches|
    ensures var r := Padded(Recalls(matches, total), 1.0);
            r[k] == Hits(matches[..k]) as real / total as real &&
              r[k - 1] == Hits(matches[..k - 1]) as real / total as real &&
            (r[k] == r[k - 1] <==> matches[k - 1].None?)
  {
    var r := Padded(Recalls(matches, total), 1.0);
    assert matches[..k][..k - 1] == matches[..k - 1];
    var a, b := Hits(matches[..k]), Hits(matches[..k - 1]);
    SameRatio(a, b, total);
    if k == 1 {
      assert r[0] == 0.0 == 0 as real / total as real;
    }
  }

  lemma SameRatio(a: nat, b: nat, c: nat)
    requires c > 0
    ensures a as real / c as real == b as real / c as real <==> a == b
  {
    assert (a as real / c as real) * c as real == a as real;
    assert (b as real / c as real) * c as real == b as real;
  }

  lemma PrecisionOne(matches: seq<Match>, j: nat)
    requires 0 < j <= |matches|
    ensures Padded(Precisions(matches), 0.0)[j] == 1.0 <==> AllHits(matches, j)
  {
    AllHitsCount(matches, j);
    SameRatio(Hits(matches[..j]), j, j);
    assert j as real / j as real == 1.0;
  }

  lemma ReachedAll(matches: seq<Match>, total: nat)
    requires total > 0
    ensures Reached(Recalls(matches, total)) == 1.0 <==> Hits(matches) == total
  {
    assert matches[..|matches|] == matches;
    SameRatio(Hits(matches), total, total);
    assert total as real / total as real == 1.0;
  }

  /** The step at `k` misses nothing: no hit there, or everything hit up to some later prediction. */
  ghost predicate Full(matches: seq<Match>, k: nat)
    requires 0 < k <= |matches|
  {
    matches[k - 1].None? || exists j :: k <= j <= |matches| && AllHits(matches, j)
  }

  lemma StepFullIff(matches: seq<Match>, total: nat, k: nat)
    requires total > 0 && Hits(matches) <= total && 0 < k <= |matches|
    ensures StepCounts(Recalls(matches, total), Precisions(matches), k) <==> Full(matches, k)
  {
    var r, p := Padded(Recalls(matches, total), 1.0), Padded(Precisions(matches), 0.0);
    FullStepMeans(matches, total, k);
    RecallsRise(matches, total);
    PaddedProper(Recalls(matches, total), Precisions(matches));
    SuffixInUnit(p, k);
    assert r[k - 1] <= r[k];
    StepAt(r, p, k);
  }

  lemma ApOneIff(matches: seq<Match>, total: nat)
    requires total > 0 && Hits(matches) <= total
    ensures Ap(Recalls(matches, total), Precisions(matches)) == 1.0 <==>
            Hits(matches) == total && forall k: nat {:trigger Full(matches, k)} :: 0 < k <= |matches| ==>
              Full(matches, k)
  {
    RecallsRise(matches, total);
    ApInUnit(Recalls(matches, total), Precisions(matches));
    ReachedAll(matches, total);
    NothingLostIff(matches, total);
  }

  lemma NothingLostIff(matches: seq<Match>, total: nat)
    requires total > 0 && Hits(matches) <= total
    ensures NothingLost(Recalls(matches, total), Precisions(matches)) <==>
            forall k: nat {:trigger Full(matches, k)} :: 0 < k <= |matches| ==> Full(matches, k)
  {
    forall k: nat | 0 < k <= |matches|
      ensures StepCounts(Recalls(matches, total), Precisions(matches), k) <==> Full(matches, k)
    {
      StepFullIff(matches, total, k);
    }
  }

  /** Hitting everything there is, with no full step missing, is hitting with the best predictions. */
  lemma AllFullIff(matches: seq<Match>, total: nat)
    requires Hits(matches) <= total
    ensures Hits(matches) == total && (forall k: nat {:trigger Full(matches, k)} :: 0 < k <= |matches| ==>
      Full(matches, k)) <==>
            AllHits(matches, total)
  {
    var n := |matches|;
    assert matches[..n] == matches;
    if AllHits(matches, total) {
      AllHitsCount(matches, total);
      HitsGrow(matches, total, n);
      forall k: nat | 0 < k <= n ensures Full(matches, k) {
        if k > total {
          HitsGrow(matches, total, k - 1);
          HitsGrow(matches, k, n);
          assert matches[..k][..k - 1] == matches[..k - 1];
        }
      }
    }
    if Hits(matches) == total && forall k: nat :: 0 < k <= n ==> Full(matches, k) {
      forall k: nat | 0 < k <= n && matches[k - 1].Some? ensures AllHits(matches, k) {
        assert Full(matches, k);
      }
      HitsArePrefix(matches, n);
    }
  }

  /** The average precision is one exactly if the best predictions, as many as there are ground truths, all hit. */
  lemma PerfectIff(matches: seq<Match>, total: nat)
    requires total > 0 && Hits(matches) <= total
    ensures Ap(Recalls(matches, total), Precisions(matches)) == 1.0 <==> AllHits(matches, total)
  {
    ApOneIff(matches, total);
    AllFullIff(matches, total);
  }

  // ----- one class -----

  ghost predicate DividesAt(bbox: Rect, g: GroundTruth) {
    Union(bbox, g.bbox) == 0.0
  }

  ghost predicate RowDivides(bbox: Rect, gts: seq<GroundTruth>) {
    exists j :: 0 <= j < |gts| && DividesAt(bbox, gts[j])
  }

  /** Some pair has an empty union, which only ill-formed boxes can have. */
  ghost predicate DividesByZero(preds: seq<Prediction>, gts: seq<GroundTruth>) {
    exists i :: 0 <= i < |preds| && RowDivides(preds[i].bbox, gts)
  }

  method FindBest(bbox: Rect, gts: seq<GroundTruth>, used: set<int>) returns (r: Result<(real, int), AccError>)
    ensures r.Failure? <==> RowDivides(bbox, gts)
    ensures r.Success? ==> r.value == Best(bbox, gts, used, |gts|)
  {
    var maxIou, maxIndex := 0.0, -1;
    for j := 0 to |gts|
      invariant forall k :: 0 <= k < j ==> !DividesAt(bbox, gts[k])
      invariant (maxIou, maxIndex) == Best(bbox, gts, used, j)
    {
      var iou := CalculateIou(bbox, gts[j].bbox);
      if iou.Failure? {
        assert DividesAt(bbox, gts[j]);
        return Failure(ZeroDivision);
      }
      if iou.value > maxIou && j !in used {
        maxIou, maxIndex := iou.value, j;
      }
    }
    r := Success((maxIou, maxIndex));
  }

  /** The arrays record a matching: one in the first for a hit, one in the second for a miss. */
  ghost predicate Records(tp: seq<real>, fp: seq<real>, matches: seq<Match>) {
    && |matches| <= |tp| == |fp|
    && forall i :: 0 <= i < |matches| ==> tp[i] == (if matches[i].Some? then 1.0 else 0.0) && fp[i] == 1.0 - tp[i]
  }

  method MatchGreedily(preds: seq<Prediction>, gts: seq<GroundTruth>, threshold: real, tp: array<real>, fp: array<real>)
    returns (err: Option<AccError>)
    requires tp != fp && tp.Length == fp.Length == |preds|
    requires forall i :: 0 <= i < |preds| ==> tp[i] == fp[i] == 0.0
    modifies tp, fp
    ensures err.Some? <==> DividesByZero(preds, gts)
    ensures err == None ==> Records(tp[..], fp[..], Matching(preds, gts, threshold, |preds|))
  {
    var used: set<int> := {};
    for i := 0 to |preds|
      invariant forall k :: 0 <= k < i ==> !RowDivides(preds[k].bbox, gts)
      invariant Recorded(preds, gts, threshold, i, used, tp[..], fp[..])
    {
      var best := FindBest(preds[i].bbox, gts, used);
      if best.Failure? {
        return Some(ZeroDivision);
      }
      ghost var hits, misses := tp[..], fp[..];
      MatchNext(preds, gts, threshold, i, used, hits, misses);
      if best.value.0 >= threshold {
        tp[i] := 1.0;
        used := used + {best.value.1};
        assert tp[..] == hits[i := 1.0];
      } else {
        fp[i] := 1.0;
        assert fp[..] == misses[i := 1.0];
      }
    }
    return None;
  }

  /** Beyond the matching the arrays are still zero. */
  ghost predicate RecordsOnly(tp: seq<real>, fp: seq<real>, matches: seq<Match>) {
    Records(tp, fp, matches) && forall k :: |matches| <= k < |tp| ==> tp[k] == fp[k] == 0.0
  }

  /** The first `i` predictions are matched and recorded, and nothing else. */
  ghost predicate Recorded(preds: seq<Prediction>, gts: seq<GroundTruth>, threshold: real, i: nat, used: set<int>,
                           tp: seq<real>, fp: seq<real>)
    requires i <= |preds|
  {
    used == Used(Matching(preds, gts, threshold, i)) && RecordsOnly(tp, fp, Matching(preds, gts, threshold, i))
  }

  /** One more prediction matched. */
  lemma MatchNext(preds: seq<Prediction>, gts: seq<GroundTruth>, threshold: real, i: nat, used: set<int>, tp: seq<real>,
                  fp: seq<real>)
    requires i < |preds| == |tp| && Recorded(preds, gts, threshold, i, used, tp, fp)
    ensures var best := Best(preds[i].bbox, gts, used, |gts|);
      if best.0 >= threshold then Recorded(preds, gts, threshold, i + 1, used + {best.1}, tp[i := 1.0], fp)
      else Recorded(preds, gts, threshold, i + 1, used, tp, fp[i := 1.0])
  {
    var before := Matching(preds, gts, threshold, i);
    var last := MatchOne(preds[i].bbox, gts, used, threshold);
    assert Matching(preds, gts, threshold, i + 1) == before + [last];
    UsedAfter(before, last);
    RecordsNext(tp, fp, before, last);
  }

  lemma RecordsNext(tp: seq<real>, fp: seq<real>, before: seq<Match>, last: Match)
    requires RecordsOnly(tp, fp, before) && |before| < |tp|
    ensures if last.Some? then RecordsOnly(tp[|before| := 1.0], fp, before + [last])
            else RecordsOnly(tp, fp[|before| := 1.0], before + [last])
  {
  }

  lemma UsedAfter(before: seq<Match>, last: Match)
    ensures Used(before + [last]) == Used(before) + if last.Some? then {last.value} else {}
  {
    assert last in before + [last];
  }

  /** The cumulative sums and their ratios. */
  method Curve(tp: array<real>, fp: array<real>, total: nat, ghost matches: seq<Match>)
    returns (recalls: seq<real>, precisions: seq<real>)
    requires total > 0 && tp.Length == |matches| && Records(tp[..], fp[..], matches)
    ensures recalls == Recalls(matches, total) && precisions == Precisions(matches)
  {
    recalls, precisions := [], [];
    var tpSum, fpSum := 0.0, 0.0;
    for i := 0 to tp.Length
      invariant |recalls| == |precisions| == i
      invariant tpSum == Hits(matches[..i]) as real && tpSum + fpSum == i as real
      invariant forall k :: 0 <= k < i ==>
        recalls[k] == Recalls(matches, total)[k] && precisions[k] == Precisions(matches)[k]
    {
      assert matches[..i + 1][..i] == matches[..i];
      assert tp[..][i] == tp[i] && fp[..][i] == fp[i];
      tpSum, fpSum := tpSum + tp[i], fpSum + fp[i];
      recalls := recalls + [tpSum / total as real];
      precisions := precisions + [tpSum / (tpSum + fpSum)];
    }
  }

  /** The predictions of one confidence, in order. */
  ghost function OfConfidence(preds: seq<Prediction>, v: real): seq<Prediction> {
    if preds == [] then []
    else (if preds[0].prob == v then [preds[0]] else []) + OfConfidence(preds[1..], v)
  }

  /** The same predictions, the more confident first and equally confident ones in the given order. */
  ghost predicate ByConfidence(preds: seq<Prediction>, ranked: seq<Prediction>) {
    && multiset(ranked) == multiset(preds)
    && (forall i, j :: 0 <= i < j < |ranked| ==> ranked[i].prob >= ranked[j].prob)
    && forall v :: OfConfidence(ranked, v) == OfConfidence(preds, v)
  }

  /** A key that sorts by falling confidence. */
  ghost predicate Falls(key: Prediction -> real) {
    forall p :: key(p) == -p.prob
  }

  lemma {:induction false} ConfidenceIsKey(key: Prediction -> real, preds: seq<Prediction>, v: real, w: real)
    requires Falls(key) && w == -v
    ensures WithKey(key, w, preds) == OfConfidence(preds, v)
  {
    if preds != [] {
      ConfidenceIsKey(key, preds[1..], v, w);
    }
  }

  function ByProb(preds: seq<Prediction>): (ranked: seq<Prediction>)
    ensures ByConfidence(preds, ranked)
  {
    var key := (p: Prediction) => -p.prob;
    SortedByConfidence(key, preds);
    Sorted(key, preds)
  }

  lemma SortedByConfidence(key: Prediction -> real, preds: seq<Prediction>)
    requires Falls(key)
    ensures ByConfidence(preds, Sorted(key, preds))
  {
    var ranked := Sorted(key, preds);
    SortedIsPermutation(key, preds);
    forall v ensures OfConfidence(ranked, v) == OfConfidence(preds, v) {
      var w := -v;
      SortedIsStable(key, preds, w);
      ConfidenceIsKey(key, preds, v, w);
      ConfidenceIsKey(key, ranked, v, w);
    }
    FallingConfidence(key, ranked);
  }

  lemma FallingConfidence(key: Prediction -> real, ranked: seq<Prediction>)
    requires Falls(key)
    ensures Ascending(key, ranked) <==> forall i, j :: 0 <= i < j < |ranked| ==> ranked[i].prob >= ranked[j].prob
  {
    if Ascending(key, ranked) {
      forall i, j | 0 <= i < j < |ranked| ensures ranked[i].prob >= ranked[j].prob {
        assert key(ranked[i]) <= key(ranked[j]);
      }
    }
  }

  /** The order of confidence is unique. */
  lemma OneRanking(preds: seq<Prediction>, a: seq<Prediction>, b: seq<Prediction>)
    requires ByConfidence(preds, a) && ByConfidence(preds, b)
    ensures a == b
  {
    var key := (p: Prediction) => -p.prob;
    FallingConfidence(key, a);
    FallingConfidence(key, b);
    forall w ensures WithKey(key, w, a) == WithKey(key, w, b) {
      var v := -w;
      ConfidenceIsKey(key, a, v, w);
      ConfidenceIsKey(key, b, v, w);
      assert OfConfidence(a, v) == OfConfidence(preds, v) == OfConfidence(b, v);
    }
    StableIsUnique(key, a, b);
  }

  /** The predictions in the order of confidence. */
  ghost function Ranking(preds: seq<Prediction>): (ranked: seq<Prediction>)
    ensures ByConfidence(preds, ranked)
  {
    SortedByConfidence((p: Prediction) => -p.prob, preds);
    var ranked :| ByConfidence(preds, ranked);
    ranked
  }

  ghost function ClassMatching(preds: seq<Prediction>, gts: seq<GroundTruth>, threshold: real): seq<Match> {
    Matching(Ranking(preds), gts, threshold, |Ranking(preds)|)
  }

  ghost function ClassAp(preds: seq<Prediction>, gts: seq<GroundTruth>, threshold: real): real
    requires gts != []
  {
    var m := ClassMatching(preds, gts, threshold);
    Ap(Recalls(m, |gts|), Precisions(m))
  }

  method CalculateClassAp(preds: seq<Prediction>, gts: seq<GroundTruth>, threshold: real)
    returns (r: Result<real, AccError>)
    requires gts != []
    ensures r.Failure? <==> DividesByZero(preds, gts)
    ensures r.Success? ==> r.value == ClassAp(preds, gts, threshold)
  {
    var sorted := ByProb(preds);
    OneRanking(preds, sorted, Ranking(preds));
    RankedDivides(preds, sorted, gts);
    var tp, fp := new real[|sorted|](i => 0.0), new real[|sorted|](i => 0.0);
    var err := MatchGreedily(sorted, gts, threshold, tp, fp);
    if err.Some? {
      return Failure(err.value);
    }
    var recalls, precisions := Curve(tp, fp, |gts|, ClassMatching(preds, gts, threshold));
    var ap := ComputeAp(recalls, precisions);
    r := Success(ap);
  }

  lemma RankedDivides(preds: seq<Prediction>, ranked: seq<Prediction>, gts: seq<GroundTruth>)
    requires ByConfidence(preds, ranked)
    ensures DividesByZero(ranked, gts) <==> DividesByZero(preds, gts)
  {
    forall p ensures p in preds <==> p in ranked {
      assert p in preds <==> p in multiset(preds);
      assert p in ranked <==> p in multiset(ranked);
    }
    if DividesByZero(preds, gts) {
      DividesWithin(preds, ranked, gts);
    }
    if DividesByZero(ranked, gts) {
      DividesWithin(ranked, preds, gts);
    }
  }

  lemma DividesWithin(a: seq<Prediction>, b: seq<Prediction>, gts: seq<GroundTruth>)
    requires (forall p :: p in a ==> p in b) && DividesByZero(a, gts)
    ensures DividesByZero(b, gts)
  {
    var i :| 0 <= i < |a| && RowDivides(a[i].bbox, gts);
    assert a[i] in b;
    var k :| 0 <= k < |b| && b[k] == a[i];
    assert RowDivides(b[k].bbox, gts);
  }

  /** Taken in order of confidence, the first predictions, as many as there are ground truths, find them all. */
  ghost predicate BestFindAll(preds: seq<Prediction>, gts: seq<GroundTruth>, threshold: real) {
    forall ranked :: ByConfidence(preds, ranked) ==> AllHits(Matching(ranked, gts, threshold, |ranked|), |gts|)
  }

  /**
   With a positive threshold a class scores between zero and one, and one exactly if its best predictions find
   everything.
   */
  lemma ClassApInUnit(preds: seq<Prediction>, gts: seq<GroundTruth>, threshold: real)
    requires gts != [] && threshold > 0.0
    ensures 0.0 <= ClassAp(preds, gts, threshold) <= 1.0
    ensures ClassAp(preds, gts, threshold) == 1.0 <==> BestFindAll(preds, gts, threshold)
  {
    var m, ranked := ClassMatching(preds, gts, threshold), Ranking(preds);
    EachUsedOnce(ranked, gts, threshold, |ranked|);
    RecallsRise(m, |gts|);
    ApInUnit(Recalls(m, |gts|), Precisions(m));
    PerfectIff(m, |gts|);
    forall other | ByConfidence(preds, other) ensures other == ranked {
      OneRanking(preds, other, ranked);
    }
  }

  // ----- all classes -----

  function Classes(gts: seq<GroundTruth>): set<ClassId> {
    set g | g in gts :: g.classId
  }

  function PredsOf(preds: seq<Prediction>, classId: ClassId): seq<Prediction> {
    if preds == [] then []
    else PredsOf(preds[..|preds| - 1], classId) + if preds[|preds| - 1].classId == classId then [preds[|preds| - 1]]
      else []
  }

  function GtsOf(gts: seq<GroundTruth>, classId: ClassId): seq<GroundTruth> {
    if gts == [] then []
    else GtsOf(gts[..|gts| - 1], classId) + if gts[|gts| - 1].classId == classId then [gts[|gts| - 1]] else []
  }

  /** The predictions of a class are picked one by one, in order. */
  lemma {:induction false} PredsOfSplit(a: seq<Prediction>, b: seq<Prediction>, p: Prediction, classId: ClassId)
    ensures PredsOf(a + b, classId) == PredsOf(a, classId) + PredsOf(b, classId)
    ensures PredsOf([p], classId) == if p.classId == classId then [p] else []
    decreases |b|
  {
    if b == [] {
      assert a + b == a;
    } else {
      PredsOfSplit(a, b[..|b| - 1], p, classId);
      assert (a + b)[..|a + b| - 1] == a + b[..|b| - 1];
    }
    assert [p][..0] == [];
  }

  lemma {:induction false} GtsOfSplit(a: seq<GroundTruth>, b: seq<GroundTruth>, g: GroundTruth, classId: ClassId)
    ensures GtsOf(a + b, classId) == GtsOf(a, classId) + GtsOf(b, classId)
    ensures GtsOf([g], classId) == if g.classId == classId then [g] else []
    decreases |b|
  {
    if b == [] {
      assert a + b == a;
    } else {
      GtsOfSplit(a, b[..|b| - 1], g, classId);
      assert (a + b)[..|a + b| - 1] == a + b[..|b| - 1];
    }
    assert [g][..0] == [];
  }

  lemma {:induction false} PredsOfMembers(preds: seq<Prediction>, classId: ClassId, p: Prediction)
    ensures p in PredsOf(preds, classId) <==> p in preds && p.classId == classId
  {
    if preds != [] {
      PredsOfMembers(preds[..|preds| - 1], classId, p);
      assert preds == preds[..|preds| - 1] + [preds[|preds| - 1]];
    }
  }

  lemma {:induction false} GtsOfMembers(gts: seq<GroundTruth>, classId: ClassId, g: GroundTruth)
    ensures g in GtsOf(gts, classId) <==> g in gts && g.classId == classId
  {
    if gts != [] {
      GtsOfMembers(gts[..|gts| - 1], classId, g);
      assert gts == gts[..|gts| - 1] + [gts[|gts| - 1]];
    }
  }

  ghost function ApOfClass(preds: seq<Prediction>, gts: seq<GroundTruth>, threshold: real, classId: ClassId): real {
    if GtsOf(gts, classId) == [] then 0.0 else ClassAp(PredsOf(preds, classId), GtsOf(gts, classId), threshold)
  }

  ghost function SumOver(s: set<ClassId>, f: ClassId -> real): real {
    if s == {} then 0.0 else
      var x :| x in s;
      SumOver(s - {x}, f) + f(x)
  }

  /** The order of summation does not matter. */
  lemma {:induction false} SumOverTake(s: set<ClassId>, f: ClassId -> real, x: ClassId)
    requires x in s
    ensures SumOver(s, f) == SumOver(s - {x}, f) + f(x)
    decreases s
  {
    var y :| y in s && SumOver(s, f) == SumOver(s - {y}, f) + f(y);
    if y != x {
      SumOverTake(s - {y}, f, x);
      SumOverTake(s - {x}, f, y);
      assert s - {x} - {y} == s - {y} - {x};
    }
  }

  lemma {:induction false} SumOverInUnit(s: set<ClassId>, f: ClassId -> real)
    requires forall x :: x in s ==> 0.0 <= f(x) <= 1.0
    ensures 0.0 <= SumOver(s, f) <= |s| as real
    ensures SumOver(s, f) == |s| as real <==> forall x :: x in s ==> f(x) == 1.0
  {
    if s == {} {
      assert SumOver(s, f) == 0.0;
    } else {
      var x :| x in s;
      SumOverTake(s, f, x);
      SumOverInUnit(s - {x}, f);
    }
  }

  ghost function MeanAp(preds: seq<Prediction>, gts: seq<GroundTruth>, threshold: real): real {
    if gts == [] then 1.0
    else if preds == [] then 0.0
    else
      assert gts[0].classId in Classes(gts);
      SumOver(Classes(gts), c => ApOfClass(preds, gts, threshold, c)) / |Classes(gts)| as real
  }

  ghost predicate ClassDivides(preds: seq<Prediction>, gts: seq<GroundTruth>, classId: ClassId) {
    DividesByZero(PredsOf(preds, classId), GtsOf(gts, classId))
  }

  /** Some pair of one class has an empty union. */
  ghost predicate MapDividesByZero(preds: seq<Prediction>, gts: seq<GroundTruth>) {
    exists p, g :: p in preds && g in gts && p.classId == g.classId && DividesAt(p.bbox, g)
  }

  lemma MapDividesInClass(preds: seq<Prediction>, gts: seq<GroundTruth>)
    ensures MapDividesByZero(preds, gts) <==> exists c :: c in Classes(gts) && ClassDivides(preds, gts, c)
  {
    if MapDividesByZero(preds, gts) {
      var p, g :| p in preds && g in gts && p.classId == g.classId && DividesAt(p.bbox, g);
      assert g.classId in Classes(gts);
      PredsOfMembers(preds, g.classId, p);
      GtsOfMembers(gts, g.classId, g);
      PairDivides(p, g, PredsOf(preds, g.classId), GtsOf(gts, g.classId));
      assert ClassDivides(preds, gts, g.classId);
    }
    if c :| c in Classes(gts) && ClassDivides(preds, gts, c) {
      ClassPairDivides(preds, gts, c);
    }
  }

  lemma ClassPairDivides(preds: seq<Prediction>, gts: seq<GroundTruth>, c: ClassId)
    requires ClassDivides(preds, gts, c)
    ensures MapDividesByZero(preds, gts)
  {
    var ps, gs := PredsOf(preds, c), GtsOf(gts, c);
    var i :| 0 <= i < |ps| && RowDivides(ps[i].bbox, gs);
    var j :| 0 <= j < |gs| && DividesAt(ps[i].bbox, gs[j]);
    PredsOfMembers(preds, c, ps[i]);
    GtsOfMembers(gts, c, gs[j]);
  }

  lemma PairDivides(p: Prediction, g: GroundTruth, preds: seq<Prediction>, gts: seq<GroundTruth>)
    requires p in preds && g in gts && DividesAt(p.bbox, g)
    ensures DividesByZero(preds, gts)
  {
    var i :| 0 <= i < |preds| && preds[i] == p;
    var j :| 0 <= j < |gts| && gts[j] == g;
    assert DividesAt(preds[i].bbox, gts[j]);
    assert RowDivides(preds[i].bbox, gts);
  }

  lemma ClassNotEmpty(gts: seq<GroundTruth>, classId: ClassId)
    requires classId in Classes(gts)
    ensures GtsOf(gts, classId) != []
  {
    var g :| g in gts && g.classId == classId;
    GtsOfMembers(gts, classId, g);
  }

  ghost predicate Scores(score: ClassId -> real, preds: seq<Prediction>, gts: seq<GroundTruth>, threshold: real) {
    forall c {:trigger ApOfClass(preds, gts, threshold, c)} :: score(c) == ApOfClass(preds, gts, threshold, c)
  }

  method CalculateApOfClass(preds: seq<Prediction>, gts: seq<GroundTruth>, threshold: real, classId: ClassId,
                            ghost score: ClassId -> real)
    returns (r: Result<real, AccError>)
    requires classId in Classes(gts) && Scores(score, preds, gts, threshold)
    ensures r.Failure? <==> ClassDivides(preds, gts, classId)
    ensures r.Success? ==> r.value == score(classId)
  {
    ClassNotEmpty(gts, classId);
    r := CalculateClassAp(PredsOf(preds, classId), GtsOf(gts, classId), threshold);
    assert score(classId) == ApOfClass(preds, gts, threshold, classId);
  }

  /** The classes are scored in some order and their scores added up. */
  method SumOfAps(preds: seq<Prediction>, gts: seq<GroundTruth>, threshold: real, ghost score: ClassId -> real)
    returns (r: Result<real, AccError>)
    requires Scores(score, preds, gts, threshold)
    ensures r.Failure? <==> exists c :: c in Classes(gts) && ClassDivides(preds, gts, c)
    ensures r.Success? ==> r.value == SumOver(Classes(gts), score)
  {
    var classes := Classes(gts);
    var todo, sum := classes, 0.0;
    while todo != {}
      invariant todo <= classes && sum + SumOver(todo, score) == SumOver(classes, score)
      invariant forall c :: c in classes - todo ==> !ClassDivides(preds, gts, c)
      decreases todo
    {
      var classId :| classId in todo;
      SumOverTake(todo, score, classId);
      var ap := CalculateApOfClass(preds, gts, threshold, classId, score);
      if ap.Failure? {
        return Failure(ap.error);
      }
      sum := sum + ap.value;
      todo := todo - {classId};
    }
    r := Success(sum);
  }

  method CalculateMap(preds: seq<Prediction>, gts: seq<GroundTruth>, threshold: real)
    returns (r: Result<real, AccError>)
    ensures r.Failure? <==> MapDividesByZero(preds, gts)
    ensures r.Success? ==> r.value == MeanAp(preds, gts, threshold)
  {
    if gts == [] {
      return Success(1.0);
    }
    if preds == [] {
      return Success(0.0);
    }
    assert gts[0].classId in Classes(gts);
    MapDividesInClass(preds, gts);
    ghost var score := c => ApOfClass(preds, gts, threshold, c);
    var sum := SumOfAps(preds, gts, threshold, score);
    if sum.Failure? {
      return sum;
    }
    r := Success(sum.value / |Classes(gts)| as real);
  }

  /** The best predictions of a class, as many as it has ground truths, find them all. */
  ghost predicate PerfectClass(preds: seq<Prediction>, gts: seq<GroundTruth>, threshold: real, classId: ClassId) {
    BestFindAll(PredsOf(preds, classId), GtsOf(gts, classId), threshold)
  }

  lemma ClassScore(preds: seq<Prediction>, gts: seq<GroundTruth>, threshold: real, classId: ClassId)
    requires classId in Classes(gts) && threshold > 0.0
    ensures 0.0 <= ApOfClass(preds, gts, threshold, classId) <= 1.0
    ensures ApOfClass(preds, gts, threshold, classId) == 1.0 <==> PerfectClass(preds, gts, threshold, classId)
  {
    ClassNotEmpty(gts, classId);
    ClassApInUnit(PredsOf(preds, classId), GtsOf(gts, classId), threshold);
  }

  /** With a positive threshold the mean lies between zero and one, and is one exactly if every class is perfect. */
  lemma MeanApInUnit(preds: seq<Prediction>, gts: seq<GroundTruth>, threshold: real)
    requires threshold > 0.0
    ensures 0.0 <= MeanAp(preds, gts, threshold) <= 1.0
    ensures gts != [] ==>
      (MeanAp(preds, gts, threshold) == 1.0 <==>
        preds != [] && forall c :: c in Classes(gts) ==> PerfectClass(preds, gts, threshold, c))
  {
    if gts != [] && preds != [] {
      var classes := Classes(gts);
      assert gts[0].classId in classes;
      var score := c => ApOfClass(preds, gts, threshold, c);
      forall c | c in classes
        ensures 0.0 <= score(c) <= 1.0 && (score(c) == 1.0 <==> PerfectClass(preds, gts, threshold, c))
      {
        ClassScore(preds, gts, threshold, c);
      }
      MeanInUnit(classes, score);
    }
  }

  lemma MeanInUnit(s: set<ClassId>, f: ClassId -> real)
    requires s != {} && forall x :: x in s ==> 0.0 <= f(x) <= 1.0
    ensures 0.0 <= SumOver(s, f) / |s| as real <= 1.0
    ensures SumOver(s, f) / |s| as real == 1.0 <==> forall x :: x in s ==> f(x) == 1.0
  {
    SumOverInUnit(s, f);
    QuotientCompare(SumOver(s, f), |s| as real, 0.0);
    QuotientCompare(SumOver(s, f), |s| as real, 1.0);
  }

  // ----- all frames -----

  const DEFAULT_THRESHOLD: real := 0.5

  /** The only class there is when a stream's accuracy is estimated. */
  const OBJECT: ClassId := "1"

  function Normal(detected: seq<(Rect, real)>): seq<Prediction> {
    seq(|detected|, i requires 0 <= i < |detected| => Prediction(detected[i].0, detected[i].1, OBJECT))
  }

  function Truths(frame: seq<Rect>): seq<GroundTruth> {
    seq(|frame|, i requires 0 <= i < |frame| => GroundTruth(frame[i], OBJECT))
  }

  /** Boxes and confidences are taken over in order, all of one class. */
  lemma FrameFields(detected: seq<(Rect, real)>, frame: seq<Rect>)
    ensures |Normal(detected)| == |detected| && forall i :: 0 <= i < |detected| ==>
      var p := Normal(detected)[i]; p.bbox == detected[i].0 && p.prob == detected[i].1 && p.classId == OBJECT
    ensures |Truths(frame)| == |frame| && forall i :: 0 <= i < |frame| ==>
      var g := Truths(frame)[i]; g.bbox == frame[i] && g.classId == OBJECT
  {
  }

  ghost function FrameScore(detected: seq<(Rect, real)>, frame: seq<Rect>): real {
    MeanAp(Normal(detected), Truths(frame), DEFAULT_THRESHOLD)
  }

  /** The scores of one prediction against its first `n` ground-truth frames. */
  ghost function RowScores(detected: seq<(Rect, real)>, frames: seq<seq<Rect>>, n: nat): seq<real>
    requires n <= |frames|
  {
    if n == 0 then [] else RowScores(detected, frames, n - 1) + [FrameScore(detected, frames[n - 1])]
  }

  /** The scores of the first `n` predictions, each against every ground-truth frame it stands for. */
  ghost function AllScores(predictions: seq<seq<(Rect, real)>>, frames: seq<seq<seq<Rect>>>, n: nat): seq<real>
    requires n <= |predictions| && n <= |frames|
  {
    if n == 0 then []
    else AllScores(predictions, frames, n - 1) + RowScores(predictions[n - 1], frames[n - 1], |frames[n - 1]|)
  }

  function Total(s: seq<real>): real {
    if s == [] then 0.0 else Total(s[..|s| - 1]) + s[|s| - 1]
  }

  function Average(s: seq<real>): real {
    if s == [] then 0.0 else Total(s) / |s| as real
  }

  /** Every score counts once, and the average is the total shared out. */
  lemma {:induction false} AverageShares(a: seq<real>, b: seq<real>, x: real)
    ensures Total(a + b) == Total(a) + Total(b) && Total([x]) == x
    ensures Average(a) * |a| as real == Total(a)
    decreases |b|
  {
    if b == [] {
      assert a + b == a;
    } else {
      AverageShares(a, b[..|b| - 1], x);
      assert (a + b)[..|a + b| - 1] == a + b[..|b| - 1];
    }
    assert [x][..0] == [];
  }

  lemma {:induction false} TotalInUnit(s: seq<real>)
    requires InUnit(s)
    ensures 0.0 <= Total(s) <= |s| as real
  {
    if s != [] {
      TotalInUnit(s[..|s| - 1]);
    }
  }

  lemma AverageInUnit(s: seq<real>)
    requires InUnit(s)
    ensures 0.0 <= Average(s) <= 1.0
  {
    if s != [] {
      TotalInUnit(s);
      QuotientCompare(Total(s), |s| as real, 0.0);
      QuotientCompare(Total(s), |s| as real, 1.0);
    }
  }

  lemma {:induction false} RowInUnit(detected: seq<(Rect, real)>, frames: seq<seq<Rect>>, n: nat)
    requires n <= |frames|
    ensures InUnit(RowScores(detected, frames, n))
  {
    if n > 0 {
      RowInUnit(detected, frames, n - 1);
      MeanApInUnit(Normal(detected), Truths(frames[n - 1]), DEFAULT_THRESHOLD);
    }
  }

  lemma {:induction false} AllInUnit(predictions: seq<seq<(Rect, real)>>, frames: seq<seq<seq<Rect>>>, n: nat)
    requires n <= |predictions| && n <= |frames|
    ensures InUnit(AllScores(predictions, frames, n))
  {
    if n > 0 {
      AllInUnit(predictions, frames, n - 1);
      RowInUnit(predictions[n - 1], frames[n - 1], |frames[n - 1]|);
    }
  }

  ghost predicate EmptyUnion(a: Rect, b: Rect) {
    Area(a) + Area(b) == Intersection(a, b)
  }

  /** Some detected box and some box of the frame have an empty union. */
  ghost predicate FrameDivides(detected: seq<(Rect, real)>, frame: seq<Rect>) {
    exists i, j :: 0 <= i < |detected| && 0 <= j < |frame| && EmptyUnion(detected[i].0, frame[j])
  }

  lemma FrameRaises(detected: seq<(Rect, real)>, frame: seq<Rect>)
    ensures MapDividesByZero(Normal(detected), Truths(frame)) <==> FrameDivides(detected, frame)
  {
    var preds, gts := Normal(detected), Truths(frame);
    FrameFields(detected, frame);
    if MapDividesByZero(preds, gts) {
      var p, g :| p in preds && g in gts && p.classId == g.classId && DividesAt(p.bbox, g);
      var i :| 0 <= i < |preds| && preds[i] == p;
      var j :| 0 <= j < |gts| && gts[j] == g;
      assert EmptyUnion(detected[i].0, frame[j]);
    }
    if FrameDivides(detected, frame) {
      var i, j :| 0 <= i < |detected| && 0 <= j < |frame| && EmptyUnion(detected[i].0, frame[j]);
      assert preds[i] in preds && gts[j] in gts && DividesAt(preds[i].bbox, gts[j]);
    }
  }

  /** One of the first `n` frames a prediction is scored against is such a frame. */
  ghost predicate RowRaises(detected: seq<(Rect, real)>, frames: seq<seq<Rect>>, n: nat)
    requires n <= |frames|
  {
    n > 0 && (RowRaises(detected, frames, n - 1) || FrameDivides(detected, frames[n - 1]))
  }

  lemma {:induction false} RaisesFromThere(detected: seq<(Rect, real)>, frames: seq<seq<Rect>>, k: nat, n: nat)
    requires k <= n <= |frames| && RowRaises(detected, frames, k)
    ensures RowRaises(detected, frames, n)
    decreases n
  {
    if k < n {
      RaisesFromThere(detected, frames, k, n - 1);
    }
  }

  method ScoreFrame(detected: seq<(Rect, real)>, frame: seq<Rect>) returns (r: Result<real, AccError>)
    ensures r.Failure? <==> FrameDivides(detected, frame)
    ensures r.Success? ==> r.value == FrameScore(detected, frame)
  {
    FrameRaises(detected, frame);
    r := CalculateMap(Normal(detected), Truths(frame), DEFAULT_THRESHOLD);
  }

  method ScoreRow(detected: seq<(Rect, real)>, frames: seq<seq<Rect>>, scores: seq<real>)
    returns (r: Result<seq<real>, AccError>)
    ensures r.Failure? <==> RowRaises(detected, frames, |frames|)
    ensures r.Success? ==> r.value == scores + RowScores(detected, frames, |frames|)
  {
    var acc := scores;
    for k := 0 to |frames|
      invariant acc == scores + RowScores(detected, frames, k)
      invariant !RowRaises(detected, frames, k)
    {
      var score := ScoreFrame(detected, frames[k]);
      if score.Failure? {
        RaisesFromThere(detected, frames, k + 1, |frames|);
        return Failure(score.error);
      }
      acc := acc + [score.value];
    }
    r := Success(acc);
  }

  /**
   The accuracy of a task: one without ground truth, none without predictions, else the mean score, always
   between zero and one. It raises exactly if something is scored against a frame with which it divides by zero.
   */
  method CalculateAccuracy(predictions: seq<seq<(Rect, real)>>, frames: seq<seq<seq<Rect>>>)
    returns (r: Result<real, AccError>)
    ensures r.Failure? <==>
      exists i :: 0 <= i < |predictions| && i < |frames| && RowRaises(predictions[i], frames[i], |frames[i]|)
    ensures r.Success? ==> 0.0 <= r.value <= 1.0
    ensures r.Success? ==>
      var n := if |predictions| <= |frames| then |predictions| else |frames|;
      r.value == if frames == [] then 1.0 else Average(AllScores(predictions, frames, n))
  {
    if frames == [] {
      return Success(1.0);
    }
    if predictions == [] {
      return Success(0.0);
    }
    var scores: seq<real> := [];
    var n := if |predictions| <= |frames| then |predictions| else |frames|;
    for i := 0 to n
      invariant scores == AllScores(predictions, frames, i)
      invariant forall j :: 0 <= j < i ==> !RowRaises(predictions[j], frames[j], |frames[j]|)
    {
      var row := ScoreRow(predictions[i], frames[i], scores);
      if row.Failure? {
        return Failure(row.error);
      }
      scores := row.value;
    }
    AllInUnit(predictions, frames, n);
    AverageInUnit(scores);
    r := Success(Average(scores));
  }
}
