/** Non-maximum suppression of detected boxes, over the reals. */
module NonMaxSuppression {
  import opened Graphs
  import opened Sorting
  import opened Boxes
  import opened SuppressionRounds

  /** A row of the network's output: centre, size, confidence and class. */
  datatype Prediction = Prediction(cx: real, cy: real, w: real, h: real, conf: real, classId: real)

  datatype Box = Box(rect: Rect, conf: real, classId: real)

  /** Keeps the denominator of the overlap away from zero. */
  const EPS: real := 0.0000000000000001

  function Clip(v: real, lo: real, hi: real): real {
    Min(Max(v, lo), hi)
  }

  /** Intersection over union. */
  function BboxIou(a: Rect, b: Rect): (r: real)
    requires Ordered(a) && Ordered(b)
    ensures 0.0 <= r < 1.0
  {
    IntersectionBounds(a, b);
    var i, u := Intersection(a, b), Area(a) + Area(b) - Intersection(a, b) + EPS;
    QuotientCompare(i, u, 0.0);
    QuotientCompare(i, u, 1.0);
    i / u
  }

  /** The intersection as a share of the union, the small constant included. */
  lemma IouIsShare(a: Rect, b: Rect)
    requires Ordered(a) && Ordered(b)
    ensures BboxIou(a, b) * (Area(a) + Area(b) - Intersection(a, b) + EPS) == Intersection(a, b)
  {
    IntersectionBounds(a, b);
  }

  lemma IouSymmetric(a: Rect, b: Rect)
    requires Ordered(a) && Ordered(b)
    ensures BboxIou(a, b) == BboxIou(b, a)
  {
    IntersectionBounds(a, b);
  }

  /** A box overlaps itself by its area over its area and the small constant. */
  lemma SelfIou(b: Rect, t: real)
    requires Ordered(b)
    ensures BboxIou(b, b) > t <==> Area(b) > t * (Area(b) + EPS)
  {
    IntersectionBounds(b, b);
    assert Intersection(b, b) == Area(b);
    QuotientCompare(Area(b), Area(b) + EPS, t);
  }

  /** The threshold lies below what a single pixel overlaps itself by. */
  ghost predicate SafeThreshold(t: real) {
    t * (1.0 + EPS) < 1.0
  }

  /** Exactly with a safe threshold, every box suppresses itself. */
  lemma SafeIffSelfSuppressing(t: real)
    ensures SafeThreshold(t) <==> forall b: Rect :: Ordered(b) ==> BboxIou(b, b) > t
  {
    var pixel := Rect(0.0, 0.0, 0.0, 0.0);
    assert Area(pixel) == 1.0;
    SelfIou(pixel, t);
    if SafeThreshold(t) {
      forall b: Rect | Ordered(b) ensures BboxIou(b, b) > t {
        SafeSelf(b, t);
      }
    }
  }

  lemma SafeSelf(b: Rect, t: real)
    requires Ordered(b) && SafeThreshold(t)
    ensures BboxIou(b, b) > t
  {
    IntersectionBounds(b, b);
    SelfIou(b, t);
    SafeForArea(Area(b), t);
  }

  lemma SafeForArea(a: real, t: real)
    requires a >= 1.0 && SafeThreshold(t)
    ensures a > t * (a + EPS)
  {
    assert t + t * EPS < 1.0;
    if t >= 0.0 {
      Product(0.0, 0.0, a - 1.0, 1.0 - t);
      assert a - t * (a + EPS) == (a - 1.0) * (1.0 - t) + 1.0 - (t + t * EPS);
    } else {
      assert t * (a + EPS) < 0.0;
    }
  }

  // ----- one round -----

  predicate Invalid(first: Box, b: Box, t: real)
    requires Ordered(first.rect) && Ordered(b.rect)
  {
    BboxIou(first.rect, b.rect) > t && first.classId == b.classId
  }

  ghost predicate AllOrdered(s: seq<Box>) {
    forall b :: b in s ==> Ordered(b.rect)
  }

  /** Which box suppresses which. */
  function Hits(t: real): (Box, Box) -> bool {
    (k: Box, b: Box) => Ordered(k.rect) && Ordered(b.rect) && Invalid(k, b, t)
  }

  ghost predicate Descending(s: seq<Box>) {
    forall i, j :: 0 <= i < j < |s| ==> s[i].conf >= s[j].conf
  }

  lemma {:induction false} SurvivorsDescend(t: real, first: Box, s: seq<Box>)
    requires Descending(s)
    ensures Descending(Survivors(Hits(t), first, s))
  {
    if s != [] {
      SurvivorsDescend(t, first, s[1..]);
      assert forall b :: b in s[1..] ==> s[0].conf >= b.conf;
    }
  }

  /** The rounds end on every list exactly with a safe threshold. */
  lemma SafeIffRoundsEnd(t: real)
    ensures SafeThreshold(t) <==> forall s :: AllOrdered(s) ==> SomeRoundEnds(Hits(t), s)
  {
    SafeIffSelfSuppressing(t);
    if SafeThreshold(t) {
      forall s | AllOrdered(s) ensures SomeRoundEnds(Hits(t), s) {
        RoundsEnd(Hits(t), s, |s|);
      }
    } else {
      var b: Rect :| Ordered(b) && BboxIou(b, b) <= t;
      var s := [Box(b, 0.0, 0.0)];
      forall n: nat ensures Rounds(Hits(t), s, n) != [] {
        RoundsStuck(Hits(t), s, n);
      }
      assert AllOrdered(s) && !SomeRoundEnds(Hits(t), s);
    }
  }

  // ----- from the network's output to candidate boxes -----

  ghost predicate Proper(p: Prediction) {
    p.w >= 0.0 && p.h >= 0.0
  }

  /** Corners in the original image: the padding and the scale are undone, then the corners are clipped to it. */
  function Placed(p: Prediction, r: real, dx: real, dy: real, originW: real, originH: real): Box
    requires r > 0.0
  {
    Box(Rect(Clip((p.cx - p.w / 2.0 - dx) / r, 0.0, originW - 1.0),
             Clip((p.cy - p.h / 2.0 - dy) / r, 0.0, originH - 1.0),
             Clip((p.cx + p.w / 2.0 - dx) / r, 0.0, originW - 1.0),
             Clip((p.cy + p.h / 2.0 - dy) / r, 0.0, originH - 1.0)),
        p.conf, p.classId)
  }

  /** Half of what the scaled image leaves free of the input. */
  function Padding(input: real, scale: real, origin: real): real {
    (input - scale * origin) / 2.0
  }

  /** The letterbox of the input is undone. */
  function Transform(p: Prediction, inputW: real, inputH: real, originW: real, originH: real): Box
    requires inputW > 0.0 && inputH > 0.0 && originW >= 1.0 && originH >= 1.0
  {
    var rw, rh := inputW / originW, inputH / originH;
    if rh > rw then Placed(p, rw, 0.0, Padding(inputH, rw, originH), originW, originH)
    else Placed(p, rh, Padding(inputW, rh, originW), 0.0, originW, originH)
  }

  /** The scale at which an image fits the input, and the padding that centres it. */
  ghost predicate Fits(scale: real, left: real, top: real, inputW: real, inputH: real, originW: real, originH: real)
    requires originW >= 1.0 && originH >= 1.0
  {
    && scale == Min(inputW / originW, inputH / originH)
    && left == (inputW - scale * originW) / 2.0
    && top == (inputH - scale * originH) / 2.0
  }

  /** Where the network sees a box of the original image. */
  ghost function Letterboxed(b: Box, scale: real, left: real, top: real): Prediction {
    Prediction(left + scale * ((b.rect.x1 + b.rect.x2) / 2.0), top + scale * ((b.rect.y1 + b.rect.y2) / 2.0),
               scale * (b.rect.x2 - b.rect.x1), scale * (b.rect.y2 - b.rect.y1), b.conf, b.classId)
  }

  /** The value within the bounds that is nearest to `v`. */
  ghost predicate NearestWithin(c: real, v: real, lo: real, hi: real) {
    lo <= c <= hi && (v < lo ==> c == lo) && (v > hi ==> c == hi) && (lo <= v <= hi ==> c == v)
  }

  lemma ScaledBack(x1: real, x2: real, scale: real, pad: real, centre: real, size: real, hi: real)
    requires scale > 0.0 && hi >= 0.0
    requires centre == pad + scale * ((x1 + x2) / 2.0) && size == scale * (x2 - x1)
    ensures NearestWithin(Clip((centre - size / 2.0 - pad) / scale, 0.0, hi), x1, 0.0, hi)
    ensures NearestWithin(Clip((centre + size / 2.0 - pad) / scale, 0.0, hi), x2, 0.0, hi)
  {
    assert centre - size / 2.0 - pad == scale * x1;
    assert centre + size / 2.0 - pad == scale * x2;
    Unscaled(x1, scale);
    Unscaled(x2, scale);
  }

  lemma Unscaled(x: real, scale: real)
    requires scale > 0.0
    ensures scale * x / scale == x
  {
    var q := scale * x / scale;
    assert q * scale == scale * x;
    assert (q - x) * scale == 0.0;
  }

  /** What the network sees of a box is transformed back to that box, clipped to the image. */
  lemma TransformUndoesLetterbox(b: Box, inputW: real, inputH: real, originW: real, originH: real, scale: real,
                                 left: real, top: real)
    requires inputW > 0.0 && inputH > 0.0 && originW >= 1.0 && originH >= 1.0
    requires Fits(scale, left, top, inputW, inputH, originW, originH)
    ensures var back := Transform(Letterboxed(b, scale, left, top), inputW, inputH, originW, originH);
      && back.conf == b.conf && back.classId == b.classId
      && NearestWithin(back.rect.x1, b.rect.x1, 0.0, originW - 1.0)
      && NearestWithin(back.rect.x2, b.rect.x2, 0.0, originW - 1.0)
      && NearestWithin(back.rect.y1, b.rect.y1, 0.0, originH - 1.0)
      && NearestWithin(back.rect.y2, b.rect.y2, 0.0, originH - 1.0)
  {
    FitsEitherWay(Letterboxed(b, scale, left, top), inputW, inputH, originW, originH, scale, left, top);
    PlacedBack(b, scale, left, top, originW, originH);
  }

  /** The side that decides the scale needs no padding. */
  lemma NoPadding(input: real, origin: real)
    requires input > 0.0 && origin >= 1.0
    ensures input / origin > 0.0 && Padding(input, input / origin, origin) == 0.0
  {
    assert input / origin * origin == input;
  }

  lemma FitsEitherWay(p: Prediction, inputW: real, inputH: real, originW: real, originH: real, scale: real,
                      left: real, top: real)
    requires inputW > 0.0 && inputH > 0.0 && originW >= 1.0 && originH >= 1.0
    requires scale == Min(inputW / originW, inputH / originH)
    requires left == Padding(inputW, scale, originW) && top == Padding(inputH, scale, originH)
    ensures scale > 0.0 && Transform(p, inputW, inputH, originW, originH) ==
                           Placed(p, scale, left, top, originW, originH)
  {
    NoPadding(inputW, originW);
    NoPadding(inputH, originH);
  }

  lemma PlacedBack(b: Box, scale: real, left: real, top: real, originW: real, originH: real)
    requires scale > 0.0 && originW >= 1.0 && originH >= 1.0
    ensures var back := Placed(Letterboxed(b, scale, left, top), scale, left, top, originW, originH);
      && back.conf == b.conf && back.classId == b.classId
      && NearestWithin(back.rect.x1, b.rect.x1, 0.0, originW - 1.0)
      && NearestWithin(back.rect.x2, b.rect.x2, 0.0, originW - 1.0)
      && NearestWithin(back.rect.y1, b.rect.y1, 0.0, originH - 1.0)
      && NearestWithin(back.rect.y2, b.rect.y2, 0.0, originH - 1.0)
  {
    var seen := Letterboxed(b, scale, left, top);
    ScaledBack(b.rect.x1, b.rect.x2, scale, left, seen.cx, seen.w, originW - 1.0);
    ScaledBack(b.rect.y1, b.rect.y2, scale, top, seen.cy, seen.h, originH - 1.0);
  }

  lemma QuotientMonotone(a: real, b: real, r: real)
    requires a <= b && r > 0.0
    ensures a / r <= b / r
  {
    assert a == (a / r) * r && b == (b / r) * r;
  }

  lemma TransformOrdered(p: Prediction, inputW: real, inputH: real, originW: real, originH: real)
    requires inputW > 0.0 && inputH > 0.0 && originW >= 1.0 && originH >= 1.0 && Proper(p)
    ensures var b := Transform(p, inputW, inputH, originW, originH).rect;
            Ordered(b) && 0.0 <= b.x1 && b.x2 <= originW - 1.0 && 0.0 <= b.y1 && b.y2 <= originH - 1.0
  {
    var rw, rh := inputW / originW, inputH / originH;
    if rh > rw {
      PlacedOrdered(p, rw, 0.0, Padding(inputH, rw, originH), originW, originH);
    } else {
      PlacedOrdered(p, rh, Padding(inputW, rh, originW), 0.0, originW, originH);
    }
  }

  lemma PlacedOrdered(p: Prediction, r: real, dx: real, dy: real, originW: real, originH: real)
    requires r > 0.0 && originW >= 1.0 && originH >= 1.0 && Proper(p)
    ensures var b := Placed(p, r, dx, dy, originW, originH).rect;
            Ordered(b) && 0.0 <= b.x1 && b.x2 <= originW - 1.0 && 0.0 <= b.y1 && b.y2 <= originH - 1.0
  {
    QuotientMonotone(p.cx - p.w / 2.0 - dx, p.cx + p.w / 2.0 - dx, r);
    QuotientMonotone(p.cy - p.h / 2.0 - dy, p.cy + p.h / 2.0 - dy, r);
  }

  /** The predictions of sufficient confidence, as boxes. */
  function Candidates(preds: seq<Prediction>, inputW: real, inputH: real, originW: real, originH: real,
                      confThres: real): (r: seq<Box>)
    requires inputW > 0.0 && inputH > 0.0 && originW >= 1.0 && originH >= 1.0
    ensures forall b :: b in r <==>
      exists p :: p in preds && p.conf >= confThres && b == Transform(p, inputW, inputH, originW, originH)
  {
    if preds == [] then []
    else
      var last := preds[|preds| - 1];
      var rest := Candidates(preds[..|preds| - 1], inputW, inputH, originW, originH, confThres);
      assert preds == preds[..|preds| - 1] + [last];
      if last.conf >= confThres then rest + [Transform(last, inputW, inputH, originW, originH)] else rest
  }

  /** Candidates are picked one by one, in order. */
  lemma {:induction false} CandidatesSplit(a: seq<Prediction>, b: seq<Prediction>, p: Prediction, inputW: real,
                                           inputH: real, originW: real, originH: real, confThres: real)
    requires inputW > 0.0 && inputH > 0.0 && originW >= 1.0 && originH >= 1.0
    ensures Candidates(a + b, inputW, inputH, originW, originH, confThres) ==
            Candidates(a, inputW, inputH, originW, originH, confThres)
              + Candidates(b, inputW, inputH, originW, originH, confThres)
    ensures Candidates([p], inputW, inputH, originW, originH, confThres) ==
            if p.conf >= confThres then [Transform(p, inputW, inputH, originW, originH)] else []
    decreases |b|
  {
    if b == [] {
      assert a + b == a;
    } else {
      CandidatesSplit(a, b[..|b| - 1], p, inputW, inputH, originW, originH, confThres);
      assert (a + b)[..|a + b| - 1] == a + b[..|b| - 1];
    }
    assert [p][..0] == [];
  }

  lemma CandidatesOrdered(preds: seq<Prediction>, inputW: real, inputH: real, originW: real, originH: real,
                          confThres: real)
    requires inputW > 0.0 && inputH > 0.0 && originW >= 1.0 && originH >= 1.0
    requires forall p :: p in preds ==> Proper(p)
    ensures AllOrdered(Candidates(preds, inputW, inputH, originW, originH, confThres))
  {
    forall b | b in Candidates(preds, inputW, inputH, originW, originH, confThres) ensures Ordered(b.rect) {
      var p :| p in preds && b == Transform(p, inputW, inputH, originW, originH);
      TransformOrdered(p, inputW, inputH, originW, originH);
    }
  }

  // ----- the suppression -----

  /** Two boxes that may both be kept. */
  ghost predicate Apart(a: Box, b: Box, t: real) {
    Ordered(a.rect) && Ordered(b.rect) ==> a.classId != b.classId || BboxIou(a.rect, b.rect) <= t
  }

  /** A kept box that accounts for a dropped one. */
  ghost predicate Covers(k: Box, b: Box, t: real) {
    && Ordered(k.rect) && Ordered(b.rect) && BboxIou(k.rect, b.rect) > t
    && k.classId == b.classId && k.conf >= b.conf
  }

  ghost predicate PairwiseApart(s: seq<Box>, t: real) {
    forall i, j :: 0 <= i < j < |s| ==> Apart(s[i], s[j], t)
  }

  ghost predicate Accounted(kept: seq<Box>, b: Box, t: real) {
    b in kept || exists k :: k in kept && Covers(k, b, t)
  }

  /**
   The state of the loop: what is kept is apart from everything left and no less confident, and whatever is gone
   is covered.
   */
  ghost predicate Suppressing(all: seq<Box>, kept: seq<Box>, left: seq<Box>, t: real) {
    && Descending(left) && Descending(kept) && PairwiseApart(kept, t)
    && (forall b {:trigger b in left} :: b in left ==> b in all && forall k :: k in kept ==>
         Apart(k, b, t) && k.conf >= b.conf)
    && (forall k {:trigger k in kept} :: k in kept ==> k in all)
    && (forall b {:trigger Accounted(kept, b, t)} :: b in all ==> b in left || Accounted(kept, b, t))
  }

  lemma RoundKeeps(all: seq<Box>, kept: seq<Box>, left: seq<Box>, t: real)
    requires AllOrdered(all) && left != [] && Suppressing(all, kept, left, t)
    requires AllOrdered(left)
    ensures Suppressing(all, kept + [left[0]], Survivors(Hits(t), left[0], left), t)
  {
    var first, more, rest := left[0], kept + [left[0]], Survivors(Hits(t), left[0], left);
    assert first in left;
    assert forall b :: b in left ==> first.conf >= b.conf;
    SurvivorsDescend(t, first, left);
    forall b | b in all ensures b in rest || Accounted(more, b, t) {
      if Accounted(kept, b, t) {
        if b !in kept {
          var k :| k in kept && Covers(k, b, t);
          assert k in more;
        }
      } else if b in left && Invalid(first, b, t) {
        assert first in more && Covers(first, b, t);
      }
    }
  }

  /** The candidates by falling confidence. */
  function Ranked(candidates: seq<Box>): seq<Box> {
    Sorted((b: Box) => -b.conf, candidates)
  }

  lemma RankedFacts(candidates: seq<Box>)
    ensures Descending(Ranked(candidates)) && multiset(Ranked(candidates)) == multiset(candidates)
    ensures forall b :: b in Ranked(candidates) <==> b in candidates
  {
    var key := (b: Box) => -b.conf;
    SortedIsPermutation(key, candidates);
    DescendingByKey(key, Sorted(key, candidates));
    assert Ranked(candidates) == Sorted(key, candidates);
    assert forall b :: b in candidates <==> b in multiset(candidates);
  }

  /** Every box that will be chosen suppresses itself: exactly then the loop ends. */
  ghost predicate Ending(boxes: seq<Box>, t: real) {
    forall b :: b in Chosen(Hits(t), {}, boxes) ==> Hits(t)(b, b)
  }

  /** With a safe threshold this is so on every list. */
  lemma SafeIsEnding(boxes: seq<Box>, t: real)
    requires AllOrdered(boxes) && SafeThreshold(t)
    ensures Ending(boxes, t)
  {
    forall b | b in Chosen(Hits(t), {}, boxes) ensures Hits(t)(b, b) {
      SafeSelf(b.rect, t);
    }
  }

  /**
   The suppression. What is kept is in order of confidence and pairwise apart; every candidate is kept, or
   overlaps by more than the threshold a kept box of its class and of at least its confidence.
   */
  method Suppress(preds: seq<Prediction>, inputW: real, inputH: real, originW: real, originH: real, confThres: real,
                  nmsThres: real)
    returns (kept: seq<Box>)
    requires inputW > 0.0 && inputH > 0.0 && originW >= 1.0 && originH >= 1.0
    requires forall p :: p in preds ==> Proper(p)
    requires Ending(Ranked(Candidates(preds, inputW, inputH, originW, originH, confThres)), nmsThres)
    ensures kept == Chosen(Hits(nmsThres), {}, Ranked(Candidates(preds, inputW, inputH, originW, originH, confThres)))
    ensures Descending(kept) && PairwiseApart(kept, nmsThres) && Distinct(kept)
    ensures forall k :: k in kept ==> k in Candidates(preds, inputW, inputH, originW, originH, confThres)
    ensures forall b :: b in Candidates(preds, inputW, inputH, originW, originH, confThres) ==>
      Accounted(kept, b, nmsThres)
  {
    var candidates := Candidates(preds, inputW, inputH, originW, originH, confThres);
    CandidatesOrdered(preds, inputW, inputH, originW, originH, confThres);
    var boxes := Ranked(candidates);
    RankedFacts(candidates);
    ghost var all := boxes;
    kept := [];
    while boxes != []
      invariant AllOrdered(boxes) && Suppressing(candidates, kept, boxes, nmsThres)
      invariant kept + Chosen(Hits(nmsThres), {}, boxes) == Chosen(Hits(nmsThres), {}, all)
      decreases |boxes|
    {
      LoopRound(candidates, kept, boxes, all, nmsThres);
      kept := kept + [boxes[0]];
      boxes := Survivors(Hits(nmsThres), boxes[0], boxes);
    }
    KeptDistinct(kept, nmsThres);
  }

  /** One round of the loop. */
  lemma LoopRound(candidates: seq<Box>, kept: seq<Box>, boxes: seq<Box>, all: seq<Box>, t: real)
    requires boxes != [] && AllOrdered(candidates) && AllOrdered(boxes) && Suppressing(candidates, kept, boxes, t)
    requires Ending(all, t) && kept + Chosen(Hits(t), {}, boxes) == Chosen(Hits(t), {}, all)
    ensures var more, rest := kept + [boxes[0]], Survivors(Hits(t), boxes[0], boxes);
      && |rest| < |boxes| && AllOrdered(rest) && Suppressing(candidates, more, rest, t)
      && more + Chosen(Hits(t), {}, rest) == Chosen(Hits(t), {}, all)
  {
    NextChosen(kept, boxes, all, t);
    RoundKeeps(candidates, kept, boxes, t);
  }

  lemma NextChosen(kept: seq<Box>, boxes: seq<Box>, all: seq<Box>, t: real)
    requires boxes != [] && Ending(all, t) && kept + Chosen(Hits(t), {}, boxes) == Chosen(Hits(t), {}, all)
    ensures |Survivors(Hits(t), boxes[0], boxes)| < |boxes|
    ensures kept + [boxes[0]] + Chosen(Hits(t), {}, Survivors(Hits(t), boxes[0], boxes)) == Chosen(Hits(t), {}, all)
  {
    assert Chosen(Hits(t), {}, boxes)[0] == boxes[0];
    assert boxes[0] in kept + Chosen(Hits(t), {}, boxes);
    RoundStuckIff(Hits(t), boxes);
    ChosenByRound(Hits(t), boxes);
  }

  lemma DescendingByKey(key: Box -> real, s: seq<Box>)
    requires Ascending(key, s) && forall b :: key(b) == -b.conf
    ensures Descending(s)
  {
  }

  lemma KeptDistinct(kept: seq<Box>, t: real)
    requires PairwiseApart(kept, t) && forall k :: k in kept ==> Hits(t)(k, k)
    ensures Distinct(kept)
  {
    forall i, j | 0 <= i < j < |kept| ensures kept[i] != kept[j] {
      assert kept[i] in kept && Apart(kept[i], kept[j], t);
    }
  }
}
