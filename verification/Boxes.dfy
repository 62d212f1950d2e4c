/** Axis-aligned boxes of pixels: areas and intersections, over the reals. */
module Boxes {

  /** A box by its corners; both corner pixels belong to it. */
  datatype Rect = Rect(x1: real, y1: real, x2: real, y2: real)

  function Max(a: real, b: real): real {
    if a >= b then a else b
  }

  function Min(a: real, b: real): real {
    if a <= b then a else b
  }

  /** The overlap of two intervals of pixels. */
  function Overlap(a1: real, a2: real, b1: real, b2: real): real {
    Max(Min(a2, b2) - Max(a1, b1) + 1.0, 0.0)
  }

  function Area(b: Rect): real {
    (b.x2 - b.x1 + 1.0) * (b.y2 - b.y1 + 1.0)
  }

  function Intersection(a: Rect, b: Rect): real {
    Overlap(a.x1, a.x2, b.x1, b.x2) * Overlap(a.y1, a.y2, b.y1, b.y2)
  }

  predicate Ordered(b: Rect) {
    b.x1 <= b.x2 && b.y1 <= b.y2
  }

  // ----- on whole pixels, areas count pixels -----

  /** A box with whole corners. */
  datatype PixelBox = PixelBox(x1: int, y1: int, x2: int, y2: int) {
    ghost function ToRect(): Rect {
      Rect(x1 as real, y1 as real, x2 as real, y2 as real)
    }
  }

  ghost predicate Within(k: int, lo: int, hi: int) {
    lo <= k <= hi
  }

  ghost function Columns(lo: int, hi: int): set<int> {
    set k: int | lo <= k <= hi && Within(k, lo, hi)
  }

  ghost function Pixels(b: PixelBox): set<(int, int)> {
    set x: int, y: int | b.x1 <= x <= b.x2 && b.y1 <= y <= b.y2 :: (x, y)
  }

  lemma {:induction false} ColumnsCount(lo: int, hi: int)
    ensures |Columns(lo, hi)| == if lo <= hi then hi - lo + 1 else 0
    decreases hi - lo
  {
    if lo <= hi {
      ColumnsCount(lo, hi - 1);
      assert Columns(lo, hi) == Columns(lo, hi - 1) + {hi};
    } else {
      assert Columns(lo, hi) == {};
    }
  }

  /** The pixels of a box are its columns times its rows. */
  lemma {:induction false} PixelsCount(b: PixelBox)
    ensures |Pixels(b)| == |Columns(b.x1, b.x2)| * |Columns(b.y1, b.y2)|
    decreases b.x2 - b.x1
  {
    if b.x1 <= b.x2 {
      PixelsCount(b.(x2 := b.x2 - 1));
      ColumnsCount(b.x1, b.x2);
      ColumnsCount(b.x1, b.x2 - 1);
      MoreColumns(b);
      OneMore(|Columns(b.x1, b.x2 - 1)|, |Columns(b.y1, b.y2)|);
    } else {
      assert Pixels(b) == {} && Columns(b.x1, b.x2) == {};
    }
  }

  lemma OneMore(w: nat, h: nat)
    ensures (w + 1) * h == w * h + h
  {
  }

  lemma MoreColumns(b: PixelBox)
    requires b.x1 <= b.x2
    ensures |Pixels(b)| == |Pixels(b.(x2 := b.x2 - 1))| + |Columns(b.y1, b.y2)|
  {
    var less := b.(x2 := b.x2 - 1);
    var last := set y: int | b.y1 <= y <= b.y2 :: (b.x2, y);
    LastColumn(b.x2, b.y1, b.y2);
    assert Pixels(b) == Pixels(less) + last;
    assert Pixels(less) !! last;
  }

  lemma {:induction false} LastColumn(x: int, lo: int, hi: int)
    ensures |set y: int | lo <= y <= hi :: (x, y)| == |Columns(lo, hi)|
    decreases hi - lo
  {
    var column := set y: int | lo <= y <= hi :: (x, y);
    if lo <= hi {
      LastColumn(x, lo, hi - 1);
      assert column == (set y: int | lo <= y <= hi - 1 :: (x, y)) + {(x, hi)};
      assert Columns(lo, hi) == Columns(lo, hi - 1) + {hi};
    } else {
      assert column == {} && Columns(lo, hi) == {};
    }
  }

  /** The area of an ordered box is the number of its pixels. */
  lemma AreaCountsPixels(b: PixelBox)
    requires Ordered(b.ToRect())
    ensures Area(b.ToRect()) == |Pixels(b)| as real
  {
    PixelsCount(b);
    ColumnsCount(b.x1, b.x2);
    ColumnsCount(b.y1, b.y2);
  }

  ghost function Later(a: int, b: int): int {
    if a >= b then a else b
  }

  ghost function Earlier(a: int, b: int): int {
    if a <= b then a else b
  }

  lemma OverlapCounts(a1: int, a2: int, b1: int, b2: int)
    ensures Overlap(a1 as real, a2 as real, b1 as real, b2 as real) ==
            |Columns(Later(a1, b1), Earlier(a2, b2))| as real
  {
    ColumnsCount(Later(a1, b1), Earlier(a2, b2));
  }

  lemma SharedPixels(a: PixelBox, b: PixelBox)
    ensures Pixels(a) * Pixels(b) ==
            Pixels(PixelBox(Later(a.x1, b.x1), Later(a.y1, b.y1), Earlier(a.x2, b.x2), Earlier(a.y2, b.y2)))
  {
  }

  lemma WholeProduct(a: Rect, b: Rect, n: nat, w: nat, h: nat)
    requires n == w * h
    requires Overlap(a.x1, a.x2, b.x1, b.x2) == w as real && Overlap(a.y1, a.y2, b.y1, b.y2) == h as real
    ensures Intersection(a, b) == n as real
  {
    assert n as real == w as real * h as real;
  }

  /** The intersection of two boxes is the number of pixels they share. */
  lemma IntersectionCountsPixels(a: PixelBox, b: PixelBox)
    ensures Intersection(a.ToRect(), b.ToRect()) == |Pixels(a) * Pixels(b)| as real
  {
    var both := PixelBox(Later(a.x1, b.x1), Later(a.y1, b.y1), Earlier(a.x2, b.x2), Earlier(a.y2, b.y2));
    var n, w, h := |Pixels(both)|, |Columns(both.x1, both.x2)|, |Columns(both.y1, both.y2)|;
    assert n == w * h by {
      PixelsCount(both);
    }
    assert Overlap(a.x1 as real, a.x2 as real, b.x1 as real, b.x2 as real) == w as real by {
      OverlapCounts(a.x1, a.x2, b.x1, b.x2);
    }
    assert Overlap(a.y1 as real, a.y2 as real, b.y1 as real, b.y2 as real) == h as real by {
      OverlapCounts(a.y1, a.y2, b.y1, b.y2);
    }
    WholeProduct(a.ToRect(), b.ToRect(), n, w, h);
    SharedPixels(a, b);
  }

  lemma Product(a: real, b: real, c: real, d: real)
    requires 0.0 <= a <= c && 0.0 <= b <= d
    ensures 0.0 <= a * b <= c * d
  {
    assert a * b <= c * b;
    assert c * b <= c * d;
  }

  lemma IntersectionWithin(a: Rect, b: Rect)
    requires Ordered(a) && Ordered(b)
    ensures 0.0 <= Intersection(a, b) <= Area(a)
  {
    Product(Overlap(a.x1, a.x2, b.x1, b.x2), Overlap(a.y1, a.y2, b.y1, b.y2), a.x2 - a.x1 + 1.0, a.y2 - a.y1 + 1.0);
  }

  lemma AreaAtLeastOne(b: Rect)
    requires Ordered(b)
    ensures Area(b) >= 1.0
  {
    var w, h := b.x2 - b.x1, b.y2 - b.y1;
    Product(0.0, 0.0, w, h);
    assert Area(b) == w * h + w + h + 1.0;
  }

  /** The intersection of two ordered boxes is no larger than either, and both cover at least a pixel. */
  lemma IntersectionBounds(a: Rect, b: Rect)
    requires Ordered(a) && Ordered(b)
    ensures 0.0 <= Intersection(a, b) <= Area(a) && Intersection(a, b) == Intersection(b, a) <= Area(b)
    ensures Area(a) >= 1.0 && Area(b) >= 1.0
  {
    IntersectionWithin(a, b);
    IntersectionWithin(b, a);
    AreaAtLeastOne(a);
    AreaAtLeastOne(b);
  }

  lemma QuotientCompare(i: real, u: real, t: real)
    requires 0.0 < u
    ensures i / u > t <==> i > t * u
    ensures i / u >= t <==> i >= t * u
  {
    var q := i / u;
    assert i == q * u;
    assert (q - t) * u == i - t * u;
    assert q - t > 0.0 ==> (q - t) * u > 0.0;
    assert q - t < 0.0 ==> (q - t) * u < 0.0;
  }
}
