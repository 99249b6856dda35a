/** Inclusive pixel intervals and rectangles of geo.py, measured against the pixels they cover. */
module Geometry {
  import opened Wrappers

  datatype Interval = Interval(low: int, high: int)

  /** The constructor of Line asserts low <= high, so no other value exists. */
  type Line = l: Interval | l.low <= l.high witness Interval(0, 0)

  datatype Rect = Rect(xline: Line, yline: Line)

  function Length(l: Line): int { l.high - l.low + 1 }

  function Area(r: Rect): int { Length(r.xline) * Length(r.yline) }

  function LineIntersection(line1: Line, line2: Line): Option<Line> {
    var (a, b) := if line1.low > line2.low then (line2, line1) else (line1, line2);
    if a.high < b.low then None
    else Some(Interval(b.low, if a.high < b.high then a.high else b.high))
  }

  function RectIntersection(rect1: Rect, rect2: Rect): Option<Rect> {
    var xline := LineIntersection(rect1.xline, rect2.xline);
    var yline := LineIntersection(rect1.yline, rect2.yline);
    if xline.None? || yline.None? then None else Some(Rect(xline.value, yline.value))
  }

  function RectIou(rect1: Rect, rect2: Rect): real
  {
    match RectIntersection(rect1, rect2)
    case None => 0.0
    case Some(common) =>
      AreaBounds(rect1, rect2);
      Area(common) as real / (Area(rect1) + Area(rect2) - Area(common)) as real
  }

  function RectIos(rect1: Rect, rect2: Rect): real
  {
    match RectIntersection(rect1, rect2)
    case None => 0.0
    case Some(common) =>
      var small := if Area(rect1) < Area(rect2) then rect1 else rect2;
      AreaBounds(rect1, rect2);
      Area(common) as real / Area(small) as real
  }

  // ------------------------------------------------------------------ pixels

  ghost predicate Covers(l: Line, x: int) { l.low <= x <= l.high }

  ghost function LinePixels(l: Line): set<int> { set x | l.low <= x <= l.high && Covers(l, x) }

  ghost function Pixels(r: Rect): set<(int, int)> {
    Product(LinePixels(r.xline), LinePixels(r.yline))
  }

  lemma {:induction false} LinePixelCount(l: Line)
    ensures |LinePixels(l)| == Length(l)
    decreases l.high - l.low
  {
    if l.low == l.high {
      assert LinePixels(l) == {l.low};
    } else {
      var shorter := Interval(l.low, l.high - 1);
      LinePixelCount(shorter);
      assert LinePixels(l) == LinePixels(shorter) + {l.high};
    }
  }

  ghost function Column(x0: int, ys: set<int>): set<(int, int)> { set y | y in ys :: (x0, y) }

  ghost function Product(xs: set<int>, ys: set<int>): set<(int, int)> { set x, y | x in xs && y in ys :: (x, y) }

  lemma {:induction false} ColumnCount(x0: int, ys: set<int>)
    ensures |Column(x0, ys)| == |ys|
  {
    if |ys| > 0 {
      var y0 := Member(ys);
      ColumnCount(x0, ys - {y0});
      assert Column(x0, ys) == Column(x0, ys - {y0}) + {(x0, y0)};
    }
  }

  lemma {:induction false} ProductCount(xs: set<int>, ys: set<int>)
    ensures |Product(xs, ys)| == |xs| * |ys|
  {
    if |xs| > 0 {
      var x0 := Member(xs);
      var rest := xs - {x0};
      ProductCount(rest, ys);
      ColumnCount(x0, ys);
      assert Product(xs, ys) == Column(x0, ys) + Product(rest, ys);
      assert Column(x0, ys) !! Product(rest, ys);
      assert (|rest| + 1) * |ys| == |rest| * |ys| + |ys|;
    } else {
      assert Product(xs, ys) == {};
    }
  }

  /** The area property counts pixels. */
  lemma AreaCountsPixels(r: Rect)
    ensures Area(r) == |Pixels(r)| > 0
  {
    LinePixelCount(r.xline);
    LinePixelCount(r.yline);
    ProductCount(LinePixels(r.xline), LinePixels(r.yline));
    assert (r.xline.low, r.yline.low) in Pixels(r);
  }

  lemma LineIntersectionPixels(a: Line, b: Line)
    ensures LinePixels(a) * LinePixels(b) ==
            match LineIntersection(a, b) case None => {} case Some(c) => LinePixels(c)
  {
  }

  /** The computed intersection covers exactly the common pixels; None means there are none. */
  lemma IntersectionPixels(a: Rect, b: Rect)
    ensures Pixels(a) * Pixels(b) ==
            match RectIntersection(a, b) case None => {} case Some(c) => Pixels(c)
    ensures RectIntersection(a, b).None? <==> Pixels(a) !! Pixels(b)
  {
    LineIntersectionPixels(a.xline, b.xline);
    LineIntersectionPixels(a.yline, b.yline);
    var common := Pixels(a) * Pixels(b);
    forall p | p in common
      ensures p.0 in LinePixels(a.xline) * LinePixels(b.xline) && p.1 in LinePixels(a.yline) * LinePixels(b.yline)
    {
    }
    match RectIntersection(a, b) {
      case None => assert common == {};
      case Some(c) =>
        assert common == Pixels(c);
        AreaCountsPixels(c);
    }
  }

  lemma AreaBounds(a: Rect, b: Rect)
    ensures Area(a) > 0 && Area(b) > 0
    ensures match RectIntersection(a, b)
            case None => true
            case Some(c) => 0 < Area(c) <= Area(a) && Area(c) <= Area(b)
  {
    AreaCountsPixels(a);
    AreaCountsPixels(b);
    IntersectionPixels(a, b);
    match RectIntersection(a, b)
    case None =>
    case Some(c) =>
      AreaCountsPixels(c);
      SubsetCount(Pixels(c), Pixels(a));
      SubsetCount(Pixels(c), Pixels(b));
  }

  lemma {:induction false} SubsetCount<T>(small: set<T>, big: set<T>)
    requires small <= big
    ensures |small| <= |big|
    ensures |small| == |big| <==> small == big
  {
    assert big == small + (big - small);
  }

  /** A rectangle is determined by its pixels. */
  lemma PixelsDetermineRect(a: Rect, b: Rect)
    requires Pixels(a) == Pixels(b)
    ensures a == b
  {
    assert (a.xline.low, a.yline.low) in Pixels(b) && (a.xline.high, a.yline.high) in Pixels(b);
    assert (b.xline.low, b.yline.low) in Pixels(a) && (b.xline.high, b.yline.high) in Pixels(a);
  }

  // ------------------------------------------------------------------ the two overlap measures

  /** IoU is common pixels over covered pixels. */
  lemma IouIsPixelRatio(a: Rect, b: Rect)
    ensures Pixels(a) + Pixels(b) != {}
    ensures RectIou(a, b) == |Pixels(a) * Pixels(b)| as real / |Pixels(a) + Pixels(b)| as real
  {
    hide Pixels, Area, RectIntersection;
    AreaCountsPixels(a);
    AreaCountsPixels(b);
    IntersectionPixels(a, b);
    var common, cover := Pixels(a) * Pixels(b), Pixels(a) + Pixels(b);
    assert cover != {};
    assert |cover| == |Pixels(a)| + |Pixels(b)| - |common|;
    match RectIntersection(a, b)
    case None =>
    case Some(c) => AreaCountsPixels(c);
  }

  /** IoS is common pixels over the pixels of the smaller rectangle. */
  lemma IosIsPixelRatio(a: Rect, b: Rect)
    ensures var small := if |Pixels(a)| < |Pixels(b)| then |Pixels(a)| else |Pixels(b)|;
            small > 0 && RectIos(a, b) == |Pixels(a) * Pixels(b)| as real / small as real
  {
    AreaCountsPixels(a);
    AreaCountsPixels(b);
    IntersectionPixels(a, b);
    match RectIntersection(a, b)
    case None =>
    case Some(c) => AreaCountsPixels(c);
  }

  lemma RatioBounds(n: int, d: int)
    requires 0 <= n <= d && 0 < d
    ensures 0.0 <= n as real / d as real <= 1.0
    ensures n as real / d as real == 1.0 <==> n == d
    ensures n as real / d as real == 0.0 <==> n == 0
  {
    var q := n as real / d as real;
    assert q * d as real == n as real;
  }

  /** A quotient does not shrink when its positive denominator does. */
  lemma RatioMonotone(n: int, small: int, big: int)
    requires 0 <= n && 0 < small <= big
    ensures n as real / big as real <= n as real / small as real
  {
    var p, q := n as real / big as real, n as real / small as real;
    assert p * big as real == n as real == q * small as real;
    assert p * (big - small) as real >= 0.0;
    assert (q - p) * small as real >= 0.0;
  }

  lemma IouSymmetric(a: Rect, b: Rect)
    ensures RectIou(a, b) == RectIou(b, a)
  {
    IouIsPixelRatio(a, b);
    IouIsPixelRatio(b, a);
    assert Pixels(a) * Pixels(b) == Pixels(b) * Pixels(a);
    assert Pixels(a) + Pixels(b) == Pixels(b) + Pixels(a);
  }

  lemma IouRange(a: Rect, b: Rect)
    ensures 0.0 <= RectIou(a, b) <= 1.0
    ensures RectIou(a, b) == 1.0 <==> Pixels(a) == Pixels(b)
    ensures RectIou(a, b) == 0.0 <==> Pixels(a) !! Pixels(b)
  {
    IouIsPixelRatio(a, b);
    SetRatio(Pixels(a), Pixels(b));
  }

  lemma SetRatio<T>(a: set<T>, b: set<T>)
    requires a + b != {}
    ensures |a + b| > 0
    ensures var q := |a * b| as real / |a + b| as real;
            0.0 <= q <= 1.0 && (q == 1.0 <==> a == b) && (q == 0.0 <==> a !! b)
  {
    SubsetCount(a * b, a + b);
    RatioBounds(|a * b|, |a + b|);
    if a == b { assert a * b == a + b; }
    if a * b == a + b { assert a <= a * b && b <= a * b; }
    if |a * b| > 0 {
      var x := Member(a * b);
      assert x in a && x in b;
    } else {
      assert forall x :: x in a && x in b ==> x in a * b;
    }
  }

  /** IoU is symmetric, lies in [0, 1], is 0 exactly for disjoint and 1 exactly for equal rectangles. */
  lemma IouLaws(a: Rect, b: Rect)
    ensures RectIou(a, b) == RectIou(b, a)
    ensures 0.0 <= RectIou(a, b) <= 1.0
    ensures RectIou(a, b) == 0.0 <==> Pixels(a) !! Pixels(b)
    ensures RectIou(a, b) == 1.0 <==> a == b
  {
    IouSymmetric(a, b);
    IouRange(a, b);
    if Pixels(a) == Pixels(b) { PixelsDetermineRect(a, b); }
  }

  /** IoS is symmetric, at least IoU, at most 1, and 1 exactly when the smaller rectangle lies in the other. */
  lemma IosLaws(a: Rect, b: Rect)
    ensures RectIos(a, b) == RectIos(b, a)
    ensures RectIou(a, b) <= RectIos(a, b) <= 1.0
    ensures RectIos(a, b) == 1.0 <==> Pixels(a) <= Pixels(b) || Pixels(b) <= Pixels(a)
  {
    hide Pixels, RectIou, RectIos;
    IouIsPixelRatio(a, b);
    IosIsPixelRatio(a, b);
    IosIsPixelRatio(b, a);
    var common, cover := Pixels(a) * Pixels(b), Pixels(a) + Pixels(b);
    assert common == Pixels(b) * Pixels(a);
    SubsetCount(common, Pixels(a));
    SubsetCount(common, Pixels(b));
    SubsetCount(Pixels(a), cover);
    SubsetCount(Pixels(b), cover);
    var small := if |Pixels(a)| < |Pixels(b)| then |Pixels(a)| else |Pixels(b)|;
    RatioBounds(|common|, small);
    RatioMonotone(|common|, small, |cover|);
    if Pixels(a) <= Pixels(b) { SubsetCount(Pixels(a), Pixels(b)); assert common == Pixels(a); }
    if Pixels(b) <= Pixels(a) { SubsetCount(Pixels(b), Pixels(a)); assert common == Pixels(b); }
  }
}
