/** What the two filters promise, measured in pixels. */
module FilterGuarantees {
  import opened Wrappers
  import opened Geometry
  import opened BoxFilter
  import opened BoxFilterProofs

  /** Common pixels over covered pixels. */
  ghost function PixelIou(a: Rect, b: Rect): real {
    IouIsPixelRatio(a, b);
    |Pixels(a) * Pixels(b)| as real / |Pixels(a) + Pixels(b)| as real
  }

  ghost function Fewer(a: Rect, b: Rect): (n: nat)
    ensures n > 0
  {
    AreaCountsPixels(a);
    AreaCountsPixels(b);
    if |Pixels(a)| < |Pixels(b)| then |Pixels(a)| else |Pixels(b)|
  }

  /** Common pixels over the pixels of the smaller rectangle. */
  ghost function PixelIos(a: Rect, b: Rect): real {
    |Pixels(a) * Pixels(b)| as real / Fewer(a, b) as real
  }

  ghost function PixelRatio(m: Measure, a: BBox, b: BBox): real {
    if m == IoU then PixelIou(a.rect, b.rect) else PixelIos(a.rect, b.rect)
  }

  /** Lexicographic order on confidence and number of pixels. */
  ghost predicate RanksAtMost(a: BBox, b: BBox) {
    a.conf < b.conf || (a.conf == b.conf && |Pixels(a.rect)| <= |Pixels(b.rect)|)
  }

  lemma OverlapIsPixelRatio(m: Measure, a: BBox, b: BBox)
    ensures Overlap(m, a, b) == PixelRatio(m, a, b)
  {
    IouIsPixelRatio(a.rect, b.rect);
    IosIsPixelRatio(a.rect, b.rect);
  }

  lemma RanksInPixels(a: BBox, b: BBox)
    ensures KeyAtMost(a, b) <==> RanksAtMost(a, b)
    ensures LeftIsVictim(a, b) <==> RanksAtMost(a, b)
  {
    hide Pixels;
    AreaCountsPixels(a.rect);
    AreaCountsPixels(b.rect);
  }

  // ------------------------------------------------------------------ two boxes

  /** The given order, or the other one when the second box starts further left. */
  function InXOrder(a: BBox, c: BBox): (BBox, BBox) {
    if c.rect.xline.low < a.rect.xline.low then (c, a) else (a, c)
  }

  lemma TwoSorted(a: BBox, c: BBox)
    ensures SortByX([a, c]) == [InXOrder(a, c).0, InXOrder(a, c).1]
  {
    assert [a, c][..1] == [a] && [a][..0] == [] && [a][..0] + [c] == [c];
    assert SortByX([a]) == [a];
    if c.rect.xline.low < a.rect.xline.low { assert Insert([a], c) == Insert([], c) + [a]; }
  }

  lemma TwoBoxes(m: Measure, a: BBox, c: BBox, t: real)
    ensures var (left, right) := InXOrder(a, c);
            Filter([a, c], m, t)
            == if Overlap(m, left, right) < t then [left, right]
               else if LeftIsVictim(left, right) then [right] else [left]
  {
    hide Overlap, LeftIsVictim, SortByX;
    TwoSorted(a, c);
    var b := SortByX([a, c]);
    var live := All(2);
    assert live == [0, 1];
    assert Remove(live, 0) == [1] && Remove(live, 1) == [0];
    assert Scan(b, m, t, live, 0, 1) == if Overlap(m, b[0], b[1]) < t then (live, false)
                                        else if LeftIsVictim(b[0], b[1]) then ([1], true) else ([0], false);
  }

  /** IoU filter, two boxes: both stay exactly below t; otherwise the one of higher rank, on a tie the right one. */
  lemma TwoBoxesIou(a: BBox, c: BBox, t: real)
    ensures var (left, right) := InXOrder(a, c);
            Filter([a, c], IoU, t)
            == if PixelIou(a.rect, c.rect) < t then [left, right]
               else if RanksAtMost(left, right) then [right] else [left]
  {
    hide Filter, Overlap, LeftIsVictim, Pixels;
    var (left, right) := InXOrder(a, c);
    TwoBoxes(IoU, a, c, t);
    OverlapSymmetric(IoU, a, c);
    OverlapIsPixelRatio(IoU, a, c);
    RanksInPixels(left, right);
  }

  /** The same for the IoS filter. */
  lemma TwoBoxesIos(a: BBox, c: BBox, t: real)
    ensures var (left, right) := InXOrder(a, c);
            Filter([a, c], IoS, t)
            == if PixelIos(a.rect, c.rect) < t then [left, right]
               else if RanksAtMost(left, right) then [right] else [left]
  {
    hide Filter, Overlap, LeftIsVictim, Pixels;
    var (left, right) := InXOrder(a, c);
    TwoBoxes(IoS, a, c, t);
    OverlapSymmetric(IoS, a, c);
    OverlapIsPixelRatio(IoS, a, c);
    RanksInPixels(left, right);
  }

  /** So the two filters differ: a pixel in a row of ten is kept apart by IoU at one half, and swallowed by IoS. */
  lemma FiltersDiffer(low: real, high: real, name: string, text: string)
    requires low < high
    ensures var dot := BBox(Rect(Interval(0, 0), Interval(0, 0)), high, name, text);
            var row := BBox(Rect(Interval(0, 9), Interval(0, 0)), low, name, text);
            Filter([dot, row], IoU, 0.5) == [dot, row] && Filter([dot, row], IoS, 0.5) == [dot]
  {
    hide Filter, RectIou, RectIos;
    var dot := BBox(Rect(Interval(0, 0), Interval(0, 0)), high, name, text);
    var row := BBox(Rect(Interval(0, 9), Interval(0, 0)), low, name, text);
    TwoBoxes(IoU, dot, row, 0.5);
    TwoBoxes(IoS, dot, row, 0.5);
    DotInRow();
  }

  lemma DotInRow()
    ensures var dot, row := Rect(Interval(0, 0), Interval(0, 0)), Rect(Interval(0, 9), Interval(0, 0));
            RectIou(dot, row) < 0.5 && RectIos(dot, row) == 1.0
  {
    hide Pixels;
    var dot, row := Rect(Interval(0, 0), Interval(0, 0)), Rect(Interval(0, 9), Interval(0, 0));
    assert Area(dot) == 1 && Area(row) == 10 && RectIntersection(dot, row) == Some(dot);
  }

  // ------------------------------------------------------------------ any number of boxes

  /** a and b overlap in pixels at or above the threshold, and b ranks at least as high. */
  ghost predicate PixelLink(m: Measure, t: real, a: BBox, b: BBox) {
    PixelRatio(m, a, b) >= t && RanksAtMost(a, b)
  }

  lemma Dominates(m: Measure, bboxes: seq<BBox>, t: real, x: BBox) returns (path: seq<BBox>)
    requires x in bboxes
    ensures path != [] && path[0] == x && path[|path| - 1] in Filter(bboxes, m, t)
    ensures forall k :: 0 <= k < |path| ==> path[k] in bboxes
    ensures forall k :: 0 <= k < |path| - 1 ==> PixelLink(m, t, path[k], path[k + 1])
  {
    hide Filter, Overlap, KeyAtMost, LeftIsVictim, PixelRatio, RanksAtMost;
    path := FilterDominates(bboxes, m, t, x);
    forall k | 0 <= k < |path| - 1 ensures PixelLink(m, t, path[k], path[k + 1]) {
      assert Link(m, t, path[k], path[k + 1]);
      OverlapIsPixelRatio(m, path[k], path[k + 1]);
      RanksInPixels(path[k], path[k + 1]);
    }
  }

  /** IoU filter: a chain of given boxes, rising in rank and overlapping, leads from each given box to one returned. */
  lemma IouDominates(bboxes: seq<BBox>, t: real, x: BBox) returns (path: seq<BBox>)
    requires x in bboxes
    ensures path != [] && path[0] == x && path[|path| - 1] in Filter(bboxes, IoU, t)
    ensures forall k :: 0 <= k < |path| ==> path[k] in bboxes
    ensures forall k :: 0 <= k < |path| - 1 ==>
                          PixelIou(path[k].rect, path[k + 1].rect) >= t && RanksAtMost(path[k], path[k + 1])
  {
    hide Filter, PixelIou, PixelIos, RanksAtMost;
    path := Dominates(IoU, bboxes, t, x);
    assert forall k :: 0 <= k < |path| - 1 ==> PixelLink(IoU, t, path[k], path[k + 1]);
  }

  /** The same for the IoS filter. */
  lemma IosDominates(bboxes: seq<BBox>, t: real, x: BBox) returns (path: seq<BBox>)
    requires x in bboxes
    ensures path != [] && path[0] == x && path[|path| - 1] in Filter(bboxes, IoS, t)
    ensures forall k :: 0 <= k < |path| ==> path[k] in bboxes
    ensures forall k :: 0 <= k < |path| - 1 ==>
                          PixelIos(path[k].rect, path[k + 1].rect) >= t && RanksAtMost(path[k], path[k + 1])
  {
    hide Filter, PixelIou, PixelIos, RanksAtMost;
    path := Dominates(IoS, bboxes, t, x);
    assert forall k :: 0 <= k < |path| - 1 ==> PixelLink(IoS, t, path[k], path[k + 1]);
  }

  /** Left of two boxes that overlap, one overlaps a later box that ranks at least as high. */
  ghost predicate PixelRisk(m: Measure, t: real, b: seq<BBox>) {
    exists v: nat, w: nat, x: nat, y: nat ::
      v < w < |b| && v < x < y < |b| && PixelLink(m, t, b[v], b[w]) && PixelRatio(m, b[x], b[y]) >= t
  }

  lemma RiskAt(m: Measure, t: real, b: seq<BBox>, v: nat, w: nat, x: nat, y: nat)
    requires v < w < |b| && v < x < y < |b|
    requires Overlap(m, b[v], b[w]) >= t && LeftIsVictim(b[v], b[w]) && Overlap(m, b[x], b[y]) >= t
    ensures PixelRisk(m, t, b)
  {
    hide Overlap, KeyAtMost, LeftIsVictim, PixelRatio, RanksAtMost;
    OverlapIsPixelRatio(m, b[x], b[y]);
    OverlapIsPixelRatio(m, b[v], b[w]);
    RanksInPixels(b[v], b[w]);
    assert PixelLink(m, t, b[v], b[w]);
  }

  lemma RiskInPixels(m: Measure, t: real, b: seq<BBox>)
    requires Risky(b, m, t)
    ensures PixelRisk(m, t, b)
  {
    hide Overlap, LeftIsVictim, PixelRisk;
    var v: nat, x: nat, y: nat :| v < x < y < |b| && Poppable(b, m, t, v) && Overlap(m, b[x], b[y]) >= t;
    var w: nat :| v < w < |b| && Overlap(m, b[v], b[w]) >= t && LeftIsVictim(b[v], b[w]);
    RiskAt(m, t, b, v, w, x, y);
  }

  /** IoU filter: the returned boxes are pairwise below t in IoU, unless the given ones, in x order, are at risk. */
  lemma IouSeparatedUnlessRisky(bboxes: seq<BBox>, t: real)
    ensures var s := Filter(bboxes, IoU, t);
            (forall i, j :: 0 <= i < j < |s| ==> PixelIou(s[i].rect, s[j].rect) < t)
            || PixelRisk(IoU, t, SortByX(bboxes))
  {
    hide Filter, Overlap, SortByX, PixelIou, PixelIos, Risky, PixelRisk;
    FilterSeparatedUnlessRisky(bboxes, IoU, t);
    if Risky(SortByX(bboxes), IoU, t) { RiskInPixels(IoU, t, SortByX(bboxes)); }
    var s := Filter(bboxes, IoU, t);
    if SeparatedBoxes(s, IoU, t) {
      forall i, j | 0 <= i < j < |s| ensures PixelIou(s[i].rect, s[j].rect) < t {
        OverlapIsPixelRatio(IoU, s[i], s[j]);
      }
    }
  }

  /** The same for the IoS filter. */
  lemma IosSeparatedUnlessRisky(bboxes: seq<BBox>, t: real)
    ensures var s := Filter(bboxes, IoS, t);
            (forall i, j :: 0 <= i < j < |s| ==> PixelIos(s[i].rect, s[j].rect) < t)
            || PixelRisk(IoS, t, SortByX(bboxes))
  {
    hide Filter, Overlap, SortByX, PixelIou, PixelIos, Risky, PixelRisk;
    FilterSeparatedUnlessRisky(bboxes, IoS, t);
    if Risky(SortByX(bboxes), IoS, t) { RiskInPixels(IoS, t, SortByX(bboxes)); }
    var s := Filter(bboxes, IoS, t);
    if SeparatedBoxes(s, IoS, t) {
      forall i, j | 0 <= i < j < |s| ensures PixelIos(s[i].rect, s[j].rect) < t {
        OverlapIsPixelRatio(IoS, s[i], s[j]);
      }
    }
  }
}
