/**
 * Greedy suppression of overlapping boxes (tfutils.py) over x-sorted boxes (boundbox.py).
 * The filter walks the list with two indices and pops boxes from the list it walks. The
 * specification below runs the same walk on positions of the sorted input, so that equal boxes
 * stay distinguishable, and records which pivots finished their scan and which boxes were skipped.
 */
module BoxFilter {
  import opened Geometry

  datatype BBox = BBox(rect: Rect, conf: real, name: string, labelText: string)

  datatype Measure = IoU | IoS

  function Overlap(m: Measure, a: BBox, b: BBox): real {
    match m
    case IoU => RectIou(a.rect, b.rect)
    case IoS => RectIos(a.rect, b.rect)
  }

  /** `min([left, right], key)` returns the first of equal candidates, so ties fall on the left box. */
  predicate LeftIsVictim(left: BBox, right: BBox) {
    if left.conf == right.conf then Area(left.rect) <= Area(right.rect) else left.conf <= right.conf
  }

  /** Lexicographic order on (conf, area). */
  predicate KeyAtMost(a: BBox, b: BBox) {
    a.conf < b.conf || (a.conf == b.conf && Area(a.rect) <= Area(b.rect))
  }

  lemma OverlapSymmetric(m: Measure, a: BBox, b: BBox)
    ensures Overlap(m, a, b) == Overlap(m, b, a)
  {
    IouLaws(a.rect, b.rect);
    IosLaws(a.rect, b.rect);
  }

  // ------------------------------------------------------------------ the stable sort by left edge

  function Insert(sorted: seq<BBox>, x: BBox): seq<BBox> {
    var n := |sorted|;
    if n == 0 || sorted[n - 1].rect.xline.low <= x.rect.xline.low then sorted + [x]
    else Insert(sorted[..n - 1], x) + [sorted[n - 1]]
  }

  /** list.sort with BBox.xcmp: ascending left edge, equal edges in their original order. */
  function SortByX(s: seq<BBox>): seq<BBox> {
    if s == [] then [] else Insert(SortByX(s[..|s| - 1]), s[|s| - 1])
  }

  predicate XSorted(s: seq<BBox>) {
    forall i, j :: 0 <= i < j < |s| ==> s[i].rect.xline.low <= s[j].rect.xline.low
  }

  /** The boxes with left edge x, in order. */
  function AtEdge(s: seq<BBox>, x: int): seq<BBox> {
    if s == [] then []
    else AtEdge(s[..|s| - 1], x) + (if s[|s| - 1].rect.xline.low == x then [s[|s| - 1]] else [])
  }

  lemma {:induction false} InsertPermutes(s: seq<BBox>, x: BBox)
    ensures multiset(Insert(s, x)) == multiset(s) + multiset{x}
  {
    var n := |s|;
    if n != 0 && s[n - 1].rect.xline.low > x.rect.xline.low {
      InsertPermutes(s[..n - 1], x);
      assert s == s[..n - 1] + [s[n - 1]];
    }
  }

  lemma {:induction false} InsertSorted(s: seq<BBox>, x: BBox)
    requires XSorted(s)
    ensures XSorted(Insert(s, x))
  {
    var n := |s|;
    if n != 0 && s[n - 1].rect.xline.low > x.rect.xline.low {
      var t := Insert(s[..n - 1], x);
      InsertSorted(s[..n - 1], x);
      InsertPermutes(s[..n - 1], x);
      forall i | 0 <= i < |t| ensures t[i].rect.xline.low <= s[n - 1].rect.xline.low {
        assert t[i] in multiset(t);
        assert t[i] == x || t[i] in s[..n - 1];
      }
    }
  }

  lemma AtEdgeAppend(s: seq<BBox>, x: BBox, edge: int)
    ensures AtEdge(s + [x], edge) == AtEdge(s, edge) + (if x.rect.xline.low == edge then [x] else [])
  {
    assert (s + [x])[..|s|] == s;
  }

  lemma {:induction false} InsertStable(s: seq<BBox>, x: BBox, edge: int)
    ensures AtEdge(Insert(s, x), edge) == AtEdge(s + [x], edge)
  {
    var n := |s|;
    if n != 0 && s[n - 1].rect.xline.low > x.rect.xline.low {
      var init, last := s[..n - 1], s[n - 1];
      InsertStable(init, x, edge);
      AtEdgeAppend(Insert(init, x), last, edge);
      AtEdgeAppend(init, x, edge);
      AtEdgeAppend(s, x, edge);
    }
  }

  /** The sort yields the one sorted, stable permutation of its input. */
  lemma {:induction false} SortSpec(s: seq<BBox>, edge: int)
    ensures XSorted(SortByX(s))
    ensures multiset(SortByX(s)) == multiset(s)
    ensures AtEdge(SortByX(s), edge) == AtEdge(s, edge)
  {
    hide Insert, XSorted;
    if s == [] {
      EmptyIsSorted();
    } else {
      var init, last := s[..|s| - 1], s[|s| - 1];
      var sorted := SortByX(init);
      SortSpec(init, edge);
      InsertPermutes(sorted, last);
      InsertSorted(sorted, last);
      InsertStable(sorted, last, edge);
      AtEdgeAppend(sorted, last, edge);
      assert s == init + [last];
    }
  }

  lemma EmptyIsSorted()
    ensures XSorted([])
  {
  }

  lemma {:induction false} SortOfSorted(s: seq<BBox>)
    requires XSorted(s)
    ensures SortByX(s) == s
  {
    if s != [] {
      var init, last := s[..|s| - 1], s[|s| - 1];
      SortOfSorted(init);
      InsertLast(init, last);
      assert s == init + [last];
    }
  }

  lemma InsertLast(s: seq<BBox>, x: BBox)
    requires s != [] ==> s[|s| - 1].rect.xline.low <= x.rect.xline.low
    ensures Insert(s, x) == s + [x]
  {
  }

  lemma {:induction false} AtEdgeMember(s: seq<BBox>, edge: int)
    ensures AtEdge(s, edge) != [] <==> exists i :: 0 <= i < |s| && s[i].rect.xline.low == edge
  {
    if s != [] { AtEdgeMember(s[..|s| - 1], edge); }
  }

  ghost predicate SameAtEdges(s: seq<BBox>, u: seq<BBox>) {
    forall edge :: AtEdge(s, edge) == AtEdge(u, edge)
  }

  lemma RightmostEdge(s: seq<BBox>, u: seq<BBox>)
    requires XSorted(s) && XSorted(u) && SameAtEdges(s, u) && s != []
    ensures u != [] && s[|s| - 1].rect.xline.low <= u[|u| - 1].rect.xline.low
  {
    var edge := s[|s| - 1].rect.xline.low;
    AtEdgeMember(s, edge);
    AtEdgeMember(u, edge);
  }

  /** A sorted list is determined by its boxes at each edge; so every stable sort gives the same. */
  lemma {:induction false} StableSortIsUnique(s: seq<BBox>, u: seq<BBox>)
    requires XSorted(s) && XSorted(u) && SameAtEdges(s, u)
    ensures s == u
    decreases |s|
  {
    if s == [] {
      if u != [] { RightmostEdge(u, s); }
    } else {
      RightmostEdge(s, u);
      RightmostEdge(u, s);
      var init, init', x, y := s[..|s| - 1], u[..|u| - 1], s[|s| - 1], u[|u| - 1];
      assert s == init + [x] && u == init' + [y];
      LastAtEdge(init, x, init', y);
      StableSortIsUnique(init, init');
    }
  }

  lemma LastAtEdge(s: seq<BBox>, x: BBox, u: seq<BBox>, y: BBox)
    requires SameAtEdges(s + [x], u + [y]) && x.rect.xline.low == y.rect.xline.low
    ensures x == y && SameAtEdges(s, u)
  {
    forall edge ensures AtEdge(s, edge) == AtEdge(u, edge) && (edge == x.rect.xline.low ==> x == y) {
      AtEdgeAppend(s, x, edge);
      AtEdgeAppend(u, y, edge);
      assert AtEdge(s + [x], edge) == AtEdge(u + [y], edge);
      assert AtEdge(s, edge) + [] == AtEdge(s, edge) && AtEdge(u, edge) + [] == AtEdge(u, edge);
      if edge == x.rect.xline.low { SameLast(AtEdge(s, edge), x, AtEdge(u, edge), y); }
    }
    assert AtEdge(s, x.rect.xline.low) == AtEdge(u, x.rect.xline.low);
  }

  lemma SameLast(s: seq<BBox>, x: BBox, u: seq<BBox>, y: BBox)
    requires s + [x] == u + [y]
    ensures s == u && x == y
  {
    assert |s + [x]| == |u + [y]|;
    assert s == (s + [x])[..|s|] && x == (s + [x])[|s|];
    assert u == (u + [y])[..|u|] && y == (u + [y])[|u|];
  }

  // ------------------------------------------------------------------ the walk

  /** kept: the survivors; scanned: pivots compared with every later box; skipped: boxes never made pivot. */
  datatype Trace = Trace(kept: seq<nat>, scanned: set<nat>, skipped: set<nat>)

  function Remove<T>(s: seq<T>, k: nat): seq<T>
    requires k < |s|
  {
    s[..k] + s[k + 1..]
  }

  predicate Positions(b: seq<BBox>, live: seq<nat>) {
    && (forall p :: 0 <= p < |live| ==> live[p] < |b|)
    && (forall p, q :: 0 <= p < q < |live| ==> live[p] < live[q])
  }

  lemma RemovePositions(b: seq<BBox>, live: seq<nat>, k: nat)
    requires Positions(b, live) && k < |live|
    ensures Positions(b, Remove(live, k))
  {
  }

  /** The inner loop: the live positions after it, and whether the pivot itself was popped. */
  function Scan(b: seq<BBox>, m: Measure, t: real, live: seq<nat>, l: nat, r: nat): (out: (seq<nat>, bool))
    requires Positions(b, live) && l < r <= |live|
    ensures Positions(b, out.0) && l < |out.0| <= |live|
    ensures out.1 ==> |out.0| < |live|
    decreases |live| - r
  {
    if r == |live| then (live, false)
    else if Overlap(m, b[live[l]], b[live[r]]) < t then Scan(b, m, t, live, l, r + 1)
    else if LeftIsVictim(b[live[l]], b[live[r]]) then (Remove(live, l), true)
    else Scan(b, m, t, Remove(live, r), l, r)
  }

  /** The outer loop. A popped pivot lets the next box slide into its slot, which is then stepped over. */
  function Walk(b: seq<BBox>, m: Measure, t: real, live: seq<nat>, l: nat, scanned: set<nat>, skipped: set<nat>): Trace
    requires Positions(b, live)
    decreases |live| - l
  {
    if l + 1 >= |live| then Trace(live, scanned, skipped)
    else
      var (after, popped) := Scan(b, m, t, live, l, l + 1);
      if !popped then Walk(b, m, t, after, l + 1, scanned + {after[l]}, skipped)
      else Walk(b, m, t, after, l + 1, scanned, skipped + {after[l]})
  }

  function All(n: nat): (s: seq<nat>)
    ensures |s| == n && forall i :: 0 <= i < n ==> s[i] == i
  {
    seq(n, i => i)
  }

  function Suppress(b: seq<BBox>, m: Measure, t: real): Trace {
    Walk(b, m, t, All(|b|), 0, {}, {})
  }

  function Select(b: seq<BBox>, live: seq<nat>): (s: seq<BBox>)
    requires Positions(b, live)
    ensures |s| == |live| && forall p :: 0 <= p < |live| ==> s[p] == b[live[p]]
  {
    seq(|live|, p requires 0 <= p < |live| => b[live[p]])
  }

  lemma {:induction false} WalkPositions(b: seq<BBox>, m: Measure, t: real, live: seq<nat>, l: nat,
                                         scanned: set<nat>, skipped: set<nat>)
    requires Positions(b, live)
    ensures Positions(b, Walk(b, m, t, live, l, scanned, skipped).kept)
    decreases |live| - l
  {
    if l + 1 < |live| {
      var (after, popped) := Scan(b, m, t, live, l, l + 1);
      if !popped { WalkPositions(b, m, t, after, l + 1, scanned + {after[l]}, skipped); }
      else { WalkPositions(b, m, t, after, l + 1, scanned, skipped + {after[l]}); }
    }
  }

  /** What the filter returns: the survivors of the walk over the sorted boxes. */
  function Filter(bboxes: seq<BBox>, m: Measure, t: real): seq<BBox> {
    var sorted := SortByX(bboxes);
    WalkPositions(sorted, m, t, All(|sorted|), 0, {}, {});
    Select(sorted, Suppress(sorted, m, t).kept)
  }

  // ------------------------------------------------------------------ the two filters

  lemma SelectRemove(b: seq<BBox>, live: seq<nat>, k: nat)
    requires Positions(b, live) && k < |live|
    ensures Positions(b, Remove(live, k))
    ensures Select(b, Remove(live, k)) == Remove(Select(b, live), k)
  {
  }

  /** The inner loop: compare the pivot with the boxes to its right until it is popped or they are used up. */
  method ScanPivot(bboxes: seq<BBox>, m: Measure, threshold: real, leftIdx: nat,
                   ghost sorted: seq<BBox>, ghost live: seq<nat>)
    returns (boxes: seq<BBox>)
    requires Positions(sorted, live) && bboxes == Select(sorted, live)
    requires leftIdx + 1 < |bboxes|
    ensures boxes == Select(sorted, Scan(sorted, m, threshold, live, leftIdx, leftIdx + 1).0)
  {
    boxes := bboxes;
    var rightIdx := leftIdx + 1;
    ghost var now := live;
    while rightIdx < |boxes|
      invariant Positions(sorted, now) && boxes == Select(sorted, now)
      invariant leftIdx < rightIdx <= |boxes|
      invariant Scan(sorted, m, threshold, now, leftIdx, rightIdx)
                == Scan(sorted, m, threshold, live, leftIdx, leftIdx + 1)
      decreases |boxes| - rightIdx
    {
      var left, right := boxes[leftIdx], boxes[rightIdx];
      if Overlap(m, left, right) < threshold {
        rightIdx := rightIdx + 1;
        continue;
      }
      if LeftIsVictim(left, right) {
        SelectRemove(sorted, now, leftIdx);
        boxes := boxes[..leftIdx] + boxes[leftIdx + 1..];
        return;
      }
      SelectRemove(sorted, now, rightIdx);
      boxes := boxes[..rightIdx] + boxes[rightIdx + 1..];
      now := Remove(now, rightIdx);
    }
  }

  method FilterBoxes(bboxes: seq<BBox>, m: Measure, threshold: real) returns (boxes: seq<BBox>)
    ensures boxes == Filter(bboxes, m, threshold)
  {
    boxes := SortByX(bboxes);
    ghost var sorted := boxes;
    ghost var live, scanned, skipped := All(|sorted|), {}, {};
    var leftIdx := 0;
    while leftIdx + 1 < |boxes|
      invariant Positions(sorted, live) && boxes == Select(sorted, live)
      invariant Walk(sorted, m, threshold, live, leftIdx, scanned, skipped) == Suppress(sorted, m, threshold)
      decreases |boxes| - leftIdx
    {
      ghost var (after, popped) := Scan(sorted, m, threshold, live, leftIdx, leftIdx + 1);
      boxes := ScanPivot(boxes, m, threshold, leftIdx, sorted, live);
      live := after;
      if popped { skipped := skipped + {after[leftIdx]}; } else { scanned := scanned + {after[leftIdx]}; }
      leftIdx := leftIdx + 1;
    }
  }

  method FilterBboxIou(bboxes: seq<BBox>, iouThreshold: real) returns (boxes: seq<BBox>)
    ensures boxes == Filter(bboxes, IoU, iouThreshold)
  {
    boxes := FilterBoxes(bboxes, IoU, iouThreshold);
  }

  method FilterBboxIos(bboxes: seq<BBox>, iosThreshold: real) returns (boxes: seq<BBox>)
    ensures boxes == Filter(bboxes, IoS, iosThreshold)
  {
    boxes := FilterBoxes(bboxes, IoS, iosThreshold);
  }
}
