/** What greedy suppression guarantees, for every list of boxes, measure and threshold. */
module BoxFilterProofs {
  import opened Geometry
  import opened BoxFilter

  // ------------------------------------------------------------------ domination

  /** a was at some point discarded in favour of b: they overlap and b's (conf, area) is at least a's. */
  predicate Link(m: Measure, t: real, a: BBox, b: BBox) {
    Overlap(m, a, b) >= t && KeyAtMost(a, b)
  }

  predicate Chain(b: seq<BBox>, m: Measure, t: real, path: seq<nat>) {
    && path != []
    && (forall k :: 0 <= k < |path| ==> path[k] < |b|)
    && (forall k :: 0 <= k < |path| - 1 ==> Link(m, t, b[path[k]], b[path[k + 1]]))
  }

  ghost predicate Leads(b: seq<BBox>, m: Measure, t: real, i: nat, j: nat) {
    exists path :: Chain(b, m, t, path) && path[0] == i && path[|path| - 1] == j
  }

  /** From every box of the input a chain leads to a box that is still there. */
  ghost predicate Dominated(b: seq<BBox>, m: Measure, t: real, live: seq<nat>) {
    forall i: nat :: i < |b| ==> LeadsInto(b, m, t, i, live)
  }

  ghost predicate LeadsInto(b: seq<BBox>, m: Measure, t: real, i: nat, live: seq<nat>) {
    exists j :: j in live && Leads(b, m, t, i, j)
  }

  lemma LeadsFurther(b: seq<BBox>, m: Measure, t: real, i: nat, j: nat, k: nat)
    requires Leads(b, m, t, i, j) && j < |b| && k < |b| && Link(m, t, b[j], b[k])
    ensures Leads(b, m, t, i, k)
  {
    var path :| Chain(b, m, t, path) && path[0] == i && path[|path| - 1] == j;
    assert Chain(b, m, t, path + [k]);
  }

  lemma DominatedAfterRemove(b: seq<BBox>, m: Measure, t: real, live: seq<nat>, k: nat, w: nat)
    requires Positions(b, live) && Dominated(b, m, t, live)
    requires k < |live| && w < |live| && w != k && Link(m, t, b[live[k]], b[live[w]])
    ensures Positions(b, Remove(live, k)) && Dominated(b, m, t, Remove(live, k))
  {
    RemovePositions(b, live, k);
    var rest := Remove(live, k);
    assert forall p :: 0 <= p < |live| && p != k ==> live[p] == rest[if p < k then p else p - 1];
    assert live[w] in rest;
    forall i: nat | i < |b| ensures LeadsInto(b, m, t, i, rest) {
      assert LeadsInto(b, m, t, i, live);
      var j :| j in live && Leads(b, m, t, i, j);
      if j == live[k] {
        LeadsFurther(b, m, t, i, j, live[w]);
      } else {
        assert j in rest;
      }
    }
  }

  lemma {:induction false} ScanDominated(b: seq<BBox>, m: Measure, t: real, live: seq<nat>, l: nat, r: nat)
    requires Positions(b, live) && l < r <= |live| && Dominated(b, m, t, live)
    ensures Dominated(b, m, t, Scan(b, m, t, live, l, r).0)
    decreases |live| - r
  {
    if r < |live| {
      var left, right := b[live[l]], b[live[r]];
      if Overlap(m, left, right) < t {
        ScanDominated(b, m, t, live, l, r + 1);
      } else if LeftIsVictim(left, right) {
        DominatedAfterRemove(b, m, t, live, l, r);
      } else {
        OverlapSymmetric(m, left, right);
        DominatedAfterRemove(b, m, t, live, r, l);
        ScanDominated(b, m, t, Remove(live, r), l, r);
      }
    }
  }

  lemma {:induction false} WalkDominated(b: seq<BBox>, m: Measure, t: real, live: seq<nat>, l: nat,
                                         scanned: set<nat>, skipped: set<nat>)
    requires Positions(b, live) && Dominated(b, m, t, live)
    ensures Dominated(b, m, t, Walk(b, m, t, live, l, scanned, skipped).kept)
    decreases |live| - l
  {
    if l + 1 < |live| {
      ScanDominated(b, m, t, live, l, l + 1);
      var (after, popped) := Scan(b, m, t, live, l, l + 1);
      if !popped { WalkDominated(b, m, t, after, l + 1, scanned + {after[l]}, skipped); }
      else { WalkDominated(b, m, t, after, l + 1, scanned, skipped + {after[l]}); }
    }
  }

  /** Every input box is the start of a chain of overlapping boxes of ascending rank that ends in a survivor. */
  lemma SurvivorsDominate(b: seq<BBox>, m: Measure, t: real)
    ensures Dominated(b, m, t, Suppress(b, m, t).kept)
  {
    var live := All(|b|);
    forall i: nat | i < |b| ensures LeadsInto(b, m, t, i, live) {
      assert Chain(b, m, t, [i]);
      assert live[i] in live && Leads(b, m, t, i, live[i]);
    }
    WalkDominated(b, m, t, live, 0, {}, {});
  }

  lemma {:induction false} ChainAscends(b: seq<BBox>, m: Measure, t: real, path: seq<nat>)
    requires Chain(b, m, t, path)
    ensures KeyAtMost(b[path[0]], b[path[|path| - 1]])
  {
    if |path| > 1 {
      assert Link(m, t, b[path[0]], b[path[1]]);
      assert forall k :: 0 <= k < |path| - 1 ==> path[1..][k] == path[k + 1];
      ChainAscends(b, m, t, path[1..]);
    }
  }

  /** No input box outranks every survivor; a box that outranks all others survives itself. */
  lemma BestBoxSurvives(b: seq<BBox>, m: Measure, t: real, i: nat)
    requires i < |b|
    ensures var kept := Suppress(b, m, t).kept;
            Positions(b, kept) && exists j :: j in kept && KeyAtMost(b[i], b[j])
    ensures (forall k: nat :: k < |b| && k != i ==> !KeyAtMost(b[i], b[k])) ==> i in Suppress(b, m, t).kept
  {
    var kept := Suppress(b, m, t).kept;
    WalkPositions(b, m, t, All(|b|), 0, {}, {});
    SurvivorsDominate(b, m, t);
    assert LeadsInto(b, m, t, i, kept);
    var j :| j in kept && Leads(b, m, t, i, j);
    var path :| Chain(b, m, t, path) && path[0] == i && path[|path| - 1] == j;
    ChainAscends(b, m, t, path);
    assert KeyAtMost(b[i], b[j]);
  }

  lemma ChainToSurvivor(b: seq<BBox>, m: Measure, t: real, i: nat) returns (chain: seq<nat>)
    requires i < |b|
    ensures Chain(b, m, t, chain) && chain[0] == i && chain[|chain| - 1] in Suppress(b, m, t).kept
  {
    hide Walk;
    SurvivorsDominate(b, m, t);
    assert LeadsInto(b, m, t, i, Suppress(b, m, t).kept);
    var j :| j in Suppress(b, m, t).kept && Leads(b, m, t, i, j);
    chain :| Chain(b, m, t, chain) && chain[0] == i && chain[|chain| - 1] == j;
  }

  lemma ReturnsSurvivors(bboxes: seq<BBox>, m: Measure, t: real, j: nat)
    requires j in Suppress(SortByX(bboxes), m, t).kept
    ensures j < |SortByX(bboxes)| && SortByX(bboxes)[j] in Filter(bboxes, m, t)
  {
    hide Walk;
    var b := SortByX(bboxes);
    var kept := Suppress(b, m, t).kept;
    WalkPositions(b, m, t, All(|b|), 0, {}, {});
    var p :| 0 <= p < |kept| && kept[p] == j;
    assert Select(b, kept)[p] == b[j];
  }

  lemma SortKeepsMembers(bboxes: seq<BBox>, x: BBox)
    ensures x in SortByX(bboxes) <==> x in bboxes
  {
    SortSpec(bboxes, 0);
    assert x in multiset(SortByX(bboxes)) <==> x in multiset(bboxes);
  }

  /** The same for the filter and its input: a chain of given boxes leads from every given box to a returned one. */
  lemma FilterDominates(bboxes: seq<BBox>, m: Measure, t: real, x: BBox) returns (path: seq<BBox>)
    requires x in bboxes
    ensures path != [] && path[0] == x && path[|path| - 1] in Filter(bboxes, m, t)
    ensures forall k :: 0 <= k < |path| ==> path[k] in bboxes
    ensures forall k :: 0 <= k < |path| - 1 ==> Link(m, t, path[k], path[k + 1])
  {
    hide Suppress, SortByX, Filter, Link;
    var b := SortByX(bboxes);
    SortKeepsMembers(bboxes, x);
    var i :| 0 <= i < |b| && b[i] == x;
    var chain := ChainToSurvivor(b, m, t, i);
    ReturnsSurvivors(bboxes, m, t, chain[|chain| - 1]);
    path := seq(|chain|, k requires 0 <= k < |chain| => b[chain[k]]);
    forall k | 0 <= k < |path| ensures path[k] in bboxes { SortKeepsMembers(bboxes, path[k]); }
  }

  lemma {:induction false} PathAscends(m: Measure, t: real, path: seq<BBox>)
    requires path != [] && forall k :: 0 <= k < |path| - 1 ==> Link(m, t, path[k], path[k + 1])
    ensures KeyAtMost(path[0], path[|path| - 1])
  {
    if |path| > 1 {
      assert Link(m, t, path[0], path[1]);
      assert forall k :: 0 <= k < |path| - 1 ==> path[1..][k] == path[k + 1];
      PathAscends(m, t, path[1..]);
    }
  }

  /** No given box outranks every returned one; a box that outranks all other given boxes is returned. */
  lemma FilterKeepsBest(bboxes: seq<BBox>, m: Measure, t: real, x: BBox)
    requires x in bboxes
    ensures exists y :: y in Filter(bboxes, m, t) && y in bboxes && KeyAtMost(x, y)
    ensures (forall y :: y in bboxes && y != x ==> !KeyAtMost(x, y)) ==> x in Filter(bboxes, m, t)
  {
    hide Filter, Link, KeyAtMost;
    var path := FilterDominates(bboxes, m, t, x);
    PathAscends(m, t, path);
    var y := path[|path| - 1];
    assert y in Filter(bboxes, m, t) && y in bboxes && KeyAtMost(x, y);
  }

  // ------------------------------------------------------------------ separation

  ghost predicate Separated(b: seq<BBox>, m: Measure, t: real, live: seq<nat>)
    requires Positions(b, live)
  {
    forall x, y :: x in live && y in live && x < y ==> Overlap(m, b[x], b[y]) < t
  }

  ghost predicate PivotsClear(b: seq<BBox>, m: Measure, t: real, live: seq<nat>, scanned: set<nat>)
    requires Positions(b, live)
  {
    forall x, y :: x in live && y in live && x < y && x in scanned ==> Overlap(m, b[x], b[y]) < t
  }

  /** v overlaps a later box that outranks or ties it, so as a pivot it may be popped. */
  ghost predicate Poppable(b: seq<BBox>, m: Measure, t: real, v: nat) {
    exists w: nat :: v < w < |b| && Overlap(m, b[v], b[w]) >= t && LeftIsVictim(b[v], b[w])
  }

  /** x slid into the slot of the popped pivot v: v is gone and nothing between them is left. */
  ghost predicate SlidInto(b: seq<BBox>, m: Measure, t: real, live: seq<nat>, v: nat, x: nat) {
    v < x && v !in live && Poppable(b, m, t, v) && forall u :: u in live ==> !(v < u < x)
  }

  ghost predicate SkipsExplained(b: seq<BBox>, m: Measure, t: real, live: seq<nat>, skipped: set<nat>) {
    forall x :: x in skipped ==> exists v :: SlidInto(b, m, t, live, v, x)
  }

  /** The slots the walk has passed hold exactly the scanned and the skipped boxes. */
  ghost predicate Accounted(live: seq<nat>, l: nat, scanned: set<nat>, skipped: set<nat>) {
    && scanned !! skipped
    && (forall p :: 0 <= p < |live| && p < l ==> live[p] in scanned + skipped)
    && (forall x :: x in scanned + skipped ==> exists p :: 0 <= p < |live| && p < l && live[p] == x)
  }

  /** The inner loop only drops boxes, and none to the left of the pivot. */
  lemma {:induction false} ScanKeeps(b: seq<BBox>, m: Measure, t: real, live: seq<nat>, l: nat, r: nat)
    requires Positions(b, live) && l < r <= |live|
    ensures Scan(b, m, t, live, l, r).0[..l] == live[..l]
    ensures forall x :: x in Scan(b, m, t, live, l, r).0 ==> x in live
    decreases |live| - r
  {
    hide Overlap, LeftIsVictim;
    if r < |live| {
      if Overlap(m, b[live[l]], b[live[r]]) < t {
        ScanKeeps(b, m, t, live, l, r + 1);
      } else if LeftIsVictim(b[live[l]], b[live[r]]) {
        assert Remove(live, l)[..l] == live[..l];
      } else {
        RemovePositions(b, live, r);
        ScanKeeps(b, m, t, Remove(live, r), l, r);
        assert Remove(live, r)[..l] == live[..l];
      }
    }
  }

  /** A pivot that finishes its scan is clear of every box to its right. */
  lemma {:induction false} ScanClears(b: seq<BBox>, m: Measure, t: real, live: seq<nat>, l: nat, r: nat)
    requires Positions(b, live) && l < r <= |live| && !Scan(b, m, t, live, l, r).1
    requires forall q :: l < q < r ==> Overlap(m, b[live[l]], b[live[q]]) < t
    ensures var after := Scan(b, m, t, live, l, r).0;
            after[l] == live[l] && forall q :: l < q < |after| ==> Overlap(m, b[after[l]], b[after[q]]) < t
    decreases |live| - r
  {
    if r < |live| {
      if Overlap(m, b[live[l]], b[live[r]]) < t {
        ScanClears(b, m, t, live, l, r + 1);
      } else {
        RemovePositions(b, live, r);
        ScanClears(b, m, t, Remove(live, r), l, r);
      }
    }
  }

  /** A pivot that is popped lost against a later box, and is gone. */
  lemma {:induction false} ScanPops(b: seq<BBox>, m: Measure, t: real, live: seq<nat>, l: nat, r: nat)
    requires Positions(b, live) && l < r <= |live| && Scan(b, m, t, live, l, r).1
    ensures Poppable(b, m, t, live[l]) && live[l] !in Scan(b, m, t, live, l, r).0
    decreases |live| - r
  {
    if r < |live| {
      if Overlap(m, b[live[l]], b[live[r]]) < t {
        ScanPops(b, m, t, live, l, r + 1);
      } else if LeftIsVictim(b[live[l]], b[live[r]]) {
        assert live[r] < |b|;
      } else {
        RemovePositions(b, live, r);
        ScanPops(b, m, t, Remove(live, r), l, r);
      }
    }
  }

  lemma SkipsStayExplained(b: seq<BBox>, m: Measure, t: real, live: seq<nat>, after: seq<nat>, skipped: set<nat>)
    requires SkipsExplained(b, m, t, live, skipped)
    requires forall x :: x in after ==> x in live
    ensures SkipsExplained(b, m, t, after, skipped)
  {
    forall x | x in skipped ensures exists v :: SlidInto(b, m, t, after, v, x) {
      var v :| SlidInto(b, m, t, live, v, x);
      assert SlidInto(b, m, t, after, v, x);
    }
  }

  /** The accounting of the slots after one more of them has been passed. */
  lemma AccountedNext(live: seq<nat>, after: seq<nat>, l: nat, scanned: set<nat>, skipped: set<nat>,
                      scanned': set<nat>, skipped': set<nat>)
    requires Accounted(live, l, scanned, skipped)
    requires l < |live| && l <= |after| && after[..l] == live[..l]
    requires forall p, q :: 0 <= p < q < |after| ==> after[p] < after[q]
    requires scanned' + skipped' == scanned + skipped + (if l < |after| then {after[l]} else {})
    requires scanned <= scanned' && skipped <= skipped'
    requires (scanned' == scanned && skipped' !! scanned) || (skipped' == skipped && scanned' !! skipped)
    ensures Accounted(after, l + 1, scanned', skipped')
  {
    SamePrefix(live, after, l);
    forall x | x in scanned + skipped ensures l < |after| ==> x != after[l] {
      var p :| 0 <= p < |live| && p < l && live[p] == x;
      assert after[p] == x;
    }
    assert forall x :: x in scanned' + skipped' ==> x in scanned + skipped || (l < |after| && x == after[l]);
    assert forall x :: x in scanned' && x in skipped' ==> x in scanned + skipped;
    forall x | x in scanned' + skipped' ensures exists p :: 0 <= p < |after| && p < l + 1 && after[p] == x {
      if x in scanned + skipped {
        var p :| 0 <= p < |live| && p < l && live[p] == x;
        assert after[p] == x;
      } else {
        assert after[l] == x;
      }
    }
  }

  /** The invariant of the outer loop. */
  ghost predicate WalkState(b: seq<BBox>, m: Measure, t: real, live: seq<nat>, l: nat, scanned: set<nat>,
                            skipped: set<nat>) {
    && Positions(b, live)
    && Accounted(live, l, scanned, skipped)
    && PivotsClear(b, m, t, live, scanned)
    && SkipsExplained(b, m, t, live, skipped)
  }

  lemma ScannedStep(b: seq<BBox>, m: Measure, t: real, live: seq<nat>, l: nat, scanned: set<nat>, skipped: set<nat>)
    requires WalkState(b, m, t, live, l, scanned, skipped) && l + 1 < |live| && !Scan(b, m, t, live, l, l + 1).1
    ensures var after := Scan(b, m, t, live, l, l + 1).0;
            WalkState(b, m, t, after, l + 1, scanned + {after[l]}, skipped)
  {
    hide Overlap, Scan;
    var after := Scan(b, m, t, live, l, l + 1).0;
    ScanKeeps(b, m, t, live, l, l + 1);
    ScanClears(b, m, t, live, l, l + 1);
    SkipsStayExplained(b, m, t, live, after, skipped);
    PivotCleared(b, m, t, live, after, l, scanned);
    AccountedNext(live, after, l, scanned, skipped, scanned + {after[l]}, skipped);
  }

  lemma PoppedStep(b: seq<BBox>, m: Measure, t: real, live: seq<nat>, l: nat, scanned: set<nat>, skipped: set<nat>)
    requires WalkState(b, m, t, live, l, scanned, skipped) && l + 1 < |live| && Scan(b, m, t, live, l, l + 1).1
    ensures var after := Scan(b, m, t, live, l, l + 1).0;
            WalkState(b, m, t, after, l + 1, scanned, skipped + {after[l]})
  {
    hide Overlap, Scan, LeftIsVictim;
    var after := Scan(b, m, t, live, l, l + 1).0;
    ScanKeeps(b, m, t, live, l, l + 1);
    ScanPops(b, m, t, live, l, l + 1);
    SkipsStayExplained(b, m, t, live, after, skipped);
    SlotSlid(b, m, t, live, after, l);
    AccountedNext(live, after, l, scanned, skipped, scanned, skipped + {after[l]});
  }

  /** One round of the outer loop, in both cases. */
  lemma WalkStep(b: seq<BBox>, m: Measure, t: real, live: seq<nat>, l: nat, scanned: set<nat>, skipped: set<nat>)
    returns (after: seq<nat>, scanned': set<nat>, skipped': set<nat>)
    requires WalkState(b, m, t, live, l, scanned, skipped) && l + 1 < |live|
    ensures WalkState(b, m, t, after, l + 1, scanned', skipped') && |after| <= |live|
    ensures Walk(b, m, t, live, l, scanned, skipped) == Walk(b, m, t, after, l + 1, scanned', skipped')
  {
    after, scanned', skipped' := Scan(b, m, t, live, l, l + 1).0, scanned, skipped;
    if !Scan(b, m, t, live, l, l + 1).1 {
      ScannedStep(b, m, t, live, l, scanned, skipped);
      scanned' := scanned + {after[l]};
    } else {
      PoppedStep(b, m, t, live, l, scanned, skipped);
      skipped' := skipped + {after[l]};
    }
  }

  lemma {:induction false} WalkSpec(b: seq<BBox>, m: Measure, t: real, live: seq<nat>, l: nat, scanned: set<nat>,
                                    skipped: set<nat>)
    returns (n: nat)
    requires WalkState(b, m, t, live, l, scanned, skipped)
    ensures var trace := Walk(b, m, t, live, l, scanned, skipped);
            n + 1 >= |trace.kept| && WalkState(b, m, t, trace.kept, n, trace.scanned, trace.skipped)
    decreases |live| - l
  {
    if l + 1 < |live| {
      var after, scanned', skipped' := WalkStep(b, m, t, live, l, scanned, skipped);
      n := WalkSpec(b, m, t, after, l + 1, scanned', skipped');
    } else {
      n := l;
    }
  }

  lemma PivotCleared(b: seq<BBox>, m: Measure, t: real, live: seq<nat>, after: seq<nat>, l: nat, scanned: set<nat>)
    requires Positions(b, live) && Positions(b, after) && l < |after|
    requires PivotsClear(b, m, t, live, scanned) && forall x :: x in after ==> x in live
    requires forall q :: l < q < |after| ==> Overlap(m, b[after[l]], b[after[q]]) < t
    ensures PivotsClear(b, m, t, after, scanned + {after[l]})
  {
    forall x, y | x in after && y in after && x < y && x in scanned + {after[l]} ensures Overlap(m, b[x], b[y]) < t {
      if x !in scanned {
        var q :| 0 <= q < |after| && after[q] == y;
        assert q > l;
      }
    }
  }

  lemma SamePrefix(live: seq<nat>, after: seq<nat>, l: nat)
    requires l <= |live| && l <= |after| && after[..l] == live[..l]
    ensures forall p :: 0 <= p < l ==> after[p] == live[p]
  {
    assert forall p :: 0 <= p < l ==> after[..l][p] == live[..l][p];
  }

  lemma SlotSlid(b: seq<BBox>, m: Measure, t: real, live: seq<nat>, after: seq<nat>, l: nat)
    requires Positions(b, live) && Positions(b, after) && l < |live| && l < |after|
    requires after[..l] == live[..l] && forall x :: x in after ==> x in live
    requires Poppable(b, m, t, live[l]) && live[l] !in after
    ensures SlidInto(b, m, t, after, live[l], after[l])
  {
    assert after[l] in after;
    SamePrefix(live, after, l);
    var p :| 0 <= p < |live| && live[p] == after[l];
    assert p > l;
    forall u | u in after ensures !(live[l] < u < after[l]) {
      var q :| 0 <= q < |after| && after[q] == u;
    }
  }

  /** The survivors split into scanned and skipped boxes, up to the last one. */
  lemma SurvivorsAccounted(b: seq<BBox>, m: Measure, t: real)
    ensures var trace := Suppress(b, m, t);
            && Positions(b, trace.kept)
            && PivotsClear(b, m, t, trace.kept, trace.scanned)
            && SkipsExplained(b, m, t, trace.kept, trace.skipped)
            && trace.scanned !! trace.skipped
            && (forall x :: x in trace.scanned + trace.skipped ==> x in trace.kept)
            && (forall x, y :: x in trace.kept && y in trace.kept && x < y ==> x in trace.scanned + trace.skipped)
  {
    hide Walk, Overlap;
    var trace := Suppress(b, m, t);
    var n := WalkSpec(b, m, t, All(|b|), 0, {}, {});
    forall x, y | x in trace.kept && y in trace.kept && x < y ensures x in trace.scanned + trace.skipped {
      var p :| 0 <= p < |trace.kept| && trace.kept[p] == x;
      var q :| 0 <= q < |trace.kept| && trace.kept[q] == y;
      assert p < q;
    }
  }

  /**
   * Two survivors that overlap at or above the threshold: the left one never finished a scan; it
   * slid into the slot of a popped pivot and was stepped over.
   */
  lemma OverlapOnlyThroughSkips(b: seq<BBox>, m: Measure, t: real, x: nat, y: nat)
    requires x in Suppress(b, m, t).kept && y in Suppress(b, m, t).kept && x < y
    ensures x < y < |b|
    ensures x in Suppress(b, m, t).scanned ==> Overlap(m, b[x], b[y]) < t
    ensures Overlap(m, b[x], b[y]) >= t ==>
              x in Suppress(b, m, t).skipped && exists v :: SlidInto(b, m, t, Suppress(b, m, t).kept, v, x)
  {
    SurvivorsAccounted(b, m, t);
  }

  /** The survivors are pairwise separated exactly when the skipped ones are clear of every later survivor. */
  lemma SeparatedExactlyWithoutBadSkips(b: seq<BBox>, m: Measure, t: real)
    ensures var trace := Suppress(b, m, t);
            && Positions(b, trace.kept)
            && (forall x :: x in trace.skipped ==> x < |b|)
            && (Separated(b, m, t, trace.kept) <==>
                forall x, y :: x in trace.skipped && y in trace.kept && x < y ==> Overlap(m, b[x], b[y]) < t)
  {
    SurvivorsAccounted(b, m, t);
  }

  lemma OffendingPivot(b: seq<BBox>, m: Measure, t: real, x: nat, y: nat) returns (v: nat)
    requires x in Suppress(b, m, t).kept && y in Suppress(b, m, t).kept && x < y < |b|
    requires Overlap(m, b[x], b[y]) >= t
    ensures v < x && Poppable(b, m, t, v)
  {
    OverlapOnlyThroughSkips(b, m, t, x, y);
    v :| SlidInto(b, m, t, Suppress(b, m, t).kept, v, x);
  }

  /** A box that may be popped as a pivot lies left of two boxes that overlap. */
  ghost predicate Risky(b: seq<BBox>, m: Measure, t: real) {
    exists v: nat, x: nat, y: nat :: v < x < y < |b| && Poppable(b, m, t, v) && Overlap(m, b[x], b[y]) >= t
  }

  /** The survivors are pairwise separated unless, left of two boxes that overlap, some box may be popped as a pivot. */
  lemma SeparatedUnlessRisky(b: seq<BBox>, m: Measure, t: real)
    ensures Positions(b, Suppress(b, m, t).kept)
    ensures Separated(b, m, t, Suppress(b, m, t).kept) || Risky(b, m, t)
  {
    var kept := Suppress(b, m, t).kept;
    WalkPositions(b, m, t, All(|b|), 0, {}, {});
    if !Separated(b, m, t, kept) {
      var x, y :| x in kept && y in kept && x < y && Overlap(m, b[x], b[y]) >= t;
      var v := OffendingPivot(b, m, t, x, y);
    }
  }

  /** The same for the filter: what it returns is pairwise separated unless its input, in x order, is risky. */
  lemma FilterSeparatedUnlessRisky(bboxes: seq<BBox>, m: Measure, t: real)
    ensures SeparatedBoxes(Filter(bboxes, m, t), m, t) || Risky(SortByX(bboxes), m, t)
  {
    hide Suppress, SortByX, Overlap, Risky;
    var b := SortByX(bboxes);
    SeparatedUnlessRisky(b, m, t);
    var kept := Suppress(b, m, t).kept;
    if Separated(b, m, t, kept) {
      var s := Select(b, kept);
      forall i, j | 0 <= i < j < |s| ensures Overlap(m, s[i], s[j]) < t {
        assert kept[i] in kept && kept[j] in kept && kept[i] < kept[j];
      }
    }
  }

  /** All boxes overlap each other, as the detections of one car do. */
  predicate Crowd(b: seq<BBox>, m: Measure, t: real) {
    forall i, j :: 0 <= i < j < |b| ==> Overlap(m, b[i], b[j]) >= t
  }

  /** The first box and those from position k on. */
  function FirstAndFrom(n: nat, k: nat): (live: seq<nat>)
    requires 1 <= k <= n
    ensures |live| == n - k + 1 && live[0] == 0 && forall p :: 1 <= p < |live| ==> live[p] == k + p - 1
  {
    seq(n - k + 1, p => if p == 0 then 0 else k + p - 1)
  }

  lemma CrowdOverlaps(b: seq<BBox>, m: Measure, t: real, k: nat)
    requires Crowd(b, m, t) && 1 <= k
    ensures k < |b| ==> Overlap(m, b[0], b[k]) >= t
  {
    hide Overlap;
  }

  /** In a crowd the first box drops its weaker successors, and falls to the first that outranks or ties it. */
  lemma {:induction false} ScanOfCrowd(b: seq<BBox>, m: Measure, t: real, k: nat) returns (j: nat)
    requires Crowd(b, m, t) && 1 <= k <= |b| && Positions(b, FirstAndFrom(|b|, k))
    ensures k <= j <= |b| && (forall i :: k <= i < j ==> !LeftIsVictim(b[0], b[i]))
    ensures var (after, popped) := Scan(b, m, t, FirstAndFrom(|b|, k), 0, 1);
            if j == |b| then !popped && after == [0]
            else popped && LeftIsVictim(b[0], b[j]) && |after| == |b| - j
    decreases |b| - k
  {
    hide Overlap, LeftIsVictim, Crowd;
    assert k < |b| ==> Overlap(m, b[0], b[k]) >= t by { CrowdOverlaps(b, m, t, k); }
    var live := FirstAndFrom(|b|, k);
    if k == |b| {
      j := k;
    } else if LeftIsVictim(b[0], b[k]) {
      j := k;
    } else {
      assert Remove(live, 1) == FirstAndFrom(|b|, k + 1);
      j := ScanOfCrowd(b, m, t, k + 1);
    }
  }

  lemma {:induction false} WalkKeepsMore(b: seq<BBox>, m: Measure, t: real, live: seq<nat>, l: nat,
                                         scanned: set<nat>, skipped: set<nat>)
    requires Positions(b, live) && l < |live|
    ensures |Walk(b, m, t, live, l, scanned, skipped).kept| > l
    decreases |live| - l
  {
    if l + 1 < |live| {
      var (after, popped) := Scan(b, m, t, live, l, l + 1);
      if l + 1 < |after| {
        if !popped { WalkKeepsMore(b, m, t, after, l + 1, scanned + {after[l]}, skipped); }
        else { WalkKeepsMore(b, m, t, after, l + 1, scanned, skipped + {after[l]}); }
      }
    }
  }

  lemma CrowdOfTwo(b: seq<BBox>, m: Measure, t: real, kept: seq<nat>)
    requires Crowd(b, m, t) && Positions(b, kept)
    ensures Separated(b, m, t, kept) <==> |kept| <= 1
  {
    if |kept| > 1 { assert kept[0] in kept && kept[1] in kept && kept[0] < kept[1]; }
  }

  /** j: the first box that outranks or ties box 0. The walk leaves one survivor when j is the last box or missing. */
  lemma CrowdWalk(b: seq<BBox>, m: Measure, t: real) returns (j: nat)
    requires Crowd(b, m, t) && |b| > 1
    ensures 1 <= j <= |b| && (forall i :: 1 <= i < j ==> !LeftIsVictim(b[0], b[i]))
    ensures j < |b| ==> LeftIsVictim(b[0], b[j])
    ensures |Suppress(b, m, t).kept| <= 1 <==> j >= |b| - 1
  {
    hide Scan, Overlap, LeftIsVictim, Crowd;
    var live := All(|b|);
    assert live == FirstAndFrom(|b|, 1);
    j := ScanOfCrowd(b, m, t, 1);
    var (after, popped) := Scan(b, m, t, live, 0, 1);
    assert Suppress(b, m, t)
           == if popped then Walk(b, m, t, after, 1, {}, {} + {after[0]})
              else Walk(b, m, t, after, 1, {} + {after[0]}, {});
    if |after| > 1 {
      WalkKeepsMore(b, m, t, after, 1, {}, {} + {after[0]});
    } else {
      assert Suppress(b, m, t).kept == after;
    }
  }

  /**
   * On crowds the exact condition: the survivors are separated, and that means there is at most one,
   * if and only if no box between the first and the last outranks or ties the first.
   */
  lemma CrowdSeparatesExactly(b: seq<BBox>, m: Measure, t: real)
    requires Crowd(b, m, t)
    ensures Positions(b, Suppress(b, m, t).kept)
    ensures Separated(b, m, t, Suppress(b, m, t).kept) <==> |Suppress(b, m, t).kept| <= 1
    ensures Separated(b, m, t, Suppress(b, m, t).kept) <==> forall k :: 0 < k < |b| - 1 ==> !LeftIsVictim(b[0], b[k])
  {
    hide Scan, Overlap, LeftIsVictim, Crowd, Separated;
    WalkPositions(b, m, t, All(|b|), 0, {}, {});
    CrowdOfTwo(b, m, t, Suppress(b, m, t).kept);
    if |b| > 1 { var j := CrowdWalk(b, m, t); }
  }

  /** So on crowds whose second box outranks or ties the first, the condition above is necessary as well. */
  lemma RiskyIsNecessaryOnCrowds(b: seq<BBox>, m: Measure, t: real)
    requires Crowd(b, m, t) && |b| > 1 && LeftIsVictim(b[0], b[1])
    ensures Positions(b, Suppress(b, m, t).kept)
    ensures Separated(b, m, t, Suppress(b, m, t).kept) <==> !Risky(b, m, t)
  {
    CrowdSeparatesExactly(b, m, t);
    SeparatedUnlessRisky(b, m, t);
    if |b| > 2 {
      assert Poppable(b, m, t, 0);
      assert Overlap(m, b[1], b[2]) >= t;
    }
  }

  /** The obvious claim is false: of three copies of one rectangle, the outer two survive side by side. */
  lemma SeparationFails(r: Rect, m: Measure, t: real, low: real, high: real, name: string, text: string)
    requires t <= 1.0 && low < high
    ensures var a, c := BBox(r, low, name, text), BBox(r, high, name, text);
            Filter([a, c, a], m, t) == [c, a] && Overlap(m, c, a) >= t
  {
    var a, c := BBox(r, low, name, text), BBox(r, high, name, text);
    var b := [a, c, a];
    SortOfSorted(b);
    IouLaws(r, r);
    IosLaws(r, r);
    assert Overlap(m, a, c) == 1.0 && Overlap(m, c, a) == 1.0;
    hide Overlap;
    ThreeLeaveTwo(b, m, t);
  }

  lemma ThreeLeaveTwo(b: seq<BBox>, m: Measure, t: real)
    requires |b| == 3 && Overlap(m, b[0], b[1]) >= t && LeftIsVictim(b[0], b[1])
    ensures Suppress(b, m, t).kept == [1, 2]
  {
    hide Overlap, LeftIsVictim;
    var live := All(3);
    assert live == [0, 1, 2];
    assert Scan(b, m, t, live, 0, 1) == (Remove(live, 0), true);
    assert Remove(live, 0) == [1, 2];
  }

  // ------------------------------------------------------------------ a second pass

  predicate SeparatedBoxes(s: seq<BBox>, m: Measure, t: real) {
    forall i, j :: 0 <= i < j < |s| ==> Overlap(m, s[i], s[j]) < t
  }

  lemma {:induction false} ScanOfSeparated(b: seq<BBox>, m: Measure, t: real, live: seq<nat>, l: nat, r: nat)
    requires Positions(b, live) && l < r <= |live|
    requires SeparatedBoxes(b, m, t)
    ensures Scan(b, m, t, live, l, r) == (live, false)
    decreases |live| - r
  {
    if r < |live| {
      ScanOfSeparated(b, m, t, live, l, r + 1);
    }
  }

  lemma {:induction false} WalkOfSeparated(b: seq<BBox>, m: Measure, t: real, live: seq<nat>, l: nat,
                                           scanned: set<nat>, skipped: set<nat>)
    requires Positions(b, live) && SeparatedBoxes(b, m, t)
    ensures Walk(b, m, t, live, l, scanned, skipped).kept == live
    decreases |live| - l
  {
    if l + 1 < |live| {
      ScanOfSeparated(b, m, t, live, l, l + 1);
      WalkOfSeparated(b, m, t, live, l + 1, scanned + {live[l]}, skipped);
    }
  }

  /** The walk never adds a box, and if it drops none it skips none. */
  lemma {:induction false} WalkShrinks(b: seq<BBox>, m: Measure, t: real, live: seq<nat>, l: nat,
                                       scanned: set<nat>, skipped: set<nat>)
    requires Positions(b, live)
    ensures var trace := Walk(b, m, t, live, l, scanned, skipped);
            |trace.kept| <= |live| && (|trace.kept| == |live| ==> trace.skipped == skipped)
    decreases |live| - l
  {
    if l + 1 < |live| {
      var (after, popped) := Scan(b, m, t, live, l, l + 1);
      if !popped { WalkShrinks(b, m, t, after, l + 1, scanned + {after[l]}, skipped); }
      else { WalkShrinks(b, m, t, after, l + 1, scanned, skipped + {after[l]}); }
    }
  }

  lemma FilterSorted(s: seq<BBox>, m: Measure, t: real)
    ensures XSorted(Filter(s, m, t))
  {
    var sorted := SortByX(s);
    SortSpec(s, 0);
    WalkPositions(sorted, m, t, All(|sorted|), 0, {}, {});
  }

  /** A list in x order passes the filter unchanged exactly when its boxes are pairwise separated. */
  lemma FixedPointsAreSeparated(s: seq<BBox>, m: Measure, t: real)
    requires XSorted(s)
    ensures Filter(s, m, t) == s <==> SeparatedBoxes(s, m, t)
  {
    SortOfSorted(s);
    if SeparatedBoxes(s, m, t) {
      WalkOfSeparated(s, m, t, All(|s|), 0, {}, {});
      assert Select(s, All(|s|)) == s;
    }
    if Filter(s, m, t) == s {
      NothingDropped(s, m, t);
    }
  }

  lemma NothingDropped(s: seq<BBox>, m: Measure, t: real)
    requires |Suppress(s, m, t).kept| == |s|
    ensures SeparatedBoxes(s, m, t)
  {
    var trace := Suppress(s, m, t);
    WalkShrinks(s, m, t, All(|s|), 0, {}, {});
    SurvivorsAccounted(s, m, t);
    AllKept(s, trace.kept);
    forall i, j | 0 <= i < j < |s| ensures Overlap(m, s[i], s[j]) < t {
      assert trace.kept[i] in trace.kept && trace.kept[j] in trace.kept;
    }
  }

  lemma {:induction false} AllKept(b: seq<BBox>, live: seq<nat>)
    requires Positions(b, live) && |live| == |b|
    ensures forall p :: 0 <= p < |live| ==> live[p] == p
  {
    forall p: nat | p < |live| ensures live[p] >= p { AtLeast(live, p); }
    forall p: nat | p < |live| ensures live[p] <= p { AtMost(live, p); }
  }

  lemma {:induction false} AtLeast(live: seq<nat>, p: nat)
    requires p < |live| && forall i, j :: 0 <= i < j < |live| ==> live[i] < live[j]
    ensures live[p] >= p
  {
    if p > 0 { AtLeast(live, p - 1); }
  }

  lemma {:induction false} AtMost(live: seq<nat>, p: nat)
    requires p < |live| && forall i, j :: 0 <= i < j < |live| ==> live[i] < live[j]
    requires forall i :: 0 <= i < |live| ==> live[i] < |live|
    ensures live[p] <= p
    decreases |live| - p
  {
    if p + 1 < |live| { AtMost(live, p + 1); }
  }

  /** A caller can tell: filtering the result once more changes nothing exactly when the result is separated. */
  lemma SecondPassDetectsOverlap(s: seq<BBox>, m: Measure, t: real)
    ensures Filter(Filter(s, m, t), m, t) == Filter(s, m, t) <==> SeparatedBoxes(Filter(s, m, t), m, t)
  {
    FilterSorted(s, m, t);
    FixedPointsAreSeparated(Filter(s, m, t), m, t);
  }
}
