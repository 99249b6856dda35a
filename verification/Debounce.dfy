/**
 * The two-threshold saturating debounce counter of ParkingSpot::update(bool), which turns one
 * noisy detection per frame into changes of the occupancy status.
 */
module Debounce {
  /** pos is mPositiveThreshold (enterCount), neg is mNegativeThreshold (minus exitCount). */
  datatype Thresholds = Thresholds(pos: int, neg: int)

  predicate Sane(th: Thresholds) { th.pos >= 1 && th.neg <= -1 }

  datatype Counter = Counter(count: int, occupied: bool)

  const VACANT := Counter(0, false)

  function Tick(th: Thresholds, c: Counter, detected: bool): Counter {
    if detected then
      if c.count < th.pos then c.(count := c.count + 1)
      else if c.count - th.pos < th.pos then Counter(c.count + 1, true)
      else c
    else
      if c.count > th.neg then c.(count := c.count - 1)
      else if c.count - th.neg > th.neg then Counter(c.count - 1, false)
      else c
  }

  function TickAll(th: Thresholds, c: Counter, frames: seq<bool>): Counter
    decreases |frames|
  {
    if frames == [] then c else Tick(th, TickAll(th, c, frames[..|frames| - 1]), frames[|frames| - 1])
  }

  // ------------------------------------------------------------------ the band

  predicate InBand(th: Thresholds, c: Counter) {
    && 2 * th.neg <= c.count <= 2 * th.pos
    && (c.count > th.pos ==> c.occupied)
    && (c.count < th.neg ==> !c.occupied)
  }

  function Clamp(x: int, low: int, high: int): int { if x < low then low else if x > high then high else x }

  /** A Schmitt trigger: a saturating walk whose status follows the walk only outside [neg, pos]. */
  function Trigger(th: Thresholds, c: Counter, detected: bool): Counter {
    var count := Clamp(if detected then c.count + 1 else c.count - 1, 2 * th.neg, 2 * th.pos);
    Counter(count, if count > th.pos then true else if count < th.neg then false else c.occupied)
  }

  /** Inside the band the branches of the program are that trigger, and the band is kept. */
  lemma TickIsTrigger(th: Thresholds, c: Counter, detected: bool)
    requires Sane(th) && InBand(th, c)
    ensures Tick(th, c, detected) == Trigger(th, c, detected) && InBand(th, Tick(th, c, detected))
  {
  }

  lemma {:induction false} BandIsKept(th: Thresholds, c: Counter, frames: seq<bool>)
    requires Sane(th) && InBand(th, c)
    ensures InBand(th, TickAll(th, c, frames))
    decreases |frames|
  {
    if frames != [] { BandIsKept(th, c, frames[..|frames| - 1]); }
  }

  lemma {:induction false} TickAllSplit(th: Thresholds, c: Counter, a: seq<bool>, b: seq<bool>)
    ensures TickAll(th, c, a + b) == TickAll(th, TickAll(th, c, a), b)
    decreases |b|
  {
    if b == [] {
      assert a + b == a;
    } else {
      TickAllSplit(th, c, a, b[..|b| - 1]);
      assert (a + b)[..|a + b| - 1] == a + b[..|b| - 1];
    }
  }

  // ------------------------------------------------------------------ noise

  function CountOf(frames: seq<bool>, kind: bool): nat {
    if frames == [] then 0
    else CountOf(frames[..|frames| - 1], kind) + (if frames[|frames| - 1] == kind then 1 else 0)
  }

  /** The status changes at the last of these frames. */
  predicate ChangesLast(th: Thresholds, c: Counter, frames: seq<bool>) {
    frames != [] && TickAll(th, c, frames).occupied != TickAll(th, c, frames[..|frames| - 1]).occupied
  }

  /** The counter cannot move further than the frames of one kind push it. */
  lemma {:induction false} CounterMoves(th: Thresholds, c: Counter, frames: seq<bool>)
    requires Sane(th) && InBand(th, c)
    ensures TickAll(th, c, frames).count >= c.count - CountOf(frames, false)
    ensures TickAll(th, c, frames).count <= c.count + CountOf(frames, true)
    decreases |frames|
  {
    if frames != [] {
      CounterMoves(th, c, frames[..|frames| - 1]);
      BandIsKept(th, c, frames[..|frames| - 1]);
    }
  }

  /**
   * Between two changes of the status lie at least enterCount + exitCount + 2 frames of the new
   * kind, whatever noise is mixed in: `first` ends in a change, and so does `second` after it.
   */
  lemma ChangesAreFarApart(th: Thresholds, c: Counter, first: seq<bool>, second: seq<bool>)
    requires Sane(th) && InBand(th, c)
    requires ChangesLast(th, c, first) && ChangesLast(th, TickAll(th, c, first), second)
    requires TickAll(th, c, first + second).occupied != TickAll(th, c, first).occupied
    ensures CountOf(second, TickAll(th, c, first + second).occupied) >= th.pos - th.neg + 2
  {
    var mid := TickAll(th, c, first);
    TickAllSplit(th, c, first, second);
    BandIsKept(th, c, first[..|first| - 1]);
    BandIsKept(th, c, first);
    BandIsKept(th, mid, second[..|second| - 1]);
    CounterMoves(th, mid, second);
  }

  // ------------------------------------------------------------------ response time

  function Repeat(n: nat, kind: bool): (frames: seq<bool>)
    ensures |frames| == n
  {
    seq(n, _ => kind)
  }

  lemma {:induction false} RisingCount(th: Thresholds, c: Counter, n: nat)
    requires th.pos >= 1
    ensures c.count >= 2 * th.pos ==> TickAll(th, c, Repeat(n, true)) == c
    ensures c.count <= 2 * th.pos ==>
              TickAll(th, c, Repeat(n, true))
              == Counter(if c.count + n <= 2 * th.pos then c.count + n else 2 * th.pos,
                         c.occupied || (c.count < 2 * th.pos && n > 0 && c.count + n > th.pos))
  {
    if n > 0 {
      RisingCount(th, c, n - 1);
      assert Repeat(n, true)[..n - 1] == Repeat(n - 1, true);
    }
  }

  lemma {:induction false} FallingCount(th: Thresholds, c: Counter, n: nat)
    requires th.neg <= -1
    ensures c.count <= 2 * th.neg ==> TickAll(th, c, Repeat(n, false)) == c
    ensures c.count >= 2 * th.neg ==>
              TickAll(th, c, Repeat(n, false))
              == Counter(if c.count - n >= 2 * th.neg then c.count - n else 2 * th.neg,
                         c.occupied && !(c.count > 2 * th.neg && n > 0 && c.count - n < th.neg))
  {
    if n > 0 {
      FallingCount(th, c, n - 1);
      assert Repeat(n, false)[..n - 1] == Repeat(n - 1, false);
    }
  }

  /** From any reachable state, exactly when a steady signal shows, and within what bound. */
  lemma ResponseTime(th: Thresholds, c: Counter, n: nat)
    requires Sane(th) && InBand(th, c)
    ensures !c.occupied ==> (TickAll(th, c, Repeat(n, true)).occupied <==> n >= th.pos - c.count + 1)
    ensures c.occupied ==> (!TickAll(th, c, Repeat(n, false)).occupied <==> n >= c.count - th.neg + 1)
    ensures n >= th.pos - 2 * th.neg + 1 ==> TickAll(th, c, Repeat(n, true)).occupied
    ensures n >= 2 * th.pos - th.neg + 1 ==> !TickAll(th, c, Repeat(n, false)).occupied
  {
    RisingCount(th, c, n);
    FallingCount(th, c, n);
  }

  // ------------------------------------------------------------------ thresholds that change in mid-run

  /**
   * The counter is not reset when the manager sends new thresholds, so it may lie outside the new
   * band. A vacant spot then ignores every car, however long it is seen, exactly when the counter
   * is at or above twice the new enter threshold; an occupied one never empties exactly when it is
   * at or below twice the new exit threshold.
   */
  lemma StuckExactlyOutsideBand(th: Thresholds, c: Counter)
    requires Sane(th)
    ensures !c.occupied ==> ((forall n: nat :: !TickAll(th, c, Repeat(n, true)).occupied) <==> c.count >= 2 * th.pos)
    ensures c.occupied ==> ((forall n: nat :: TickAll(th, c, Repeat(n, false)).occupied) <==> c.count <= 2 * th.neg)
  {
    forall n: nat
      ensures c.count >= 2 * th.pos ==> TickAll(th, c, Repeat(n, true)) == c
      ensures c.count <= 2 * th.neg ==> TickAll(th, c, Repeat(n, false)) == c
    {
      RisingCount(th, c, n);
      FallingCount(th, c, n);
    }
    var up: nat := if c.count <= th.pos then th.pos - c.count + 1 else 1;
    var down: nat := if c.count >= th.neg then c.count - th.neg + 1 else 1;
    RisingCount(th, c, up);
    FallingCount(th, c, down);
    assert c.count < 2 * th.pos ==> TickAll(th, c, Repeat(up, true)).occupied;
    assert c.count > 2 * th.neg ==> !TickAll(th, c, Repeat(down, false)).occupied;
  }

  /** It happens: with enterCount lowered from 3 to 1, a spot that has seen a car for three frames never reports it. */
  lemma LoweringThresholdsCanStick(n: nat)
    ensures var c := TickAll(Thresholds(3, -1), VACANT, Repeat(3, true));
            !TickAll(Thresholds(1, -1), c, Repeat(n, true)).occupied
  {
    RisingCount(Thresholds(3, -1), VACANT, 3);
    RisingCount(Thresholds(1, -1), Counter(3, false), n);
  }
}
