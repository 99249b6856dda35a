/**
 * The frame store of SerialVideoReader: a bounded queue of the latest frames and an index with one
 * frame per second. Both are specified as functions of the whole history of received frames.
 * Times are whole seconds; the clock never runs backwards.
 */
module FrameStore {
  import opened Wrappers

  const MAX_FRAMES := 100
  const HOLDING_FRAMES_SECONDS := 100

  // ------------------------------------------------------------------ specification by the history

  predicate NonDecreasing(h: seq<Stamped>) {
    forall i, j :: 0 <= i < j < |h| ==> h[i].time <= h[j].time
  }

  function Latest(h: seq<Stamped>): seq<Stamped> {
    if |h| <= MAX_FRAMES then h else h[|h| - MAX_FRAMES..]
  }

  /** The last hundred frames, or all while there are fewer. */
  lemma LatestSpec(h: seq<Stamped>)
    ensures |Latest(h)| == if |h| < 100 then |h| else 100
    ensures exists older: seq<Stamped> :: h == older + Latest(h)
  {
    var older := if |h| <= MAX_FRAMES then [] else h[..|h| - MAX_FRAMES];
    assert h == older + Latest(h);
  }

  /** The seconds ever entered into the index, oldest first: the first one, then every step of one second. */
  function Ticks(h: seq<Stamped>): seq<int> {
    var n := |h|;
    if n == 0 then []
    else if n == 1 then [h[0].time]
    else Ticks(h[..n - 1]) + (if h[n - 1].time - h[n - 2].time == 1 then [h[n - 1].time] else [])
  }

  /** How many of them have been evicted: a frame that finds the index full evicts one. */
  function Evicted(h: seq<Stamped>): nat {
    var n := |h|;
    if n <= 1 then 0
    else
      var before := h[..n - 1];
      Evicted(before) + (if |Ticks(before)| - Evicted(before) >= HOLDING_FRAMES_SECONDS then 1 else 0)
  }

  /** The first frame stamped with that second. */
  function FirstAt(h: seq<Stamped>, second: int): Option<Frame> {
    if h == [] then None
    else
      match FirstAt(h[..|h| - 1], second)
      case Some(frame) => Some(frame)
      case None => if h[|h| - 1].time == second then Some(h[|h| - 1].frame) else None
  }

  /** `ticks` ascend within [low, high]. */
  predicate Ascend(ticks: seq<int>, low: int, high: int) {
    && (forall i, j :: 0 <= i < j < |ticks| ==> ticks[i] < ticks[j])
    && (forall i :: 0 <= i < |ticks| ==> low <= ticks[i] <= high)
  }

  lemma AscendFurther(ticks: seq<int>, low: int, high: int, higher: int)
    requires Ascend(ticks, low, high) && high <= higher
    ensures Ascend(ticks, low, higher)
    ensures low <= higher && high < higher ==> Ascend(ticks + [higher], low, higher)
  {
  }

  lemma {:induction false} TicksIncrease(h: seq<Stamped>)
    requires NonDecreasing(h)
    ensures h == [] ==> Ticks(h) == []
    ensures h != [] ==> Ascend(Ticks(h), h[0].time, h[|h| - 1].time)
  {
    if |h| > 1 {
      hide Ascend;
      var n := |h|;
      TicksIncrease(h[..n - 1]);
      assert h[0].time <= h[n - 2].time <= h[n - 1].time;
      AscendFurther(Ticks(h[..n - 1]), h[0].time, h[n - 2].time, h[n - 1].time);
      assert Ticks(h[..n - 1]) + [] == Ticks(h[..n - 1]);
    }
  }

  /** The index holds between 1 and 100 seconds, and at least 99 once that many have been entered. */
  lemma {:induction false} EvictedBounds(h: seq<Stamped>)
    requires h != []
    ensures Evicted(h) < |Ticks(h)| <= Evicted(h) + HOLDING_FRAMES_SECONDS
    ensures Evicted(h) > 0 ==> |Ticks(h)| >= Evicted(h) + HOLDING_FRAMES_SECONDS - 1
  {
    if |h| > 1 {
      EvictedBounds(h[..|h| - 1]);
    }
  }

  /** FirstAt is what its name says. */
  lemma {:induction false} FirstAtSpec(h: seq<Stamped>, second: int)
    ensures match FirstAt(h, second)
            case None => forall i :: 0 <= i < |h| ==> h[i].time != second
            case Some(frame) =>
              exists i :: && 0 <= i < |h| && h[i] == Stamped(second, frame)
                          && forall j :: 0 <= j < i ==> h[j].time != second
  {
    if h != [] {
      var init := h[..|h| - 1];
      FirstAtSpec(init, second);
      if FirstAt(init, second).Some? {
        var i :| && 0 <= i < |init| && init[i] == Stamped(second, FirstAt(init, second).value)
                 && forall j :: 0 <= j < i ==> init[j].time != second;
        assert h[i] == init[i];
      } else if h[|h| - 1].time == second {
        assert h[|h| - 1] == Stamped(second, h[|h| - 1].frame);
      }
    }
  }

  /** The seconds in the index, oldest first. */
  function Held(h: seq<Stamped>): seq<int> {
    if h == [] then []
    else
      EvictedBounds(h);
      Ticks(h)[Evicted(h)..]
  }

  lemma HeldOrdered(h: seq<Stamped>)
    requires NonDecreasing(h)
    ensures forall i, j :: 0 <= i < j < |Held(h)| ==> Held(h)[i] < Held(h)[j]
    ensures if h == [] then Held(h) == [] else 1 <= |Held(h)| <= HOLDING_FRAMES_SECONDS
    ensures forall s :: s in Held(h) ==> h != [] && h[0].time <= s <= h[|h| - 1].time
  {
    TicksIncrease(h);
    if h != [] { EvictedBounds(h); }
  }

  ghost predicate IndexOf(index: map<int, Frame>, h: seq<Stamped>) {
    && (forall s :: s in index <==> s in Held(h))
    && (forall s :: s in index ==> FirstAt(h, s) == Some(index[s]))
  }

  lemma {:induction false} DistinctCount(s: seq<int>)
    requires forall i, j :: 0 <= i < j < |s| ==> s[i] < s[j]
    ensures |set x | x in s| == |s|
  {
    if s != [] {
      var init, last := s[..|s| - 1], s[|s| - 1];
      DistinctCount(init);
      assert (set x | x in s) == (set x | x in init) + {last};
    }
  }

  lemma IndexSize(index: map<int, Frame>, h: seq<Stamped>)
    requires NonDecreasing(h) && IndexOf(index, h)
    ensures |index| == |Held(h)|
  {
    HeldOrdered(h);
    DistinctCount(Held(h));
    var held := set x | x in Held(h);
    assert forall s :: s in index.Keys <==> s in held;
    assert index.Keys == held;
  }

  // ------------------------------------------------------------------ how one frame changes the index

  lemma SingleFrame(h: seq<Stamped>, x: Stamped)
    requires h == []
    ensures Held(h + [x]) == [x.time] && IndexOf(map[x.time := x.frame], h + [x])
  {
    assert h + [x] == [x];
    assert FirstAt([x], x.time) == Some(x.frame);
  }

  lemma TicksAfter(h: seq<Stamped>, x: Stamped)
    requires h != []
    ensures Ticks(h + [x]) == Ticks(h) + (if x.time - h[|h| - 1].time == 1 then [x.time] else [])
    ensures Evicted(h + [x]) == Evicted(h) + (if |Held(h)| >= HOLDING_FRAMES_SECONDS then 1 else 0)
  {
    assert (h + [x])[..|h|] == h;
    EvictedBounds(h);
  }

  /** The index after one more frame: at most the oldest second leaves, and at most the new one joins. */
  lemma HeldAfter(h: seq<Stamped>, x: Stamped)
    requires h != []
    ensures var kept := if |Held(h)| >= HOLDING_FRAMES_SECONDS then Held(h)[1..] else Held(h);
            Held(h + [x]) == kept + (if x.time - h[|h| - 1].time == 1 then [x.time] else [])
  {
    TicksAfter(h, x);
    EvictedBounds(h);
    DropThenAppend(Ticks(h), Evicted(h), if x.time - h[|h| - 1].time == 1 then [x.time] else []);
  }

  lemma DropThenAppend(s: seq<int>, k: nat, more: seq<int>)
    requires k < |s|
    ensures (s + more)[k..] == s[k..] + more
    ensures (s + more)[k + 1..] == s[k..][1..] + more
  {
  }

  lemma FirstAtAfter(h: seq<Stamped>, x: Stamped, second: int)
    ensures FirstAt(h + [x], second) ==
            if FirstAt(h, second).Some? then FirstAt(h, second)
            else if x.time == second then Some(x.frame) else None
  {
    assert (h + [x])[..|h|] == h;
  }

  /** What one frame does to a non-empty index: evict the oldest second when full, then add a new second. */
  function NextIndex(index: map<int, Frame>, h: seq<Stamped>, x: Stamped): map<int, Frame>
    requires h != []
  {
    var kept := if |index| >= HOLDING_FRAMES_SECONDS && Held(h) != [] then index - {Held(h)[0]} else index;
    if x.time - h[|h| - 1].time == 1 then kept[x.time := x.frame] else kept
  }

  lemma NextIndexKeys(index: map<int, Frame>, h: seq<Stamped>, x: Stamped)
    requires h != [] && NonDecreasing(h) && IndexOf(index, h)
    ensures forall s :: s in NextIndex(index, h, x) <==> s in Held(h + [x])
  {
    HeldOrdered(h);
    IndexSize(index, h);
    HeldAfter(h, x);
    TailMembers(Held(h));
  }

  lemma TailMembers(s: seq<int>)
    requires s != [] && forall i, j :: 0 <= i < j < |s| ==> s[i] < s[j]
    ensures forall x :: x in s[1..] <==> x in s && x != s[0]
  {
    assert s == [s[0]] + s[1..];
  }

  lemma NextIndexFrames(index: map<int, Frame>, h: seq<Stamped>, x: Stamped, s: int)
    requires h != [] && NonDecreasing(h) && IndexOf(index, h) && s in NextIndex(index, h, x)
    ensures FirstAt(h + [x], s) == Some(NextIndex(index, h, x)[s])
  {
    FirstAtAfter(h, x, s);
    NoFrameYet(h, h[|h| - 1].time + 1);
  }

  lemma HeldFront(h: seq<Stamped>, x: Stamped)
    requires h != [] && NonDecreasing(h) && h[|h| - 1].time <= x.time
    ensures Held(h) != [] && Held(h + [x]) != []
    ensures |Held(h)| >= HOLDING_FRAMES_SECONDS ==> Held(h)[0] <= Held(h + [x])[0]
    ensures |Held(h)| < HOLDING_FRAMES_SECONDS ==> Held(h)[0] == Held(h + [x])[0]
  {
    HeldOrdered(h);
    HeldAfter(h, x);
  }

  lemma NextIndexSound(index: map<int, Frame>, h: seq<Stamped>, x: Stamped)
    requires h != [] && NonDecreasing(h) && IndexOf(index, h)
    ensures IndexOf(NextIndex(index, h, x), h + [x])
  {
    NextIndexKeys(index, h, x);
    forall s | s in NextIndex(index, h, x) ensures FirstAt(h + [x], s) == Some(NextIndex(index, h, x)[s]) {
      NextIndexFrames(index, h, x, s);
    }
  }

  /** A second later than everything in the history has no frame yet. */
  lemma NoFrameYet(h: seq<Stamped>, second: int)
    requires NonDecreasing(h) && h != [] && h[|h| - 1].time < second
    ensures FirstAt(h, second) == None && second !in Held(h)
  {
    FirstAtSpec(h, second);
    HeldOrdered(h);
  }

  // ------------------------------------------------------------------ the store

  class SerialVideoReader {
    var frameQueue: seq<Stamped>
    var frameIndexer: map<int, Frame>
    var frontOfIndexerTime: int
    var prev: int
    /** Every frame ever received. */
    ghost var history: seq<Stamped>

    ghost predicate Valid()
      reads this
    {
      && NonDecreasing(history)
      && frameQueue == Latest(history)
      && IndexOf(frameIndexer, history)
      && (history != [] ==> prev == history[|history| - 1].time)
      && (history != [] ==> Held(history) != [] && frontOfIndexerTime <= Held(history)[0])
    }

    constructor (startTime: int)
      ensures Valid() && history == []
    {
      frameQueue, frameIndexer, prev, history := [], map[], startTime, [];
    }

    /** One round of the reading loop: store the frame in the queue and, once a second, in the index. */
    method Receive(now: int, frame: Frame)
      requires Valid()
      requires history != [] ==> history[|history| - 1].time <= now
      modifies this
      ensures Valid() && history == old(history) + [Stamped(now, frame)]
    {
      hide Latest, Held, IndexOf;
      Enqueue(now, frame);
      IndexFrame(now, frame);
      history := history + [Stamped(now, frame)];
      prev := now;
    }

    /** The first critical section: the queue keeps the latest frames. */
    method Enqueue(now: int, frame: Frame)
      requires frameQueue == Latest(history)
      modifies this`frameQueue
      ensures frameQueue == Latest(history + [Stamped(now, frame)])
    {
      if |frameQueue| < MAX_FRAMES {
        frameQueue := frameQueue + [Stamped(now, frame)];
      } else {
        frameQueue := frameQueue[1..];
        frameQueue := frameQueue + [Stamped(now, frame)];
      }
    }

    /** The second critical section: evict when full, then insert when the clock has moved by one second. */
    method IndexFrame(now: int, frame: Frame)
      requires NonDecreasing(history) && IndexOf(frameIndexer, history)
      requires history != [] ==> prev == history[|history| - 1].time <= now
      requires history != [] ==> Held(history) != [] && frontOfIndexerTime <= Held(history)[0]
      modifies this`frameIndexer, this`frontOfIndexerTime
      ensures IndexOf(frameIndexer, history + [Stamped(now, frame)])
      ensures Held(history + [Stamped(now, frame)]) != []
      ensures frontOfIndexerTime <= Held(history + [Stamped(now, frame)])[0]
    {
      hide FirstAt, Held;
      ghost var x := Stamped(now, frame);
      IndexSize(frameIndexer, history);
      HeldOrdered(history);
      if |frameIndexer| == 0 {
        frontOfIndexerTime := now;
        frameIndexer := frameIndexer[now := frame];
        SingleFrame(history, x);
      } else {
        NextIndexSound(frameIndexer, history, x);
        HeldFront(history, x);
        if |frameIndexer| >= HOLDING_FRAMES_SECONDS {
          EvictOldest(Held(history));
        }
        if now - prev == 1 {
          NoFrameYet(history, now);
          if now !in frameIndexer {
            frameIndexer := frameIndexer[now := frame];
          }
        }
        assert frameIndexer == NextIndex(old(frameIndexer), history, x);
      }
    }

    /** The search for the oldest second terminates because that second is at or after the front. */
    method EvictOldest(ghost held: seq<int>)
      requires held != [] && forall i, j :: 0 <= i < j < |held| ==> held[i] < held[j]
      requires forall s :: s in frameIndexer <==> s in held
      requires frontOfIndexerTime <= held[0]
      modifies this`frameIndexer, this`frontOfIndexerTime
      ensures frontOfIndexerTime == held[0]
      ensures frameIndexer == old(frameIndexer) - {held[0]}
    {
      assert held[0] in held;
      while frontOfIndexerTime !in frameIndexer
        invariant frameIndexer == old(frameIndexer) && frontOfIndexerTime <= held[0]
        decreases held[0] - frontOfIndexerTime
      {
        frontOfIndexerTime := frontOfIndexerTime + 1;
      }
      assert frontOfIndexerTime in held;
      frameIndexer := frameIndexer - {frontOfIndexerTime};
    }

    /** The latest frame, if any. */
    method Read() returns (latest: Option<Stamped>)
      requires Valid()
      ensures latest == if history == [] then None else Some(history[|history| - 1])
    {
      latest := if |frameQueue| == 0 then None else Some(frameQueue[|frameQueue| - 1]);
    }

    /** The indexed frame of the earliest second in [time, time + 10]. */
    method ReadAt(time: int) returns (frame: Option<Frame>)
      ensures frame.None? <==> forall s :: time <= s <= time + 10 ==> s !in frameIndexer
      ensures frame.Some? ==>
                exists s :: time <= s <= time + 10 && s in frameIndexer && frame.value == frameIndexer[s]
                            && forall earlier :: time <= earlier < s ==> earlier !in frameIndexer
    {
      if |frameIndexer| == 0 { return None; }
      for i := 0 to 11
        invariant forall s :: time <= s < time + i ==> s !in frameIndexer
      {
        if time + i in frameIndexer {
          return Some(frameIndexer[time + i]);
        }
      }
      frame := None;
    }
  }

  // ------------------------------------------------------------------ what the index remembers

  /** A second is ever entered exactly when it is the first one or its frame followed a frame one second older. */
  lemma {:induction false} TicksExactly(h: seq<Stamped>, second: int)
    ensures second in Ticks(h) <==>
            && h != []
            && (second == h[0].time
                || exists i :: 0 < i < |h| && h[i].time == second && h[i - 1].time == second - 1)
  {
    var n := |h|;
    if n > 1 {
      var init := h[..n - 1];
      TicksExactly(init, second);
      if i :| 0 < i < |init| && init[i].time == second && init[i - 1].time == second - 1 {
        assert h[i].time == second && h[i - 1].time == second - 1;
      }
    }
  }

  predicate GentleClock(h: seq<Stamped>) {
    forall i :: 0 < i < |h| ==> 0 <= h[i].time - h[i - 1].time <= 1
  }

  lemma {:induction false} GentleTicks(h: seq<Stamped>)
    requires GentleClock(h) && h != []
    ensures |Ticks(h)| == h[|h| - 1].time - h[0].time + 1
    ensures forall i :: 0 <= i < |Ticks(h)| ==> Ticks(h)[i] == h[0].time + i
  {
    if |h| > 1 {
      GentleTicks(h[..|h| - 1]);
    }
  }

  /**
   * With a clock that never jumps by more than a second the index is a gapless interval up to now
   * that reaches back 98 seconds, or to the start; every second in it answers with its own first frame.
   */
  lemma GentleIndex(h: seq<Stamped>, index: map<int, Frame>, second: int)
    requires h != [] && GentleClock(h) && IndexOf(index, h)
    ensures Held(h) != []
    ensures second in index <==> Held(h)[0] <= second <= h[|h| - 1].time
    ensures h[0].time <= second && h[|h| - 1].time - 98 <= second <= h[|h| - 1].time ==>
              second in index && FirstAt(h, second) == Some(index[second])
  {
    GentleHeld(h);
    var oldest := h[0].time + Evicted(h);
    if oldest <= second <= h[|h| - 1].time {
      assert Held(h)[second - oldest] == second;
    }
  }

  lemma GentleHeld(h: seq<Stamped>)
    requires h != [] && GentleClock(h)
    ensures |Held(h)| == h[|h| - 1].time - h[0].time - Evicted(h) + 1 > 0
    ensures forall i :: 0 <= i < |Held(h)| ==> Held(h)[i] == h[0].time + Evicted(h) + i
    ensures Evicted(h) > 0 ==> h[0].time + Evicted(h) <= h[|h| - 1].time - 98
  {
    GentleTicks(h);
    EvictedBounds(h);
  }
}
