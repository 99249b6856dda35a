/** What the messages of a spot promise to the server, over every run of frames, timeouts, handlers and resets. */
module ParkingSpotProofs {
  import opened Wrappers
  import opened Debounce
  import opened ParkingSpots

  function Codes(sent: seq<Report>): (codes: seq<Code>)
    ensures |codes| == |sent| && forall i :: 0 <= i < |sent| ==> codes[i] == sent[i].code
  {
    seq(|sent|, i requires 0 <= i < |sent| => sent[i].code)
  }

  function Count(codes: seq<Code>, code: Code): nat {
    if codes == [] then 0 else Count(codes[..|codes| - 1], code) + (if codes[|codes| - 1] == code then 1 else 0)
  }

  function WithoutOver(codes: seq<Code>): seq<Code> {
    if codes == [] then []
    else WithoutOver(codes[..|codes| - 1]) + (if codes[|codes| - 1] == OVER then [] else [codes[|codes| - 1]])
  }

  predicate Alternates(codes: seq<Code>) {
    forall i :: 0 <= i < |codes| ==> codes[i] == if i % 2 == 0 then ENTER else EXIT
  }

  /** Every OVER comes after an ENTER whose EXIT has not been sent yet. */
  predicate OversInsideStays(codes: seq<Code>) {
    forall i :: 0 <= i < |codes| && codes[i] == OVER ==> |WithoutOver(codes[..i])| % 2 == 1
  }

  function B(b: bool): nat { if b then 1 else 0 }

  /** What one step adds to the log. */
  function Added(s: Spot, e: Event): seq<Code> {
    match e
    case OneFrame(th, detected, _, _, _) =>
      var after := Tick(th, s.counter, detected).occupied;
      if after == s.counter.occupied then [] else if after then [ENTER] else [EXIT]
    case RunHandler(_) => if s.timer.ready > 0 && s.counter.occupied then [OVER] else []
    case _ => []
  }

  lemma StepAdds(s: Spot, e: Event)
    ensures Codes(Happen(s, e).sent) == Codes(s.sent) + Added(s, e)
  {
    hide Tick;
  }

  lemma Append(codes: seq<Code>, c: Code)
    ensures forall k :: Count(codes + [c], k) == Count(codes, k) + B(c == k)
    ensures WithoutOver(codes + [c]) == WithoutOver(codes) + (if c == OVER then [] else [c])
    ensures forall i :: 0 <= i <= |codes| ==> (codes + [c])[..i] == codes[..i]
  {
    assert (codes + [c])[..|codes|] == codes;
  }

  // ------------------------------------------------------------------ counting, with resets

  function ResetsWhileOccupied(s: Spot, events: seq<Event>): nat
    decreases |events|
  {
    if events == [] then 0
    else
      var init, e := events[..|events| - 1], events[|events| - 1];
      ResetsWhileOccupied(s, init) + B(e.Reset? && HappenAll(s, init).counter.occupied)
  }

  /** The balance of a spot that forgot `lost` cars through resets. */
  predicate Balanced(s: Spot, lost: nat) {
    var codes := Codes(s.sent);
    && Count(codes, ENTER) == Count(codes, EXIT) + B(s.counter.occupied) + lost
    && Count(codes, OVER) + s.timer.ready + B(s.timer.armed) <= Count(codes, ENTER)
    && (s.overstayed ==> s.counter.occupied)
  }

  lemma BalancedStep(s: Spot, e: Event, lost: nat)
    requires Balanced(s, lost)
    ensures Balanced(Happen(s, e), lost + B(e.Reset? && s.counter.occupied))
  {
    hide Tick, Codes, Count;
    StepAdds(s, e);
    var codes := Codes(s.sent);
    if Added(s, e) == [] {
      assert codes + [] == codes;
    } else {
      Append(codes, Added(s, e)[0]);
    }
  }

  /**
   * Over every run: the server sees as many EXITs as ENTERs, but for the car that is parked now and
   * those that a reset made the spot forget; and there are never more OVERs than ENTERs, because
   * every ENTER starts one wait and every wait runs its handler once.
   */
  lemma {:induction false} EntersBalanceExits(id: int, attributes: Attributes, events: seq<Event>)
    ensures var s := HappenAll(NewSpot(id, attributes), events);
            var codes := Codes(s.sent);
            && Count(codes, ENTER) == Count(codes, EXIT) + B(s.counter.occupied)
                                      + ResetsWhileOccupied(NewSpot(id, attributes), events)
            && Count(codes, OVER) + s.timer.ready + B(s.timer.armed) <= Count(codes, ENTER)
            && (s.overstayed ==> s.counter.occupied)
    decreases |events|
  {
    hide Happen, Codes, Count;
    if events == [] {
      NothingSent();
    } else {
      var init, e := events[..|events| - 1], events[|events| - 1];
      EntersBalanceExits(id, attributes, init);
      BalancedStep(HappenAll(NewSpot(id, attributes), init), e, ResetsWhileOccupied(NewSpot(id, attributes), init));
    }
  }

  lemma NothingSent()
    ensures Codes([]) == [] && forall k :: Count(Codes([]), k) == 0
  {
    assert Codes([]) == [];
  }

  // ------------------------------------------------------------------ the order of the messages

  predicate NoResets(events: seq<Event>) {
    forall i :: 0 <= i < |events| ==> !events[i].Reset?
  }

  predicate Ordered(s: Spot) {
    var codes := Codes(s.sent);
    && Alternates(WithoutOver(codes)) && OversInsideStays(codes)
    && (|WithoutOver(codes)| % 2 == 1 <==> s.counter.occupied)
  }

  lemma AlternatesAppend(w: seq<Code>, c: Code)
    requires Alternates(w) && c == if |w| % 2 == 0 then ENTER else EXIT
    ensures Alternates(w + [c])
  {
  }

  lemma OversAppend(codes: seq<Code>, c: Code)
    requires OversInsideStays(codes) && (c == OVER ==> |WithoutOver(codes)| % 2 == 1)
    ensures OversInsideStays(codes + [c])
  {
    hide WithoutOver;
    var more := codes + [c];
    forall i | 0 <= i < |more| && more[i] == OVER ensures |WithoutOver(more[..i])| % 2 == 1 {
      if i < |codes| {
        assert more[..i] == codes[..i] && more[i] == codes[i];
      } else {
        assert more[..i] == codes;
      }
    }
  }

  lemma OneMoreCode(codes: seq<Code>, c: Code, occupied: bool)
    requires Alternates(WithoutOver(codes)) && OversInsideStays(codes) && (|WithoutOver(codes)| % 2 == 1 <==> occupied)
    requires c == ENTER <==> !occupied
    ensures var more := codes + [c];
            && Alternates(WithoutOver(more)) && OversInsideStays(more)
            && (|WithoutOver(more)| % 2 == 1 <==> c != EXIT)
  {
    hide Alternates, OversInsideStays, WithoutOver;
    Append(codes, c);
    OversAppend(codes, c);
    if c == OVER {
      assert WithoutOver(codes) + [] == WithoutOver(codes);
    } else {
      AlternatesAppend(WithoutOver(codes), c);
    }
  }

  lemma OrderedStep(s: Spot, e: Event)
    requires Ordered(s) && !e.Reset?
    ensures Ordered(Happen(s, e))
  {
    hide Tick, Codes, Alternates, WithoutOver, OversInsideStays;
    StepAdds(s, e);
    var codes := Codes(s.sent);
    if Added(s, e) == [] {
      assert codes + [] == codes;
    } else {
      OneMoreCode(codes, Added(s, e)[0], s.counter.occupied);
    }
  }

  /** A spot that is never reset reports ENTER and EXIT in strict turns, and OVER only during a stay. */
  lemma {:induction false} ReportsAlternate(id: int, attributes: Attributes, events: seq<Event>)
    requires NoResets(events)
    ensures var s := HappenAll(NewSpot(id, attributes), events);
            var codes := Codes(s.sent);
            && Alternates(WithoutOver(codes)) && OversInsideStays(codes)
            && (|WithoutOver(codes)| % 2 == 1 <==> s.counter.occupied)
    decreases |events|
  {
    hide Happen;
    if events == [] {
      NothingSent();
    } else {
      var init, e := events[..|events| - 1], events[|events| - 1];
      ReportsAlternate(id, attributes, init);
      OrderedStep(HappenAll(NewSpot(id, attributes), init), e);
    }
  }

  // ------------------------------------------------------------------ (ENTER OVER? EXIT)*

  /** Where a prefix of (ENTER OVER? EXIT)* can stand; Broken when the log is no such prefix. */
  datatype Phase = Empty | Parked | Overdue | Broken

  function NextPhase(p: Phase, c: Code): Phase {
    match (p, c)
    case (Empty, ENTER) => Parked
    case (Parked, OVER) => Overdue
    case (Parked, EXIT) => Empty
    case (Overdue, EXIT) => Empty
    case _ => Broken
  }

  function PhaseOf(codes: seq<Code>): Phase {
    if codes == [] then Empty else NextPhase(PhaseOf(codes[..|codes| - 1]), codes[|codes| - 1])
  }

  /** A handler that is about to run on a spot that is already reported as overstayed. */
  predicate SecondOver(s: Spot, e: Event) { e.RunHandler? && s.timer.ready > 0 && IsOverstayed(s) }

  predicate NoSecondOver(s: Spot, events: seq<Event>) {
    forall i :: 0 <= i < |events| ==> !SecondOver(HappenAll(s, events[..i]), events[i])
  }

  function PhaseOfSpot(s: Spot): Phase {
    if !s.counter.occupied then Empty else if s.overstayed then Overdue else Parked
  }

  lemma PhaseAppend(codes: seq<Code>, c: Code)
    ensures PhaseOf(codes + [c]) == NextPhase(PhaseOf(codes), c)
  {
    assert (codes + [c])[..|codes|] == codes;
  }

  /** One step of a log that is still in order. */
  lemma PhaseStep(s: Spot, e: Event)
    requires PhaseOf(Codes(s.sent)) == PhaseOfSpot(s) && (s.overstayed ==> s.counter.occupied) && !e.Reset?
    ensures PhaseOf(Codes(Happen(s, e).sent)) == if SecondOver(s, e) then Broken else PhaseOfSpot(Happen(s, e))
  {
    hide Tick, Codes, PhaseOf;
    StepAdds(s, e);
    var codes := Codes(s.sent);
    if Added(s, e) == [] {
      assert codes + [] == codes;
    } else {
      PhaseAppend(codes, Added(s, e)[0]);
    }
  }

  lemma PhaseStaysBroken(s: Spot, e: Event)
    requires PhaseOf(Codes(s.sent)) == Broken
    ensures PhaseOf(Codes(Happen(s, e).sent)) == Broken
  {
    hide Tick, Codes, PhaseOf;
    StepAdds(s, e);
    var codes := Codes(s.sent);
    if Added(s, e) == [] {
      assert codes + [] == codes;
    } else {
      PhaseAppend(codes, Added(s, e)[0]);
    }
  }

  /**
   * The log is a prefix of (ENTER OVER? EXIT)* exactly when no handler ever ran while the spot
   * was already reported as overstayed.
   */
  lemma {:induction false} GrammarExactly(id: int, attributes: Attributes, events: seq<Event>)
    requires NoResets(events)
    ensures var s := HappenAll(NewSpot(id, attributes), events);
            && (PhaseOf(Codes(s.sent)) != Broken <==> NoSecondOver(NewSpot(id, attributes), events))
            && (PhaseOf(Codes(s.sent)) != Broken ==> PhaseOf(Codes(s.sent)) == PhaseOfSpot(s))
    decreases |events|
  {
    var start := NewSpot(id, attributes);
    if events == [] {
      assert Codes([]) == [];
    } else {
      var n := |events| - 1;
      var init, e := events[..n], events[n];
      GrammarExactly(id, attributes, init);
      EntersBalanceExits(id, attributes, init);
      var s := HappenAll(start, init);
      SplitNoSecondOver(start, events);
      hide NoSecondOver, Happen, SecondOver;
      if PhaseOf(Codes(s.sent)) == Broken { PhaseStaysBroken(s, e); } else { PhaseStep(s, e); }
    }
  }

  lemma SplitNoSecondOver(s: Spot, events: seq<Event>)
    requires events != []
    ensures var n := |events| - 1;
            NoSecondOver(s, events)
            <==> NoSecondOver(s, events[..n]) && !SecondOver(HappenAll(s, events[..n]), events[n])
  {
    hide SecondOver, HappenAll;
    var n := |events| - 1;
    var init := events[..n];
    assert forall i :: 0 <= i < n ==> init[..i] == events[..i] && init[i] == events[i];
    if NoSecondOver(s, init) && !SecondOver(HappenAll(s, init), events[n]) {
      forall i | 0 <= i < |events| ensures !SecondOver(HappenAll(s, events[..i]), events[i]) {
        if i < n { assert !SecondOver(HappenAll(s, init[..i]), init[i]); }
      }
    }
    if NoSecondOver(s, events) {
      forall i | 0 <= i < |init| ensures !SecondOver(HappenAll(s, init[..i]), init[i]) {
        assert !SecondOver(HappenAll(s, events[..i]), events[i]);
      }
    }
  }

  /** Every cancelled handler has run before the spot is entered again. */
  predicate DrainedBeforeEnter(s: Spot, e: Event) {
    Added(s, e) == [ENTER] ==> s.timer.ready == 0
  }

  predicate AlwaysDrained(s: Spot, events: seq<Event>) {
    forall i :: 0 <= i < |events| ==> DrainedBeforeEnter(HappenAll(s, events[..i]), events[i])
  }

  /** At most one of: wait pending, handler ready, OVER sent, during each stay; nothing pending after it. */
  predicate OneHandler(s: Spot) {
    && (s.counter.occupied ==> s.timer.ready + B(s.timer.armed) + B(s.overstayed) <= 1)
    && (!s.counter.occupied ==> !s.timer.armed && !s.overstayed)
  }

  lemma OneHandlerStep(s: Spot, e: Event)
    requires OneHandler(s) && !e.Reset? && DrainedBeforeEnter(s, e)
    ensures OneHandler(Happen(s, e)) && !SecondOver(s, e)
  {
    hide Tick;
  }

  lemma {:induction false} OneHandlerPerStay(id: int, attributes: Attributes, events: seq<Event>)
    requires NoResets(events) && AlwaysDrained(NewSpot(id, attributes), events)
    ensures OneHandler(HappenAll(NewSpot(id, attributes), events))
    ensures NoSecondOver(NewSpot(id, attributes), events)
    decreases |events|
  {
    hide Happen, OneHandler, SecondOver, DrainedBeforeEnter, NoSecondOver;
    if events == [] {
      StartsClean(id, attributes);
    } else {
      var n := |events| - 1;
      var init := events[..n];
      assert forall i :: 0 <= i < n ==> init[..i] == events[..i] && init[i] == events[i];
      var s := HappenAll(NewSpot(id, attributes), init);
      assert DrainedBeforeEnter(s, events[n]);
      forall i | 0 <= i < |init| ensures DrainedBeforeEnter(HappenAll(NewSpot(id, attributes), init[..i]), init[i]) {
        assert DrainedBeforeEnter(HappenAll(NewSpot(id, attributes), events[..i]), events[i]);
      }
      OneHandlerPerStay(id, attributes, init);
      OneHandlerStep(s, events[n]);
      SplitNoSecondOver(NewSpot(id, attributes), events);
    }
  }

  lemma StartsClean(id: int, attributes: Attributes)
    ensures OneHandler(HappenAll(NewSpot(id, attributes), [])) && NoSecondOver(NewSpot(id, attributes), [])
  {
  }

  /** If cancelled handlers run before the next ENTER, the server sees (ENTER OVER? EXIT)*. */
  lemma DrainedLogIsOrderly(id: int, attributes: Attributes, events: seq<Event>)
    requires NoResets(events) && AlwaysDrained(NewSpot(id, attributes), events)
    ensures PhaseOf(Codes(HappenAll(NewSpot(id, attributes), events).sent)) != Broken
  {
    OneHandlerPerStay(id, attributes, events);
    GrammarExactly(id, attributes, events);
  }

  /**
   * Without that the log can break: the cancelled handler of one stay runs in the next one and
   * reports it as overstayed at once, and the timer of that stay then reports it again.
   */
  lemma StaleHandlerBreaksLog(s: Spot, frame: Frame)
    requires PhaseOf(Codes(s.sent)) == Parked && PhaseOfSpot(s) == Parked && s.timer == Timer(true, 1)
    ensures PhaseOf(Codes(HappenAll(s, [RunHandler(frame), Expire, RunHandler(frame)]).sent)) == Broken
  {
    var events := [RunHandler(frame), Expire, RunHandler(frame)];
    assert events[..2] == [RunHandler(frame), Expire];
    assert events[..2][..1] == [RunHandler(frame)] && [RunHandler(frame)][..0] == [];
    var s1 := Happen(s, events[0]);
    var s2 := Happen(s1, events[1]);
    assert HappenAll(s, events[..2][..1]) == s1 && HappenAll(s, events[..2]) == s2;
    PhaseStep(s, events[0]);
    PhaseStep(s1, events[1]);
    PhaseStep(s2, events[2]);
  }

  lemma FirstStay(id: int, attributes: Attributes, frame: Frame)
    ensures var th := Thresholds(1, -1);
            var yes, no := OneFrame(th, true, frame, 0, None), OneFrame(th, false, frame, 0, None);
            var s := HappenAll(NewSpot(id, attributes), [yes, yes] + [no, no, no, no]);
            && Codes(s.sent) == [ENTER, EXIT] && s.counter == Counter(-2, false)
            && !s.overstayed && s.timer == Timer(false, 1)
  {
    var th := Thresholds(1, -1);
    var yes, no := OneFrame(th, true, frame, 0, None), OneFrame(th, false, frame, 0, None);
    var s0 := NewSpot(id, attributes);
    var s2 := Happen(Happen(s0, yes), yes);
    assert s2.counter == Counter(2, true) && s2.timer == Timer(true, 0) && Codes(s2.sent) == [ENTER];
    Unfold(s0, [yes, yes]);
    Unfold(s2, [no, no, no, no]);
    HappenAllSplit(s0, [yes, yes], [no, no, no, no]);
  }

  /** Such a state is reached: enter, leave, and enter again before the handler of the first stay has run. */
  lemma StaleHandlerIsReachable(id: int, attributes: Attributes, frame: Frame)
    ensures var th := Thresholds(1, -1);
            var yes, no := OneFrame(th, true, frame, 0, None), OneFrame(th, false, frame, 0, None);
            var s := HappenAll(NewSpot(id, attributes), [yes, yes] + [no, no, no, no] + [yes, yes, yes, yes]);
            && Codes(s.sent) == [ENTER, EXIT, ENTER] && s.counter == Counter(2, true)
            && !s.overstayed && s.timer == Timer(true, 1)
  {
    var th := Thresholds(1, -1);
    var yes, no := OneFrame(th, true, frame, 0, None), OneFrame(th, false, frame, 0, None);
    var s0 := NewSpot(id, attributes);
    FirstStay(id, attributes, frame);
    var s6 := HappenAll(s0, [yes, yes] + [no, no, no, no]);
    Unfold(s6, [yes, yes, yes, yes]);
    HappenAllSplit(s0, [yes, yes] + [no, no, no, no], [yes, yes, yes, yes]);
  }

  /** So the orderly log is not guaranteed: this run, without resets, sends ENTER EXIT ENTER OVER OVER. */
  lemma LogCanBreak(id: int, attributes: Attributes, frame: Frame)
    ensures var th := Thresholds(1, -1);
            var yes, no := OneFrame(th, true, frame, 0, None), OneFrame(th, false, frame, 0, None);
            var events := [yes, yes] + [no, no, no, no] + [yes, yes, yes, yes]
                          + [RunHandler(frame), Expire, RunHandler(frame)];
            NoResets(events) && PhaseOf(Codes(HappenAll(NewSpot(id, attributes), events).sent)) == Broken
  {
    hide Happen, SeeFrame, Tick;
    var th := Thresholds(1, -1);
    var yes, no := OneFrame(th, true, frame, 0, None), OneFrame(th, false, frame, 0, None);
    var stay := [yes, yes] + [no, no, no, no] + [yes, yes, yes, yes];
    StaleHandlerIsReachable(id, attributes, frame);
    assert [ENTER, EXIT, ENTER][..2] == [ENTER, EXIT] && [ENTER, EXIT][..1] == [ENTER] && [ENTER][..0] == [];
    assert PhaseOf([ENTER]) == Parked && PhaseOf([ENTER, EXIT]) == Empty && PhaseOf([ENTER, EXIT, ENTER]) == Parked;
    StaleHandlerBreaksLog(HappenAll(NewSpot(id, attributes), stay), frame);
    HappenAllSplit(NewSpot(id, attributes), stay, [RunHandler(frame), Expire, RunHandler(frame)]);
  }

  lemma {:induction false} HappenAllSplit(s: Spot, a: seq<Event>, b: seq<Event>)
    ensures HappenAll(s, a + b) == HappenAll(HappenAll(s, a), b)
    decreases |b|
  {
    hide Happen;
    if b == [] {
      assert a + b == a;
    } else {
      HappenAllSplit(s, a, b[..|b| - 1]);
      assert (a + b)[..|a + b| - 1] == a + b[..|b| - 1];
    }
  }

  lemma Unfold(s: Spot, events: seq<Event>)
    ensures |events| == 2 ==> HappenAll(s, events) == Happen(Happen(s, events[0]), events[1])
    ensures |events| == 4 ==>
              HappenAll(s, events) == Happen(Happen(Happen(Happen(s, events[0]), events[1]), events[2]), events[3])
  {
    hide Happen;
    if |events| == 2 {
      assert events[..1][..0] == [];
      assert HappenAll(s, events[..1]) == Happen(s, events[0]);
    } else if |events| == 4 {
      assert events[..3][..2] == events[..2] && events[..2][..1] == events[..1] && events[..1][..0] == [];
    }
  }

  // ------------------------------------------------------------------ debounced status

  predicate FixedThresholds(th: Thresholds, events: seq<Event>) {
    forall i :: 0 <= i < |events| && events[i].OneFrame? ==> events[i].th == th
  }

  /** The detections the spot has seen, one per frame. */
  function Detections(events: seq<Event>): seq<bool> {
    if events == [] then []
    else
      var e := events[|events| - 1];
      Detections(events[..|events| - 1]) + (if e.OneFrame? then [e.detected] else [])
  }

  /** The events since the last reset. */
  function SinceReset(events: seq<Event>): seq<Event> {
    if events == [] then []
    else
      var e := events[|events| - 1];
      if e.Reset? then [] else SinceReset(events[..|events| - 1]) + [e]
  }

  lemma {:induction false} SinceResetWhole(events: seq<Event>)
    requires NoResets(events)
    ensures SinceReset(events) == events
  {
    if events != [] { SinceResetWhole(events[..|events| - 1]); }
  }

  /**
   * Messages, timers, handlers and new attributes do not disturb the debouncing, and a reset starts it
   * afresh: the status is that of the bare counter on the frames since the last reset.
   */
  lemma {:induction false} SpotFollowsDebounce(id: int, attributes: Attributes, th: Thresholds, events: seq<Event>)
    requires FixedThresholds(th, SinceReset(events))
    ensures HappenAll(NewSpot(id, attributes), events).counter == TickAll(th, VACANT, Detections(SinceReset(events)))
    decreases |events|
  {
    hide Tick, Happen, SinceReset, FixedThresholds, Detections, TickAll;
    if events == [] {
      NothingSeen(th);
    } else {
      var init, e := events[..|events| - 1], events[|events| - 1];
      SinceResetStep(events);
      CounterStep(HappenAll(NewSpot(id, attributes), init), e);
      if e.Reset? {
        NothingSeen(th);
      } else {
        var since := SinceReset(init);
        FixedBefore(th, since, e);
        SpotFollowsDebounce(id, attributes, th, init);
        DetectionsAppend(since, e);
        if e.OneFrame? { LastTick(th, VACANT, Detections(since), e.detected); }
      }
    }
  }

  lemma NothingSeen(th: Thresholds)
    ensures SinceReset([]) == [] && TickAll(th, VACANT, Detections([])) == VACANT
  {
  }

  lemma SinceResetStep(events: seq<Event>)
    requires events != []
    ensures var e := events[|events| - 1];
            SinceReset(events) == if e.Reset? then [] else SinceReset(events[..|events| - 1]) + [e]
  {
  }

  lemma CounterStep(s: Spot, e: Event)
    ensures Happen(s, e).counter
            == if e.OneFrame? then Tick(e.th, s.counter, e.detected) else if e.Reset? then VACANT else s.counter
  {
    hide Tick;
  }

  lemma FixedBefore(th: Thresholds, events: seq<Event>, e: Event)
    requires FixedThresholds(th, events + [e])
    ensures FixedThresholds(th, events) && (e.OneFrame? ==> e.th == th)
  {
    assert (events + [e])[|events|] == e;
    forall i | 0 <= i < |events| && events[i].OneFrame? ensures events[i].th == th {
      assert (events + [e])[i] == events[i];
    }
  }

  lemma DetectionsAppend(events: seq<Event>, e: Event)
    ensures Detections(events + [e]) == if e.OneFrame? then Detections(events) + [e.detected] else Detections(events)
  {
    assert (events + [e])[..|events|] == events;
    assert Detections(events) + [] == Detections(events);
  }

  lemma {:induction false} DetectionsSplit(a: seq<Event>, b: seq<Event>)
    ensures Detections(a + b) == Detections(a) + Detections(b)
    decreases |b|
  {
    if b == [] {
      assert a + b == a;
    } else {
      DetectionsSplit(a, b[..|b| - 1]);
      assert (a + b)[..|a + b| - 1] == a + b[..|b| - 1];
    }
  }

  /** The last of these events is a frame that makes the spot report `code`. */
  predicate EndsWith(start: Spot, events: seq<Event>, code: Code) {
    && events != [] && events[|events| - 1].OneFrame?
    && Added(HappenAll(start, events[..|events| - 1]), events[|events| - 1]) == [code]
  }

  lemma ReportIsChange(id: int, attributes: Attributes, th: Thresholds, events: seq<Event>, code: Code)
    requires NoResets(events) && FixedThresholds(th, events) && EndsWith(NewSpot(id, attributes), events, code)
    ensures ChangesLast(th, VACANT, Detections(events))
    ensures code == if TickAll(th, VACANT, Detections(events)).occupied then ENTER else EXIT
  {
    hide Tick, TickAll;
    var init, e := events[..|events| - 1], events[|events| - 1];
    assert e.th == th;
    SinceResetWhole(init);
    SpotFollowsDebounce(id, attributes, th, init);
    assert Detections(events) == Detections(init) + [e.detected];
    assert Detections(events)[..|Detections(init)|] == Detections(init);
    assert TickAll(th, VACANT, Detections(events)) == Tick(th, TickAll(th, VACANT, Detections(init)), e.detected) by {
      LastTick(th, VACANT, Detections(init), e.detected);
    }
  }

  lemma LastTick(th: Thresholds, c: Counter, frames: seq<bool>, last: bool)
    ensures TickAll(th, c, frames + [last]) == Tick(th, TickAll(th, c, frames), last)
  {
    hide Tick;
    assert (frames + [last])[..|frames|] == frames;
  }

  /**
   * What the debouncing buys the server: between an ENTER and a later EXIT, or an EXIT and a later
   * ENTER, the spot has seen at least enterCount + exitCount + 2 frames that show the new status.
   */
  lemma ReportsAreFarApart(id: int, attributes: Attributes, th: Thresholds, a: seq<Event>, b: seq<Event>, code: Code)
    requires Sane(th) && NoResets(a + b) && FixedThresholds(th, a + b) && b != []
    requires code == ENTER || code == EXIT
    requires EndsWith(NewSpot(id, attributes), a, code)
    requires EndsWith(NewSpot(id, attributes), a + b, if code == ENTER then EXIT else ENTER)
    ensures CountOf(Detections(b), code == EXIT) >= th.pos - th.neg + 2
  {
    hide EndsWith, Tick, TickAll, CountOf, ChangesLast;
    assert forall i :: 0 <= i < |a| ==> a[i] == (a + b)[i];
    ReportIsChange(id, attributes, th, a, code);
    ReportIsChange(id, attributes, th, a + b, if code == ENTER then EXIT else ENTER);
    DetectionsSplit(a, b);
    NewFramesSeen(th, Detections(a), Detections(b));
    ChangesAreFarApart(th, VACANT, Detections(a), Detections(b));
  }

  lemma NewFramesSeen(th: Thresholds, first: seq<bool>, second: seq<bool>)
    requires ChangesLast(th, VACANT, first + second)
    requires TickAll(th, VACANT, first + second).occupied != TickAll(th, VACANT, first).occupied
    ensures ChangesLast(th, TickAll(th, VACANT, first), second)
  {
    hide Tick, TickAll;
    TickAllSplit(th, VACANT, first, second);
    assert second == [] ==> first + second == first;
    var init := second[..|second| - 1];
    TickAllSplit(th, VACANT, first, init);
    assert (first + second)[..|first + second| - 1] == first + init;
  }
}
