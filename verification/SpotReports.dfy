/** What the reports of a spot say, and how many waits its timer serves, over every run. */
module SpotReports {
  import opened Wrappers
  import opened Debounce
  import opened ParkingSpots
  import opened ParkingSpotProofs

  /** The time of the last ENTER; a spot that has sent none has time 0. */
  function LastEnterTime(sent: seq<Report>): int {
    if sent == [] then 0
    else if sent[|sent| - 1].code == ENTER then sent[|sent| - 1].time
    else LastEnterTime(sent[..|sent| - 1])
  }

  /** The manager may not change the attributes while the timer runs. */
  predicate TimerRuns(s: Spot) { s.counter.occupied && !s.overstayed }

  /** The attributes after these events: the last accepted ones, with the limit of the last reservation since. */
  function AttributesInForce(start: Spot, events: seq<Event>): Attributes
    decreases |events|
  {
    if events == [] then start.attributes
    else
      var init, e := events[..|events| - 1], events[|events| - 1];
      var before := HappenAll(start, init);
      if e.Change? && !TimerRuns(before) then e.attributes
      else if e.OneFrame? && e.reservation.Some? && Added(before, e) == [ENTER] then
        AttributesInForce(start, init).(timeLimit := e.reservation.value)
      else AttributesInForce(start, init)
  }

  function LimitInForce(start: Spot, events: seq<Event>): int { AttributesInForce(start, events).timeLimit }

  /** The report that an event causes after a run, told from the events and the reports before it. */
  function Caused(start: Spot, init: seq<Event>, e: Event): seq<Report> {
    var before := HappenAll(start, init);
    if Added(before, e) == [] then []
    else
      match e
      case OneFrame(_, _, frame, now, _) => [Report(Added(before, e)[0], start.id, frame, now, "null")]
      case RunHandler(image) =>
        [Report(OVER, start.id, image, LastEnterTime(before.sent) + LimitInForce(start, init), "null")]
      case _ => []
  }

  function AllCaused(start: Spot, events: seq<Event>): seq<Report>
    decreases |events|
  {
    if events == [] then []
    else AllCaused(start, events[..|events| - 1]) + Caused(start, events[..|events| - 1], events[|events| - 1])
  }

  lemma StepReports(s: Spot, e: Event)
    ensures Added(s, e) == [] ==> Happen(s, e).sent == s.sent
    ensures Added(s, e) != [] && e.OneFrame? ==>
              Happen(s, e).sent == s.sent + [Report(Added(s, e)[0], s.id, e.frame, e.now, "null")]
    ensures Added(s, e) != [] && e.RunHandler? ==>
              Happen(s, e).sent == s.sent + [Report(OVER, s.id, e.image, s.entryTime + s.attributes.timeLimit, "null")]
  {
    hide Tick;
  }

  lemma StepFields(s: Spot, e: Event)
    ensures Happen(s, e).id == s.id
    ensures Happen(s, e).entryTime == if e.OneFrame? && Added(s, e) == [ENTER] then e.now else s.entryTime
    ensures Happen(s, e).attributes
            == if e.Change? && !TimerRuns(s) then e.attributes
               else if e.OneFrame? && e.reservation.Some? && Added(s, e) == [ENTER]
               then s.attributes.(timeLimit := e.reservation.value)
               else s.attributes
    ensures s.updateEnabled && s.plate == "" ==> Happen(s, e).updateEnabled && Happen(s, e).plate == ""
  {
    hide Tick;
  }

  lemma LastEnterAppend(sent: seq<Report>, r: Report)
    ensures LastEnterTime(sent + [r]) == if r.code == ENTER then r.time else LastEnterTime(sent)
  {
    assert (sent + [r])[..|sent|] == sent;
  }

  /** Over every run a spot keeps its id, the time of its last ENTER and the attributes in force, and stays enabled. */
  lemma {:induction false} FieldsOfRun(start: Spot, events: seq<Event>)
    requires start.entryTime == LastEnterTime(start.sent) && start.updateEnabled && start.plate == ""
    ensures var s := HappenAll(start, events);
            && s.id == start.id && s.entryTime == LastEnterTime(s.sent)
            && s.attributes == AttributesInForce(start, events) && s.updateEnabled && s.plate == ""
    decreases |events|
  {
    hide Happen, Added, TimerRuns;
    if events != [] {
      var init, e := events[..|events| - 1], events[|events| - 1];
      FieldsOfRun(start, init);
      EnterTimeStep(HappenAll(start, init), e);
      StepFields(HappenAll(start, init), e);
    }
  }

  lemma EnterTimeStep(s: Spot, e: Event)
    requires s.entryTime == LastEnterTime(s.sent)
    ensures Happen(s, e).entryTime == LastEnterTime(Happen(s, e).sent)
  {
    hide Happen, LastEnterTime;
    StepFields(s, e);
    StepReports(s, e);
    AddedKinds(s, e);
    if Added(s, e) != [] {
      LastEnterAppend(s.sent, Happen(s, e).sent[|s.sent|]);
    }
  }

  lemma AddedKinds(s: Spot, e: Event)
    ensures Added(s, e) == [] || (e.OneFrame? && (Added(s, e) == [ENTER] || Added(s, e) == [EXIT]))
            || (e.RunHandler? && Added(s, e) == [OVER])
  {
    hide Tick;
  }

  /**
   * The whole log, told from the events. Every report names this spot; an ENTER or EXIT carries the
   * frame and the time of the frame that caused it; an OVER carries the image of the handler and the
   * time of the last ENTER plus the time limit in force, which is the reservation's where there is one.
   */
  lemma {:induction false} LogTold(id: int, attributes: Attributes, events: seq<Event>)
    ensures HappenAll(NewSpot(id, attributes), events).sent == AllCaused(NewSpot(id, attributes), events)
    decreases |events|
  {
    hide Happen, Added, AttributesInForce, LastEnterTime;
    var start := NewSpot(id, attributes);
    if events != [] {
      var init, e := events[..|events| - 1], events[|events| - 1];
      LogTold(id, attributes, init);
      NoEnterYet(id, attributes);
      FieldsOfRun(start, init);
      StepReports(HappenAll(start, init), e);
      AddedKinds(HappenAll(start, init), e);
    }
  }

  lemma NoEnterYet(id: int, attributes: Attributes)
    ensures var s := NewSpot(id, attributes);
            s.entryTime == LastEnterTime(s.sent) && s.updateEnabled && s.plate == "" && s.id == id
  {
  }

  /** A stay with a reservation, seen by the server: it is over when the reserved time has passed. */
  lemma ReservedStay(id: int, attributes: Attributes, car: Frame, image: Frame, now: int, limit: int)
    ensures var yes := OneFrame(Thresholds(1, -1), true, car, now, Some(limit));
            HappenAll(NewSpot(id, attributes), [yes, yes, Expire, RunHandler(image)]).sent
            == [Report(ENTER, id, car, now, "null"), Report(OVER, id, image, now + limit, "null")]
  {
    var yes := OneFrame(Thresholds(1, -1), true, car, now, Some(limit));
    var start := NewSpot(id, attributes);
    Unfold(start, [yes, yes, Expire, RunHandler(image)]);
  }

  // ------------------------------------------------------------------ waits and handlers

  /** How many handlers have run. */
  function HandlersRun(start: Spot, events: seq<Event>): nat
    decreases |events|
  {
    if events == [] then 0
    else
      var init, e := events[..|events| - 1], events[|events| - 1];
      HandlersRun(start, init) + B(e.RunHandler? && HappenAll(start, init).timer.ready > 0)
  }

  predicate WaitsServed(s: Spot, run: nat) {
    && Count(Codes(s.sent), ENTER) == run + s.timer.ready + B(s.timer.armed)
    && (s.timer.armed ==> s.counter.occupied)
  }

  lemma WaitStep(s: Spot, e: Event, run: nat)
    requires WaitsServed(s, run)
    ensures WaitsServed(Happen(s, e), run + B(e.RunHandler? && s.timer.ready > 0))
  {
    hide Tick, Codes, Count;
    StepAdds(s, e);
    var codes := Codes(s.sent);
    if Added(s, e) == [] {
      assert codes + [] == codes;
    } else {
      Append(codes, Added(s, e)[0]);
    }
  }

  /**
   * Every ENTER starts exactly one wait, and every wait has been served by one handler, is due, or is
   * pending; and a wait is pending only while the spot is occupied, so leaving and resetting end it.
   */
  lemma {:induction false} EveryWaitIsServedOnce(id: int, attributes: Attributes, events: seq<Event>)
    ensures var s := HappenAll(NewSpot(id, attributes), events);
            && Count(Codes(s.sent), ENTER)
               == HandlersRun(NewSpot(id, attributes), events) + s.timer.ready + B(s.timer.armed)
            && (s.timer.armed ==> s.counter.occupied)
    decreases |events|
  {
    hide Happen, Codes, Count;
    if events == [] {
      NothingSent();
    } else {
      var init, e := events[..|events| - 1], events[|events| - 1];
      EveryWaitIsServedOnce(id, attributes, init);
      WaitStep(HappenAll(NewSpot(id, attributes), init), e, HandlersRun(NewSpot(id, attributes), init));
    }
  }
}
