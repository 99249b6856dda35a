/**
 * One parking spot (ParkingSpot.cpp) as the main loop (MainInterface::updateSpots) and the timer
 * thread drive it. A spot sends its messages to the shared server queue; `sent` is what it has
 * sent so far. A timer that is cancelled still runs its handler, because notifyExpiration takes no
 * error code, so started waits and handlers ready to run are both part of the state.
 */
module ParkingSpots {
  import opened Wrappers
  import opened Debounce

  datatype Roi = Roi(x: int, y: int, width: int, height: int)

  datatype Code = ENTER | EXIT | OVER

  /** A ParkingUpdateMessage, without the crop. */
  datatype Report = Report(code: Code, spot: int, frame: Frame, time: int, plate: string)

  /** armed: a wait is pending on the timer; ready: handlers whose wait has ended and that have not run yet. */
  datatype Timer = Timer(armed: bool, ready: nat)

  datatype Attributes = Attributes(name: string, timeLimit: int, roi: Roi, policy: int)

  datatype Spot = Spot(
    id: int, attributes: Attributes, counter: Counter, overstayed: bool, updateEnabled: bool,
    timer: Timer, entryTime: int, plate: string, sent: seq<Report>)

  /** The default plate of a message and the plate the main loop passes. */
  const NO_PLATE := "null"

  function NewSpot(id: int, attributes: Attributes): Spot {
    Spot(id, attributes, VACANT, false, true, Timer(false, 0), 0, "", [])
  }

  /** isOverstayed() */
  predicate IsOverstayed(s: Spot) { s.counter.occupied && s.overstayed }

  // ------------------------------------------------------------------ the operations

  /** expires_from_now or cancel: a pending wait ends, and its handler becomes ready all the same. */
  function CancelTimer(t: Timer): Timer {
    Timer(false, if t.armed then t.ready + 1 else t.ready)
  }

  function StartTimer(t: Timer): Timer { CancelTimer(t).(armed := true) }

  /**
   * `reservation` is the reserved time when the sensor serves reservations and the plate has one;
   * it then becomes the time limit.
   */
  function EnterSpot(s: Spot, frame: Frame, time: int, plate: string, reservation: Option<int>): Spot {
    s.(counter := s.counter.(occupied := true),
       timer := StartTimer(s.timer),
       attributes := if reservation.Some? then s.attributes.(timeLimit := reservation.value) else s.attributes,
       entryTime := time,
       sent := s.sent + [Report(ENTER, s.id, frame, time, plate)])
  }

  function Overstay(s: Spot, frame: Frame, time: int): Spot {
    s.(overstayed := true, sent := s.sent + [Report(OVER, s.id, frame, time, NO_PLATE)])
  }

  function ExitSpot(s: Spot, frame: Frame, time: int): Spot {
    s.(counter := s.counter.(occupied := false), overstayed := false, plate := "",
       timer := CancelTimer(s.timer),
       sent := s.sent + [Report(EXIT, s.id, frame, time, NO_PLATE)])
  }

  /** The handler of the timer; `frame` is what readAt finds for the time of expiration. */
  function NotifyExpiration(s: Spot, frame: Frame): Spot {
    if s.counter.occupied then Overstay(s, frame, s.entryTime + s.attributes.timeLimit) else s
  }

  function ResetSpot(s: Spot): Spot {
    s.(timer := CancelTimer(s.timer), counter := VACANT, overstayed := false, updateEnabled := true)
  }

  /** update(spotName, timeLimit, roi, policy): refused while a timer may be running. */
  function UpdateAttributes(s: Spot, attributes: Attributes): Spot {
    if s.counter.occupied && !s.overstayed then s else s.(attributes := attributes)
  }

  /** One frame of the main loop: debounce the detection, and enter or leave when the status changes. */
  function SeeFrame(s: Spot, th: Thresholds, detected: bool, frame: Frame, now: int, reservation: Option<int>): Spot {
    var s' := s.(counter := Tick(th, s.counter, detected));
    if s'.counter.occupied == s.counter.occupied then s'
    else if s'.counter.occupied then EnterSpot(s', frame, now, NO_PLATE, reservation)
    else ExitSpot(s', frame, now)
  }

  class ParkingSpot {
    const id: int
    var attributes: Attributes
    var occupied: bool
    var overstayed: bool
    var updateEnabled: bool
    var occupiedFrameCounter: int
    var armed: bool
    var ready: nat
    var entryTime: int
    var plateNumber: string
    var sent: seq<Report>

    ghost function View(): Spot
      reads this
    {
      Spot(id, attributes, Counter(occupiedFrameCounter, occupied), overstayed, updateEnabled,
           Timer(armed, ready), entryTime, plateNumber, sent)
    }

    constructor (id: int, attributes: Attributes)
      ensures View() == NewSpot(id, attributes)
    {
      this.id, this.attributes := id, attributes;
      occupied, overstayed, updateEnabled, occupiedFrameCounter := false, false, true, 0;
      armed, ready, entryTime, plateNumber, sent := false, 0, 0, "", [];
    }

    method StopTimer()
      modifies this
      ensures View() == old(View()).(timer := CancelTimer(old(View()).timer))
    {
      if armed { ready := ready + 1; }
      armed := false;
    }

    method StartTimer()
      modifies this
      ensures View() == old(View()).(timer := CancelTimer(old(View()).timer).(armed := true))
    {
      StopTimer();
      armed := true;
    }

    method Enter(frame: Frame, time: int, plate: string, reservation: Option<int>)
      modifies this
      ensures View() == EnterSpot(old(View()), frame, time, plate, reservation)
    {
      occupied := true;
      if reservation.Some? {
        attributes := attributes.(timeLimit := reservation.value);
      }
      StartTimer();
      sent := sent + [Report(ENTER, id, frame, time, plate)];
      entryTime := time;
    }

    method Overstayed(frame: Frame, time: int)
      modifies this
      ensures View() == Overstay(old(View()), frame, time)
    {
      overstayed := true;
      sent := sent + [Report(OVER, id, frame, time, NO_PLATE)];
    }

    method Exit(frame: Frame, time: int)
      modifies this
      ensures View() == ExitSpot(old(View()), frame, time)
    {
      occupied := false;
      overstayed := false;
      plateNumber := "";
      sent := sent + [Report(EXIT, id, frame, time, NO_PLATE)];
      StopTimer();
    }

    /** update(bool) */
    method UpdateStatus(th: Thresholds, detected: bool) returns (updated: bool)
      modifies this
      ensures View() == old(View()).(counter := Tick(th, old(View()).counter, detected))
      ensures updated <==> occupied != old(occupied)
    {
      updated := false;
      if detected {
        if occupiedFrameCounter < th.pos {
          occupiedFrameCounter := occupiedFrameCounter + 1;
        } else if occupiedFrameCounter - th.pos < th.pos {
          if !occupied {
            occupied := true;
            updated := true;
          }
          occupiedFrameCounter := occupiedFrameCounter + 1;
        }
      } else {
        if occupiedFrameCounter > th.neg {
          occupiedFrameCounter := occupiedFrameCounter - 1;
        } else if occupiedFrameCounter - th.neg > th.neg {
          if occupied {
            occupied := false;
            updated := true;
          }
          occupiedFrameCounter := occupiedFrameCounter - 1;
        }
      }
    }

    /** The body of the loop in updateSpots. */
    method ProcessFrame(th: Thresholds, detected: bool, frame: Frame, now: int, reservation: Option<int>)
      modifies this
      ensures View() == SeeFrame(old(View()), th, detected, frame, now, reservation)
    {
      var updated := UpdateStatus(th, detected);
      if updated {
        if occupied {
          Enter(frame, now, NO_PLATE, reservation);
        } else {
          Exit(frame, now);
        }
      }
    }

    /** update(spotName, timeLimit, roi, policy) */
    method Update(newAttributes: Attributes) returns (accepted: bool)
      modifies this
      ensures View() == UpdateAttributes(old(View()), newAttributes)
      ensures accepted <==> !(old(occupied) && !old(overstayed))
    {
      if occupied && !overstayed {
        return false;
      }
      attributes := newAttributes;
      accepted := true;
    }

    method Reset()
      modifies this
      ensures View() == ResetSpot(old(View()))
    {
      StopTimer();
      occupied := false;
      overstayed := false;
      updateEnabled := true;
      occupiedFrameCounter := 0;
    }

    method Expired(frame: Frame)
      modifies this
      ensures View() == NotifyExpiration(old(View()), frame)
    {
      if occupied {
        Overstayed(frame, entryTime + attributes.timeLimit);
      }
    }
  }

  // ------------------------------------------------------------------ runs

  /** What the two threads do to a spot, one atomic step each. The thresholds are those of the moment. */
  datatype Event =
    | OneFrame(th: Thresholds, detected: bool, frame: Frame, now: int, reservation: Option<int>)
    | Expire                        // the deadline passes: the pending wait ends
    | RunHandler(image: Frame)      // the timer thread runs one ready handler
    | Reset                         // the manager resets the spot
    | Change(attributes: Attributes)  // the manager sends new attributes

  function Happen(s: Spot, e: Event): Spot {
    match e
    case OneFrame(th, detected, frame, now, reservation) => SeeFrame(s, th, detected, frame, now, reservation)
    case Expire => s.(timer := CancelTimer(s.timer))
    case RunHandler(image) =>
      if s.timer.ready == 0 then s
      else NotifyExpiration(s.(timer := s.timer.(ready := s.timer.ready - 1)), image)
    case Reset => ResetSpot(s)
    case Change(attributes) => UpdateAttributes(s, attributes)
  }

  function HappenAll(s: Spot, events: seq<Event>): Spot
    decreases |events|
  {
    if events == [] then s else Happen(HappenAll(s, events[..|events| - 1]), events[|events| - 1])
  }
}
