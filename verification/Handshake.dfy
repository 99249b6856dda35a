/**
 * The suspend/resume handshake between the main loop (MainInterface::run) and the thread that
 * serves the parking manager (TCPSocketListener::update). Both threads are sequences of atomic
 * steps, one program counter each. A condition variable is the set of threads asleep on it, so
 * `wait` is one step (release the mutex and fall asleep), and the woken thread first takes its
 * mutex back.
 */
module Handshake {
  import opened Wrappers

  datatype Owner = Free | ByMain | ByListener

  datatype MainPc =
    | LoopTop          // about to test the loop condition and ManagementMode
    | Updating         // inside updateSpots, which walks the spot table
    | LockEntrance     // lockEnter(MutexEntrace)
    | LockExit         // lockExit(MutexExit)
    | UnlockEntrance   // lockEnter.unlock()
    | NotifySender     // SenderCV.notify_all()
    | WaitReceiver     // ReceiverCV.wait(lockExit)
    | AsleepReceiver   // asleep inside that wait
    | RelockExit       // woken, taking MutexExit back
    | LeaveBranch      // end of the branch: lockExit is released
    | Finished         // run() has returned

  datatype ListenerPc =
    | Idle             // no update request being served
    | LockForSuspend   // lock(MutexEntrace)
    | RaiseFlag        // ManagementMode = true
    | WaitSender       // SenderCV.wait(lock)
    | AsleepSender     // asleep inside that wait
    | RelockEntrance   // woken, taking MutexEntrace back
    | ReleaseEntrance  // end of suspendMainThread: lock is released
    | Editing          // the body of update: thresholds and spot table change
    | LowerFlag        // ManagementMode = false
    | NotifyReceiver   // ReceiverCV.notify_all()

  /** The shared MutualConditionVariable, the two program counters and three event counters. */
  datatype State = State(
    main: MainPc, listener: ListenerPc, managementMode: bool, entrance: Owner, exit: Owner,
    suspends: nat, passes: nat, resumes: nat)

  const INITIAL := State(LoopTop, Idle, false, Free, Free, 0, 0, 0)

  /**
   * What the scheduler picks next. `stops` and `frameEmpty` are the outcomes of the loop condition
   * and of the frame test in the main loop, `throws` that of reading and parsing the update message.
   */
  datatype Choice = Main(stops: bool, frameEmpty: bool) | Listener(throws: bool)

  /** One step of the main thread; None when it is blocked or has returned. */
  function StepMain(s: State, stops: bool, frameEmpty: bool): Option<State> {
    match s.main
    case LoopTop =>
      if stops then Some(s.(main := Finished))
      else if s.managementMode then Some(s.(main := LockEntrance))
      else if frameEmpty then Some(s.(main := Finished))
      else Some(s.(main := Updating))
    case Updating => Some(s.(main := LoopTop))
    case LockEntrance =>
      if s.entrance == Free then Some(s.(main := LockExit, entrance := ByMain)) else None
    case LockExit =>
      if s.exit == Free then Some(s.(main := UnlockEntrance, exit := ByMain)) else None
    case UnlockEntrance => Some(s.(main := NotifySender, entrance := Free))
    case NotifySender =>
      var woken := if s.listener == AsleepSender then RelockEntrance else s.listener;
      Some(s.(main := WaitReceiver, listener := woken, passes := s.passes + 1))
    case WaitReceiver => Some(s.(main := AsleepReceiver, exit := Free))
    case AsleepReceiver => None
    case RelockExit =>
      if s.exit == Free then Some(s.(main := LeaveBranch, exit := ByMain)) else None
    case LeaveBranch => Some(s.(main := LoopTop, exit := Free))
    case Finished => None
  }

  /** One step of the listener thread; None when it is blocked. */
  function StepListener(s: State, throws: bool): Option<State> {
    match s.listener
    case Idle => Some(s.(listener := LockForSuspend))
    case LockForSuspend =>
      if s.entrance == Free then Some(s.(listener := RaiseFlag, entrance := ByListener)) else None
    case RaiseFlag =>
      Some(s.(listener := WaitSender, managementMode := true, suspends := s.suspends + 1))
    case WaitSender => Some(s.(listener := AsleepSender, entrance := Free))
    case AsleepSender => None
    case RelockEntrance =>
      if s.entrance == Free then Some(s.(listener := ReleaseEntrance, entrance := ByListener)) else None
    case ReleaseEntrance => Some(s.(listener := Editing, entrance := Free))
    case Editing => Some(s.(listener := if throws then Idle else LowerFlag))
    case LowerFlag => Some(s.(listener := NotifyReceiver, managementMode := false))
    case NotifyReceiver =>
      var woken := if s.main == AsleepReceiver then RelockExit else s.main;
      Some(s.(main := woken, listener := Idle, resumes := s.resumes + 1))
  }

  function Step(s: State, c: Choice): Option<State> {
    match c
    case Main(stops, frameEmpty) => StepMain(s, stops, frameEmpty)
    case Listener(throws) => StepListener(s, throws)
  }

  /** Run a schedule; a choice whose thread is blocked leaves the state as it is. */
  function Run(s: State, schedule: seq<Choice>): State
    decreases |schedule|
  {
    if schedule == [] then s
    else
      var before := Run(s, schedule[..|schedule| - 1]);
      match Step(before, schedule[|schedule| - 1])
      case Some(after) => after
      case None => before
  }

  /** The listener owns the spot table: it was woken and has not yet notified back. */
  predicate ListenerHoldsTable(l: ListenerPc) {
    l == RelockEntrance || l == ReleaseEntrance || l == Editing || l == LowerFlag || l == NotifyReceiver
  }

  predicate BothAsleep(s: State) {
    s.main == AsleepReceiver && s.listener == AsleepSender
  }

  /**
   * The two ways a round goes wrong: the resume notification is sent while the main thread has
   * not fallen asleep yet, or an exception leaves `update` between suspend and resume.
   */
  predicate Hazard(s: State, c: Choice) {
    c.Listener? &&
    ((s.listener == NotifyReceiver && s.main == WaitReceiver) || (s.listener == Editing && c.throws))
  }

  predicate HazardFree(s: State, schedule: seq<Choice>) {
    forall i :: 0 <= i < |schedule| ==> !Hazard(Run(s, schedule[..i]), schedule[i])
  }

  // ------------------------------------------------------------------ the inductive invariant

  /** Mutex ownership and round counters, in every reachable state. */
  predicate Consistent(s: State) {
    && (s.entrance == ByMain <==> s.main == LockExit || s.main == UnlockEntrance)
    && (s.entrance == ByListener <==>
          s.listener == RaiseFlag || s.listener == WaitSender || s.listener == ReleaseEntrance)
    && (s.exit == ByMain <==>
          s.main == UnlockEntrance || s.main == NotifySender || s.main == WaitReceiver || s.main == LeaveBranch)
    && s.exit != ByListener
    && s.suspends == s.passes + (if s.listener == WaitSender || s.listener == AsleepSender then 1 else 0)
  }

  /** The states of runs in which nothing has gone wrong yet. */
  predicate Normal(s: State) {
    && Consistent(s)
    && (s.managementMode <==>
          s.listener != Idle && s.listener != LockForSuspend && s.listener != RaiseFlag && s.listener != NotifyReceiver)
    && (ListenerHoldsTable(s.listener) <==> s.main == WaitReceiver || s.main == AsleepReceiver)
    && (s.main == LockEntrance ==> s.listener == WaitSender || s.listener == AsleepSender)
    && (s.main == LockExit || s.main == UnlockEntrance || s.main == NotifySender ==> s.listener == AsleepSender)
    && s.resumes + (if ListenerHoldsTable(s.listener) then 1 else 0) == s.passes
  }

  /** The states after a lost round: the main thread is inside its wait and nobody will wake it. */
  predicate Lost(s: State) {
    && Consistent(s)
    && (s.main == WaitReceiver || s.main == AsleepReceiver)
    && !ListenerHoldsTable(s.listener)
  }

  lemma NormalMainStep(s: State, stops: bool, frameEmpty: bool)
    requires Normal(s) && StepMain(s, stops, frameEmpty).Some?
    ensures Normal(StepMain(s, stops, frameEmpty).value)
  {
  }

  lemma NormalListenerStep(s: State, throws: bool)
    requires Normal(s) && StepListener(s, throws).Some?
    ensures var next := StepListener(s, throws).value;
            if Hazard(s, Listener(throws)) then Lost(next) else Normal(next)
  {
  }

  lemma NormalStep(s: State, c: Choice)
    requires Normal(s) && Step(s, c).Some?
    ensures if Hazard(s, c) then Lost(Step(s, c).value) else Normal(Step(s, c).value)
  {
    hide Normal, Lost, StepMain, StepListener;
    match c
    case Main(stops, frameEmpty) => NormalMainStep(s, stops, frameEmpty);
    case Listener(throws) => NormalListenerStep(s, throws);
  }

  lemma LostStep(s: State, c: Choice)
    requires Lost(s) && Step(s, c).Some?
    ensures Lost(Step(s, c).value)
  {
    match c case Main(_, _) => case Listener(_) =>
  }

  lemma {:induction false} RunSplit(s: State, a: seq<Choice>, b: seq<Choice>)
    ensures Run(s, a + b) == Run(Run(s, a), b)
    decreases |b|
  {
    if b == [] {
      assert a + b == a;
    } else {
      RunSplit(s, a, b[..|b| - 1]);
      assert (a + b)[..|a + b| - 1] == a + b[..|b| - 1];
    }
  }

  lemma InitiallyNormal()
    ensures Normal(INITIAL)
  {
  }

  /** A run is free of hazards when everything before its last step and that step are. */
  lemma HazardFreeStep(s: State, schedule: seq<Choice>)
    requires schedule != []
    ensures var n := |schedule| - 1;
            HazardFree(s, schedule) <==> HazardFree(s, schedule[..n]) && !Hazard(Run(s, schedule[..n]), schedule[n])
  {
    hide Run, Hazard;
    var n := |schedule| - 1;
    var init := schedule[..n];
    assert forall i :: 0 <= i < n ==> schedule[..i] == init[..i] && schedule[i] == init[i];
    if HazardFree(s, schedule) {
      forall i | 0 <= i < n ensures !Hazard(Run(s, init[..i]), init[i]) {
        assert !Hazard(Run(s, schedule[..i]), schedule[i]);
      }
    }
  }

  /** Every run ends in a normal state or a lost one, and in a normal one exactly if it met no hazard. */
  lemma {:induction false} Reachable(schedule: seq<Choice>)
    ensures var s := Run(INITIAL, schedule);
            (HazardFree(INITIAL, schedule) ==> Normal(s)) && (!HazardFree(INITIAL, schedule) ==> Lost(s))
    decreases |schedule|
  {
    hide Normal, Lost, StepMain, StepListener, HazardFree;
    if schedule == [] {
      InitiallyNormal();
      assert HazardFree(INITIAL, []) by { HazardFreeInitially(); }
    } else {
      var init, c := schedule[..|schedule| - 1], schedule[|schedule| - 1];
      Reachable(init);
      HazardFreeStep(INITIAL, schedule);
      var before := Run(INITIAL, init);
      if Step(before, c).None? {
        if HazardFree(INITIAL, init) { BlockedIsNoHazard(before, c); }
      } else if HazardFree(INITIAL, init) {
        NormalStep(before, c);
      } else {
        LostStep(before, c);
      }
    }
  }

  lemma HazardFreeInitially()
    ensures HazardFree(INITIAL, [])
  {
  }

  lemma BlockedIsNoHazard(s: State, c: Choice)
    requires Step(s, c).None?
    ensures !Hazard(s, c)
  {
  }

  // ------------------------------------------------------------------ what the handshake is for

  /**
   * Safety, in every interleaving (hazards included): while the listener owns the spot table the
   * main thread is past its sender notification and still inside the management branch, so it
   * never walks the table that is being edited.
   */
  lemma TableIsNeverShared(schedule: seq<Choice>)
    ensures var s := Run(INITIAL, schedule);
            ListenerHoldsTable(s.listener) ==> s.main == WaitReceiver || s.main == AsleepReceiver
    ensures var s := Run(INITIAL, schedule); !(s.main == Updating && s.listener == Editing)
  {
    Reachable(schedule);
  }

  /**
   * Rounds, in every interleaving: a sender notification always finds the listener asleep, and
   * every suspend is answered by one pass of the main thread through the branch before the next.
   */
  lemma SenderNotifyIsNeverLost(schedule: seq<Choice>)
    ensures var s := Run(INITIAL, schedule);
            s.main == NotifySender ==> s.listener == AsleepSender && s.suspends == s.passes + 1
    ensures var s := Run(INITIAL, schedule); s.passes <= s.suspends <= s.passes + 1
  {
    Reachable(schedule);
  }

  /** Both threads can be asleep only in a run that met a hazard. */
  lemma NoDeadlockWithoutHazard(schedule: seq<Choice>)
    requires HazardFree(INITIAL, schedule)
    ensures !BothAsleep(Run(INITIAL, schedule))
  {
    Reachable(schedule);
  }

  /** A run that met a hazard is never repaired: no continuation lets the main thread walk the table again. */
  lemma HazardIsForever(schedule: seq<Choice>, more: seq<Choice>)
    requires !HazardFree(INITIAL, schedule)
    ensures var s := Run(INITIAL, schedule + more); s.main == WaitReceiver || s.main == AsleepReceiver
  {
    var i :| 0 <= i < |schedule| && Hazard(Run(INITIAL, schedule[..i]), schedule[i]);
    assert (schedule + more)[..i] == schedule[..i] && (schedule + more)[i] == schedule[i];
    assert Hazard(Run(INITIAL, (schedule + more)[..i]), (schedule + more)[i]);
    Reachable(schedule + more);
  }

  /** From a lost state five listener steps and one main step at most put both threads to sleep. */
  lemma LostReachesDeadlock(s: State) returns (more: seq<Choice>)
    requires Lost(s)
    ensures BothAsleep(Run(s, more))
    decreases if s.main == WaitReceiver then 1 else 0,
              match s.listener
              case Idle => 4 case LockForSuspend => 3 case RaiseFlag => 2 case WaitSender => 1 case _ => 0
  {
    if BothAsleep(s) {
      more := [];
    } else {
      var c := if s.main == WaitReceiver then Main(false, false) else Listener(false);
      var next := Step(s, c).value;
      LostStep(s, c);
      var rest := LostReachesDeadlock(next);
      more := [c] + rest;
      assert Run(s, [c]) == next by { assert [c][..0] == []; }
      RunSplit(s, [c], rest);
    }
  }

  /**
   * The exact condition for deadlock. A run can still end with both threads asleep and the main
   * thread can never update again if and only if the run met a hazard.
   */
  lemma DeadlockExactlyAfterHazard(schedule: seq<Choice>)
    ensures !HazardFree(INITIAL, schedule) <==>
            forall more: seq<Choice> ::
              Run(INITIAL, schedule + more).main == WaitReceiver || Run(INITIAL, schedule + more).main == AsleepReceiver
    ensures !HazardFree(INITIAL, schedule) ==> exists more: seq<Choice> :: BothAsleep(Run(INITIAL, schedule + more))
  {
    Reachable(schedule);
    var s := Run(INITIAL, schedule);
    if HazardFree(INITIAL, schedule) {
      var more := ReturnToLoopTop(s);
      RunSplit(INITIAL, schedule, more);
      assert Run(INITIAL, schedule + more).main == LoopTop || Run(INITIAL, schedule + more).main == Finished;
    } else {
      forall more: seq<Choice>
        ensures var s := Run(INITIAL, schedule + more); s.main == WaitReceiver || s.main == AsleepReceiver
      {
        HazardIsForever(schedule, more);
      }
      var more := LostReachesDeadlock(s);
      RunSplit(INITIAL, schedule, more);
    }
  }

  lemma RunNext(schedule: seq<Choice>, c: Choice, next: State)
    requires Step(Run(INITIAL, schedule), c) == Some(next)
    ensures Run(INITIAL, schedule + [c]) == next
  {
    assert (schedule + [c])[..|schedule|] == schedule;
  }

  /** A first round up to the point where the listener edits and the main thread is about to wait. */
  lemma ReachEditing() returns (schedule: seq<Choice>)
    ensures Run(INITIAL, schedule) == State(WaitReceiver, Editing, true, Free, ByMain, 1, 1, 0)
  {
    hide Run;
    var main, listener := Main(false, false), Listener(false);
    schedule := [];
    assert Run(INITIAL, schedule) == INITIAL by { RunNothing(); }
    var states := [
      (listener, State(LoopTop, LockForSuspend, false, Free, Free, 0, 0, 0)),
      (listener, State(LoopTop, RaiseFlag, false, ByListener, Free, 0, 0, 0)),
      (listener, State(LoopTop, WaitSender, true, ByListener, Free, 1, 0, 0)),
      (listener, State(LoopTop, AsleepSender, true, Free, Free, 1, 0, 0)),
      (main, State(LockEntrance, AsleepSender, true, Free, Free, 1, 0, 0)),
      (main, State(LockExit, AsleepSender, true, ByMain, Free, 1, 0, 0)),
      (main, State(UnlockEntrance, AsleepSender, true, ByMain, ByMain, 1, 0, 0)),
      (main, State(NotifySender, AsleepSender, true, Free, ByMain, 1, 0, 0)),
      (main, State(WaitReceiver, RelockEntrance, true, Free, ByMain, 1, 1, 0)),
      (listener, State(WaitReceiver, ReleaseEntrance, true, ByListener, ByMain, 1, 1, 0)),
      (listener, State(WaitReceiver, Editing, true, Free, ByMain, 1, 1, 0))
    ];
    for i := 0 to |states|
      invariant Run(INITIAL, schedule) == if i == 0 then INITIAL else states[i - 1].1
    {
      RunNext(schedule, states[i].0, states[i].1);
      schedule := schedule + [states[i].0];
    }
  }

  lemma RunNothing()
    ensures Run(INITIAL, []) == INITIAL
  {
  }

  /** A choice that is a hazard where it is made, after a run that met none. */
  ghost predicate FirstHazard(schedule: seq<Choice>, c: Choice) {
    HazardFree(INITIAL, schedule) && Hazard(Run(INITIAL, schedule), c) && !HazardFree(INITIAL, schedule + [c])
  }

  lemma HazardAtLast(schedule: seq<Choice>, c: Choice)
    requires Hazard(Run(INITIAL, schedule), c)
    requires ListenerHoldsTable(Run(INITIAL, schedule).listener)
    ensures FirstHazard(schedule, c)
  {
    Reachable(schedule);
    HazardFreeStep(INITIAL, schedule + [c]);
    assert (schedule + [c])[..|schedule|] == schedule;
  }

  /** The first kind of hazard occurs: a resume notification before the main thread has fallen asleep. */
  lemma EarlyResumeHappens() returns (schedule: seq<Choice>)
    ensures Run(INITIAL, schedule).listener == NotifyReceiver && Run(INITIAL, schedule).main == WaitReceiver
    ensures FirstHazard(schedule, Listener(false))
  {
    hide Run;
    schedule := ReachEditing();
    RunNext(schedule, Listener(false), State(WaitReceiver, LowerFlag, true, Free, ByMain, 1, 1, 0));
    schedule := schedule + [Listener(false)];
    RunNext(schedule, Listener(false), State(WaitReceiver, NotifyReceiver, false, Free, ByMain, 1, 1, 0));
    schedule := schedule + [Listener(false)];
    HazardAtLast(schedule, Listener(false));
  }

  /** So does the second kind: an exception leaves the update. */
  lemma ThrowHappens() returns (schedule: seq<Choice>)
    ensures Run(INITIAL, schedule).listener == Editing
    ensures FirstHazard(schedule, Listener(true))
  {
    hide Run;
    schedule := ReachEditing();
    HazardAtLast(schedule, Listener(true));
  }

  /** Deadlock is real: each kind of hazard, in an otherwise undisturbed first round, is followed by one. */
  lemma DeadlockHappens()
    returns (early: seq<Choice>, afterEarly: seq<Choice>, thrown: seq<Choice>, afterThrown: seq<Choice>)
    ensures Run(INITIAL, early).listener == NotifyReceiver && FirstHazard(early, Listener(false))
    ensures BothAsleep(Run(INITIAL, early + [Listener(false)] + afterEarly))
    ensures Run(INITIAL, thrown).listener == Editing && FirstHazard(thrown, Listener(true))
    ensures BothAsleep(Run(INITIAL, thrown + [Listener(true)] + afterThrown))
  {
    hide Run, HazardFree, Hazard;
    early := EarlyResumeHappens();
    DeadlockExactlyAfterHazard(early + [Listener(false)]);
    afterEarly :| BothAsleep(Run(INITIAL, early + [Listener(false)] + afterEarly));
    thrown := ThrowHappens();
    DeadlockExactlyAfterHazard(thrown + [Listener(true)]);
    afterThrown :| BothAsleep(Run(INITIAL, thrown + [Listener(true)] + afterThrown));
  }

  /** Main-thread steps left before the top of its loop. */
  function MainRank(pc: MainPc): nat {
    match pc
    case LoopTop => 0 case Finished => 0 case Updating => 1 case LeaveBranch => 1 case RelockExit => 2
    case AsleepReceiver => 3 case WaitReceiver => 4 case NotifySender => 5 case UnlockEntrance => 6
    case LockExit => 7 case LockEntrance => 8
  }

  /** Listener steps left before it is idle again. */
  function ListenerRank(pc: ListenerPc): nat {
    match pc
    case Idle => 0 case NotifyReceiver => 1 case LowerFlag => 2 case Editing => 3 case ReleaseEntrance => 4
    case RelockEntrance => 5 case AsleepSender => 6 case WaitSender => 7 case RaiseFlag => 8 case LockForSuspend => 9
  }

  /** From every normal state some hazard-free continuation brings the main thread back to its loop. */
  lemma ReturnToLoopTop(s: State) returns (more: seq<Choice>)
    requires Normal(s)
    ensures HazardFree(s, more)
    ensures Normal(Run(s, more)) && (Run(s, more).main == LoopTop || Run(s, more).main == Finished)
    decreases MainRank(s.main), ListenerRank(s.listener)
  {
    if s.main == LoopTop || s.main == Finished {
      more := [];
    } else {
      var c :=
        if s.main == AsleepReceiver || (s.main == LockEntrance && s.listener == WaitSender)
        then Listener(false) else Main(false, false);
      var next := Step(s, c).value;
      NormalStep(s, c);
      var rest := ReturnToLoopTop(next);
      more := [c] + rest;
      assert Run(s, [c]) == next by { assert [c][..0] == []; }
      RunSplit(s, [c], rest);
      HazardFreeFirst(s, c, rest);
    }
  }

  lemma HazardFreeFirst(s: State, c: Choice, rest: seq<Choice>)
    requires !Hazard(s, c) && HazardFree(Run(s, [c]), rest)
    ensures HazardFree(s, [c] + rest)
  {
    hide Hazard;
    var more := [c] + rest;
    forall i | 0 <= i < |more| ensures !Hazard(Run(s, more[..i]), more[i]) {
      if i > 0 {
        assert more[..i] == [c] + rest[..i - 1];
        RunSplit(s, [c], rest[..i - 1]);
      }
    }
  }

  /** The main loop returns here: its condition fails, or it meets an empty frame outside the branch. */
  predicate Returns(s: State, c: Choice) {
    c.Main? && s.main == LoopTop && (c.stops || (c.frameEmpty && !s.managementMode))
  }

  predicate Returned(schedule: seq<Choice>) {
    exists i :: 0 <= i < |schedule| && Returns(Run(INITIAL, schedule[..i]), schedule[i])
  }

  lemma ReturnedStep(schedule: seq<Choice>)
    requires schedule != []
    ensures var n := |schedule| - 1;
            Returned(schedule) <==> Returned(schedule[..n]) || Returns(Run(INITIAL, schedule[..n]), schedule[n])
  {
    hide Run, Returns;
    var n := |schedule| - 1;
    var init := schedule[..n];
    assert forall i :: 0 <= i < n ==> schedule[..i] == init[..i] && schedule[i] == init[i];
    if Returned(init) {
      var i :| 0 <= i < n && Returns(Run(INITIAL, init[..i]), init[i]);
      assert Returns(Run(INITIAL, schedule[..i]), schedule[i]);
    }
    if Returned(schedule) {
      var i :| 0 <= i < |schedule| && Returns(Run(INITIAL, schedule[..i]), schedule[i]);
      if i < n { assert Returns(Run(INITIAL, init[..i]), init[i]); }
    }
  }

  lemma StepReturns(s: State, c: Choice)
    ensures match Step(s, c)
            case Some(next) => next.main == Finished <==> s.main == Finished || Returns(s, c)
            case None => !Returns(s, c)
  {
  }

  /** The main loop has returned exactly when its condition failed, or it met an empty frame, at the top of the loop. */
  lemma {:induction false} MainReturnsExactly(schedule: seq<Choice>)
    ensures Run(INITIAL, schedule).main == Finished <==> Returned(schedule)
    decreases |schedule|
  {
    hide Returns, Step, Returned;
    if schedule == [] {
      assert !Returned([]) by { NothingReturned(); }
    } else {
      var n := |schedule| - 1;
      MainReturnsExactly(schedule[..n]);
      ReturnedStep(schedule);
      StepReturns(Run(INITIAL, schedule[..n]), schedule[n]);
    }
  }

  lemma NothingReturned()
    ensures !Returned([])
  {
  }

  /** While it is asked to go on and frames arrive, the main loop never returns, however often it is suspended. */
  lemma KeepsRunning(schedule: seq<Choice>)
    requires forall i :: 0 <= i < |schedule| && schedule[i].Main? ==> !schedule[i].stops && !schedule[i].frameEmpty
    ensures Run(INITIAL, schedule).main != Finished
  {
    MainReturnsExactly(schedule);
  }

  /** Main-thread steps left before the next update of the spots; a pending suspend is served first. */
  function UpdateRank(s: State): nat {
    if s.listener == WaitSender || s.listener == AsleepSender then
      match s.main
      case Updating => 0 case NotifySender => 7 case UnlockEntrance => 8 case LockExit => 9 case LockEntrance => 10
      case LoopTop => 11 case LeaveBranch => 12 case RelockExit => 13 case _ => 14
    else
      match s.main
      case Updating => 0 case LoopTop => 1 case LeaveBranch => 2 case RelockExit => 3
      case AsleepReceiver => 4 case WaitReceiver => 5 case _ => 6
  }

  /** From every normal state whose main loop has not returned, some hazard-free continuation updates the spots. */
  lemma UpdatesAgain(s: State) returns (more: seq<Choice>)
    requires Normal(s) && s.main != Finished
    ensures HazardFree(s, more) && Normal(Run(s, more)) && Run(s, more).main == Updating
    decreases UpdateRank(s), ListenerRank(s.listener)
  {
    if s.main == Updating {
      more := [];
    } else {
      var c :=
        if s.main == AsleepReceiver || (s.main == LockEntrance && s.listener == WaitSender)
        then Listener(false) else Main(false, false);
      var next := Step(s, c).value;
      NormalStep(s, c);
      var rest := UpdatesAgain(next);
      more := [c] + rest;
      assert Run(s, [c]) == next by { assert [c][..0] == []; }
      RunSplit(s, [c], rest);
      HazardFreeFirst(s, c, rest);
    }
  }

  /** Main-thread steps left before it wakes a listener that is asleep. */
  function WakeRank(pc: MainPc): nat {
    match pc
    case RelockExit => 8 case LeaveBranch => 7 case Updating => 7 case LoopTop => 6 case LockEntrance => 5
    case LockExit => 4 case UnlockEntrance => 3 case NotifySender => 2 case WaitReceiver => 1 case _ => 0
  }

  /**
   * An update request can always be carried through while the main loop runs: from every normal state
   * some hazard-free continuation ends it with one resume, and the listener is ready for the next.
   */
  lemma RequestIsServed(s: State) returns (more: seq<Choice>)
    requires Normal(s) && s.main != Finished
    ensures HazardFree(s, more) && Normal(Run(s, more)) && Run(s, more).listener == Idle
    ensures Run(s, more).resumes == s.resumes + (if s.listener == Idle then 0 else 1)
    ensures Run(s, more).suspends
            == s.suspends + (if s.listener == LockForSuspend || s.listener == RaiseFlag then 1 else 0)
    decreases ListenerRank(s.listener), WakeRank(s.main)
  {
    if s.listener == Idle {
      more := [];
    } else {
      var c :=
        if s.listener == AsleepSender || (s.listener == NotifyReceiver && s.main == WaitReceiver)
        then Main(false, false) else Listener(false);
      var next := Step(s, c).value;
      NormalStep(s, c);
      var rest := RequestIsServed(next);
      more := [c] + rest;
      assert Run(s, [c]) == next by { assert [c][..0] == []; }
      RunSplit(s, [c], rest);
      HazardFreeFirst(s, c, rest);
    }
  }

  // ------------------------------------------------------------------ the state the threads share

  /**
   * The object both threads work on, with one method per thread that performs its next atomic
   * step in place. `moved` is false when the thread is blocked.
   */
  class MutualConditionVariable {
    var main: MainPc
    var listener: ListenerPc
    var managementMode: bool
    var entrance: Owner
    var exit: Owner
    ghost var suspends: nat
    ghost var passes: nat
    ghost var resumes: nat

    ghost function View(): State
      reads this
    {
      State(main, listener, managementMode, entrance, exit, suspends, passes, resumes)
    }

    constructor ()
      ensures View() == INITIAL
    {
      main, listener, managementMode, entrance, exit := LoopTop, Idle, false, Free, Free;
      suspends, passes, resumes := 0, 0, 0;
    }

    method MainStep(stops: bool, frameEmpty: bool) returns (moved: bool)
      modifies this
      ensures moved == StepMain(old(View()), stops, frameEmpty).Some?
      ensures View() == if moved then StepMain(old(View()), stops, frameEmpty).value else old(View())
    {
      moved := true;
      match main {
        case LoopTop =>
          if stops { main := Finished; }
          else if managementMode { main := LockEntrance; }
          else if frameEmpty { main := Finished; }
          else { main := Updating; }
        case Updating => main := LoopTop;
        case LockEntrance =>
          if entrance == Free { entrance := ByMain; main := LockExit; } else { moved := false; }
        case LockExit =>
          if exit == Free { exit := ByMain; main := UnlockEntrance; } else { moved := false; }
        case UnlockEntrance => entrance := Free; main := NotifySender;
        case NotifySender =>
          if listener == AsleepSender { listener := RelockEntrance; }
          passes := passes + 1;
          main := WaitReceiver;
        case WaitReceiver => exit := Free; main := AsleepReceiver;
        case AsleepReceiver => moved := false;
        case RelockExit =>
          if exit == Free { exit := ByMain; main := LeaveBranch; } else { moved := false; }
        case LeaveBranch => exit := Free; main := LoopTop;
        case Finished => moved := false;
      }
    }

    method ListenerStep(throws: bool) returns (moved: bool)
      modifies this
      ensures moved == StepListener(old(View()), throws).Some?
      ensures View() == if moved then StepListener(old(View()), throws).value else old(View())
    {
      moved := true;
      match listener {
        case Idle => listener := LockForSuspend;
        case LockForSuspend =>
          if entrance == Free { entrance := ByListener; listener := RaiseFlag; } else { moved := false; }
        case RaiseFlag => managementMode := true; suspends := suspends + 1; listener := WaitSender;
        case WaitSender => entrance := Free; listener := AsleepSender;
        case AsleepSender => moved := false;
        case RelockEntrance =>
          if entrance == Free { entrance := ByListener; listener := ReleaseEntrance; } else { moved := false; }
        case ReleaseEntrance => entrance := Free; listener := Editing;
        case Editing => if throws { listener := Idle; } else { listener := LowerFlag; }
        case LowerFlag => managementMode := false; listener := NotifyReceiver;
        case NotifyReceiver =>
          if main == AsleepReceiver { main := RelockExit; }
          resumes := resumes + 1;
          listener := Idle;
      }
    }
  }
}
