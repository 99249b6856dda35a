/**
 * The message queue as a monitor: any number of producers in push and one consumer in
 * wait_and_pop, interleaved at their critical sections. push releases the mutex before it
 * notifies, so a notification may still be under way when the consumer looks at the queue.
 */
module QueueMonitor {
  import opened Wrappers
  import opened UpdateMessage
  import opened MessageQueue
  import opened MessageQueueProofs
  import opened MessageOrder

  /** Running: outside wait. Asleep: inside wait. Notified: woken, about to test the queue again. */
  datatype Consumer = Running | Asleep | Notified

  /** received: what wait_and_pop has handed over. */
  datatype Monitor = Monitor(s: QueueState, consumer: Consumer, pendingNotifies: nat, received: seq<Message>)

  const START := Monitor(EMPTY, Running, 0, [])

  datatype Action =
    | Insert(message: Message, diskOk: bool)  // the critical section of push
    | Notify                                  // its notify_one, after the unlock
    | Enter(pick: Option<string>)             // wait_and_pop: lock, load, test, and pop or fall asleep
    | Wake                                    // return from wait: test again, and pop or fall asleep

  /** Pop the front, or fall asleep when there is none. */
  function PopOrSleep(w: Monitor): Monitor {
    if w.s.queue == [] then w.(consumer := Asleep)
    else w.(s := PopFrom(w.s).0, consumer := Running, received := w.received + [w.s.queue[0]])
  }

  /**
   * An action whose thread is not at that point leaves the state as it is, and so does an exception
   * that leaves wait_and_pop.
   */
  function Act(w: Monitor, a: Action): Monitor {
    match a
    case Insert(m, diskOk) => w.(s := PushTo(w.s, m, diskOk), pendingNotifies := w.pendingNotifies + 1)
    case Notify =>
      if w.pendingNotifies == 0 then w
      else
        w.(consumer := if w.consumer == Asleep then Notified else w.consumer,
           pendingNotifies := w.pendingNotifies - 1)
    case Enter(pick) => 
      if w.consumer == Running && !Throws(w.s, pick) then PopOrSleep(w.(s := LoadInto(w.s, pick))) else w
    case Wake => if w.consumer == Notified then PopOrSleep(w) else w
  }

  function ActAll(w: Monitor, actions: seq<Action>): Monitor
    decreases |actions|
  {
    if actions == [] then w else Act(ActAll(w, actions[..|actions| - 1]), actions[|actions| - 1])
  }

  /** Every directory scan of a non-empty folder finds, loads and removes a file. */
  predicate LoadSucceeds(w: Monitor, a: Action) {
    a.Enter? && w.s.folder != map[] ==> LoadMessage(w.s.folder, a.pick).Loaded?
  }

  predicate AllLoadsSucceed(actions: seq<Action>) {
    forall i :: 0 <= i < |actions| ==> LoadSucceeds(ActAll(START, actions[..i]), actions[i])
  }

  /** Holds in every run: each message that waits for a sleeping consumer has its notification still to come. */
  predicate Watched(w: Monitor) {
    && |w.s.queue| <= MAX_SIZE && w.s.numStoredData >= |w.s.folder|
    && (w.consumer == Asleep ==> |w.s.queue| <= w.pendingNotifies)
  }

  /** Holds as long as loads succeed: a waiting consumer leaves files behind only while memory is full. */
  predicate DiskWatched(w: Monitor) {
    w.consumer != Running && w.s.folder != map[] ==> |w.s.queue| == MAX_SIZE
  }

  lemma PushBounds(s: QueueState, m: Message, diskOk: bool)
    requires |s.queue| <= MAX_SIZE && s.numStoredData >= |s.folder|
    ensures var s' := PushTo(s, m, diskOk);
            && |s'.queue| <= MAX_SIZE && s'.numStoredData >= |s'.folder|
            && |s.queue| <= |s'.queue| <= |s.queue| + 1
            && (|s.queue| < MAX_SIZE ==> s'.folder == s.folder)
            && (|s.queue| == MAX_SIZE ==> s'.queue == s.queue)
  {
    hide Filename;
    if |s.queue| == MAX_SIZE && CanSave(m, diskOk) {
      FolderSizes(s.folder, Filename(m), m.frame);
    }
  }

  lemma LoadBounds(s: QueueState, pick: Option<string>)
    requires |s.queue| <= MAX_SIZE && s.numStoredData >= |s.folder|
    ensures var s' := LoadInto(s, pick);
            && |s'.queue| <= MAX_SIZE && s'.numStoredData >= |s'.folder|
            && (s'.queue == [] ==> s' == s && (s.folder != map[] ==> !LoadMessage(s.folder, pick).Loaded?))
  {
    hide LoadMessage;
    if Loads(s, pick) {
      PickInFolder(s.folder, pick);
      FolderSizes(s.folder, pick.value, s.folder[pick.value]);
    } else if s.folder != map[] {
      assert |s.folder| > 0;
    }
  }

  lemma ActWatched(w: Monitor, a: Action)
    requires Watched(w)
    ensures Watched(Act(w, a))
    ensures DiskWatched(w) && LoadSucceeds(w, a) ==> DiskWatched(Act(w, a))
  {
    hide LoadMessage, LoadInto, PushTo, Throws;
    match a
    case Insert(m, diskOk) => PushBounds(w.s, m, diskOk);
    case Notify =>
    case Enter(pick) => LoadBounds(w.s, pick);
    case Wake =>
  }

  lemma InitiallyWatched()
    ensures Watched(START) && DiskWatched(START)
  {
  }

  lemma {:induction false} AlwaysWatched(actions: seq<Action>)
    ensures Watched(ActAll(START, actions))
    ensures AllLoadsSucceed(actions) ==> DiskWatched(ActAll(START, actions))
    decreases |actions|
  {
    hide Act, Watched, DiskWatched, LoadSucceeds;
    if actions == [] {
      InitiallyWatched();
    } else {
      var n := |actions| - 1;
      AlwaysWatched(actions[..n]);
      ActWatched(ActAll(START, actions[..n]), actions[n]);
      if AllLoadsSucceed(actions) {
        assert LoadSucceeds(ActAll(START, actions[..n]), actions[n]);
        assert forall i :: 0 <= i < n ==> actions[..n][..i] == actions[..i] && actions[..n][i] == actions[i];
        assert AllLoadsSucceed(actions[..n]);
      }
    }
  }

  /**
   * No wakeup is lost, in any interleaving: when every push has sent its notification, a sleeping
   * consumer leaves nothing in memory, and, if loads succeed, nothing on disk either.
   */
  lemma NoLostWakeup(actions: seq<Action>)
    ensures var w := ActAll(START, actions);
            w.consumer == Asleep && w.pendingNotifies == 0 ==> w.s.queue == []
    ensures var w := ActAll(START, actions);
            w.consumer == Asleep && w.pendingNotifies == 0 && AllLoadsSucceed(actions) ==> w.s.folder == map[]
  {
    AlwaysWatched(actions);
  }

  /** If loads succeed, wait_and_pop falls asleep only on an empty queue and an empty disk. */
  lemma SleepsOnlyOnEmpty(actions: seq<Action>, a: Action)
    requires AllLoadsSucceed(actions + [a])
    ensures var w, w' := ActAll(START, actions), Act(ActAll(START, actions), a);
            w.consumer != Asleep && w'.consumer == Asleep ==> w'.s.queue == [] && w'.s.folder == map[]
  {
    AlwaysWatched(actions + [a]);
    assert (actions + [a])[..|actions|] == actions;
    assert ActAll(START, actions + [a]) == Act(ActAll(START, actions), a);
    hide LoadMessage, LoadInto, PushTo;
  }

  /** A message that waits for a sleeping consumer is delivered by the next notification and wakeup. */
  lemma NotificationDelivers(actions: seq<Action>)
    ensures var w := ActAll(START, actions);
            w.consumer == Asleep && w.s.queue != [] ==>
              var w' := Act(Act(w, Notify), Wake);
              && w'.consumer == Running && w'.s.queue == w.s.queue[1..]
              && w'.received == w.received + [w.s.queue[0]]
  {
    AlwaysWatched(actions);
  }

  /**
   * wait_and_pop returns if and only if the queue is not empty after its load, with the message at the
   * front; on an empty queue it falls asleep; and if its load throws, nothing has changed.
   */
  lemma EnterReturnsExactly(w: Monitor, pick: Option<string>)
    requires w.consumer == Running
    ensures Throws(w.s, pick) ==> Act(w, Enter(pick)) == w
    ensures !Throws(w.s, pick) ==>
              var loaded, w' := LoadInto(w.s, pick), Act(w, Enter(pick));
              if loaded.queue == [] then w' == w.(s := loaded, consumer := Asleep)
              else w' == w.(s := loaded.(queue := loaded.queue[1..]), received := w.received + [loaded.queue[0]])
  {
    hide Throws, LoadInto;
  }

  /** A woken consumer does the same without loading. */
  lemma WakeReturnsExactly(w: Monitor)
    requires w.consumer == Notified
    ensures w.s.queue == [] ==> Act(w, Wake) == w.(consumer := Asleep)
    ensures w.s.queue != [] ==>
              Act(w, Wake)
              == w.(s := w.s.(queue := w.s.queue[1..]), consumer := Running, received := w.received + [w.s.queue[0]])
  {
  }

  /** The operation on the queue that an action performs, if any. */
  function OpsOf(w: Monitor, a: Action): seq<Op> {
    match a
    case Insert(m, diskOk) => [DoPush(m, diskOk)]
    case Notify => []
    case Enter(pick) => if w.consumer == Running then [DoPop(pick)] else []
    case Wake => if w.consumer == Notified then [DoPopAgain] else []
  }

  function AllOpsOf(actions: seq<Action>): seq<Op>
    decreases |actions|
  {
    if actions == [] then []
    else
      var init := actions[..|actions| - 1];
      AllOpsOf(init) + OpsOf(ActAll(START, init), actions[|actions| - 1])
  }

  lemma ActPerforms(w: Monitor, a: Action)
    ensures OpsOf(w, a) == [] ==> Act(w, a).s == w.s && Act(w, a).received == w.received
    ensures OpsOf(w, a) != [] ==>
              && |OpsOf(w, a)| == 1
              && Act(w, a).s == Perform(w.s, OpsOf(w, a)[0]).0
              && Act(w, a).received == w.received + Gained(Perform(w.s, OpsOf(w, a)[0]).1)
  {
    hide PushTo, LoadMessage;
  }

  /**
   * Every interleaving is a run of the queue: the consumer has received what that run delivers, so
   * order and conservation of the ledger hold for wait_and_pop as well.
   */
  lemma {:induction false} MonitorFollowsQueue(actions: seq<Action>)
    ensures ActAll(START, actions).s == PerformAll(EMPTY, AllOpsOf(actions))
    ensures ActAll(START, actions).received == Received(EMPTY, AllOpsOf(actions))
    decreases |actions|
  {
    hide Act, OpsOf, Perform, Gained;
    if actions != [] {
      var init, a := actions[..|actions| - 1], actions[|actions| - 1];
      MonitorFollowsQueue(init);
      var w, ops := ActAll(START, init), AllOpsOf(init);
      ActPerforms(w, a);
      var more := OpsOf(w, a);
      if more == [] {
        assert ops + more == ops;
      } else {
        assert (ops + more)[..|ops|] == ops && (ops + more)[|ops|] == more[0];
      }
    }
  }
}
