/**
 * The bounded message queue with disk spill (MessageQueue.cpp), the directory scan of loadMessage
 * (IOUtils.cpp), and a ledger that follows every message through a whole run.
 */
module MessageQueue {
  import opened Wrappers
  import opened UpdateMessage

  const MAX_SIZE := 10

  /** The in-memory queue, the number of messages believed to be on disk, and the files of the spill folder. */
  datatype QueueState = QueueState(queue: seq<Message>, numStoredData: int, folder: map<string, Frame>)

  const EMPTY := QueueState([], 0, map[])

  /**
   * ParkingUpdateMessage::save succeeds. `diskOk` is the outcome of the folder check and of the image
   * write; a '/' in the name asks for a directory that nobody creates, so that write always fails.
   */
  predicate CanSave(m: Message, diskOk: bool) { m.Update? && diskOk && '/' !in m.plate }

  /** `IMessageData::save`. */
  function Save(folder: map<string, Frame>, m: Message, diskOk: bool): (map<string, Frame>, bool) {
    match m
    case Update(_, _, _, _, frame, _) =>
      if CanSave(m, diskOk) then (folder[Filename(m) := frame], true) else (folder, false)
    case Sync(_, _) => (folder, true)   // reports success without storing anything
  }

  /** A failed folder check or image write, and a '/' in the plate, leave the disk as it was and are reported. */
  lemma SaveSpec(folder: map<string, Frame>, m: Message, diskOk: bool)
    ensures m.Update? && (!diskOk || '/' in m.plate) ==> Save(folder, m, diskOk) == (folder, false)
    ensures m.Update? && diskOk && '/' !in m.plate ==> Save(folder, m, diskOk) == (folder[Filename(m) := m.frame], true)
    ensures m.Sync? ==> Save(folder, m, diskOk) == (folder, true)
  {
  }

  function PushTo(s: QueueState, m: Message, diskOk: bool): QueueState {
    if |s.queue| >= MAX_SIZE then
      var (folder, saved) := Save(s.folder, m, diskOk);
      s.(folder := folder, numStoredData := if saved then s.numStoredData + 1 else s.numStoredData)
    else s.(queue := s.queue + [m])
  }

  /**
   * `loadMessage`: the directory order is not specified, so `pick` names the file on which the scan
   * ends, or is None when no file could be loaded and removed. The scan also ends on a file whose
   * name makes stoi throw.
   */
  function LoadMessage(folder: map<string, Frame>, pick: Option<string>): LoadResult {
    if pick.None? || pick.value !in folder then Refused
    else Load(FOLDER + pick.value, Some(folder[pick.value]))
  }

  /** loadStoredData looks at the disk at all. */
  predicate Scans(s: QueueState) { |s.queue| < MAX_SIZE && s.numStoredData > 0 }

  predicate Loads(s: QueueState, pick: Option<string>) { Scans(s) && LoadMessage(s.folder, pick).Loaded? }

  predicate Throws(s: QueueState, pick: Option<string>) { Scans(s) && LoadMessage(s.folder, pick).Thrown? }

  function LoadInto(s: QueueState, pick: Option<string>): QueueState {
    if Loads(s, pick) then
      var m := LoadMessage(s.folder, pick).message;
      QueueState(s.queue + [m], s.numStoredData - 1, s.folder - {pick.value})
    else s
  }

  /** What a pop comes back with; Threw: an exception left it, and the queue is as before. */
  datatype Popped = Got(message: Message) | Nothing | Threw

  function PopFrom(s: QueueState): (QueueState, Popped) {
    if s.queue == [] then (s, Nothing) else (s.(queue := s.queue[1..]), Got(s.queue[0]))
  }

  function TryPopFrom(s: QueueState, pick: Option<string>): (QueueState, Popped) {
    if Throws(s, pick) then (s, Threw) else PopFrom(LoadInto(s, pick))
  }

  class MessageQueue {
    var mQueue: seq<Message>
    var mNumStoredData: int
    var mFolder: map<string, Frame>

    ghost function State(): QueueState
      reads this
    {
      QueueState(mQueue, mNumStoredData, mFolder)
    }

    constructor ()
      ensures State() == EMPTY
    {
      mQueue, mNumStoredData, mFolder := [], 0, map[];
    }

    method Push(m: Message, diskOk: bool)
      modifies this
      ensures State() == PushTo(old(State()), m, diskOk)
    {
      if |mQueue| >= MAX_SIZE {
        var (folder, saved) := Save(mFolder, m, diskOk);
        mFolder := folder;
        if saved {
          mNumStoredData := mNumStoredData + 1;
        }
      } else {
        mQueue := mQueue + [m];
      }
    }

    method LoadStoredData(pick: Option<string>) returns (threw: bool)
      modifies this
      ensures State() == LoadInto(old(State()), pick) && threw == Throws(old(State()), pick)
    {
      threw := false;
      if |mQueue| < MAX_SIZE && mNumStoredData > 0 {
        match LoadMessage(mFolder, pick) {
          case Loaded(storedData) =>
            mFolder := mFolder - {pick.value};
            mQueue := mQueue + [storedData];
            mNumStoredData := mNumStoredData - 1;
          case Refused =>
          case Thrown =>
            threw := true;
        }
      }
    }

    method TryPop(pick: Option<string>) returns (data: Popped)
      modifies this
      ensures (State(), data) == TryPopFrom(old(State()), pick)
    {
      var threw := LoadStoredData(pick);
      if threw {
        return Threw;
      }
      if |mQueue| == 0 {
        return Nothing;
      }
      data := Got(mQueue[0]);
      mQueue := mQueue[1..];
    }
  }

  // ------------------------------------------------------------------ the ledger

  /** A message without its crop, which is never written to disk. */
  function Strip(m: Message): Message {
    if m.Update? then m.(crop := None) else m
  }

  /** How the message with this number came into the in-memory queue, and what it then is. */
  datatype Entry = Direct(number: nat, message: Message) | Reloaded(number: nat, message: Message)

  /**
   * What has become of a pushed message. Overwritten: its file was replaced by one of the same name.
   * Phantom: a sync message that was counted as stored. Refused: it could not be saved.
   */
  datatype Fate = Entered | OnDisk | Overwritten | Phantom | Refusal

  /**
   * One critical section each: push; try_pop, or the first section of wait_and_pop; and the
   * section in which a woken wait_and_pop looks at the queue again, without loading.
   */
  datatype Op = DoPush(message: Message, diskOk: bool) | DoPop(pick: Option<string>) | DoPopAgain

  /**
   * The queue together with the history of the run. The messages are numbered in the order in which
   * they are pushed; files tags each file with the number of its last writer.
   */
  datatype Ledger = Ledger(
    s: QueueState, pushed: seq<Message>, fates: seq<Fate>, files: map<string, nat>,
    entered: seq<Entry>, delivered: seq<Message>)

  const START := Ledger(EMPTY, [], [], map[], [], [])

  /** The fates after the file of that name has gone the way of `fate`. */
  function FileGoes(g: Ledger, name: string, fate: Fate): (fates: seq<Fate>)
    ensures |fates| == |g.fates|
  {
    if name in g.files && g.files[name] < |g.fates| then g.fates[g.files[name] := fate] else g.fates
  }

  function RecordPush(g: Ledger, m: Message, diskOk: bool): Ledger {
    var n := |g.pushed|;
    var g' := g.(s := PushTo(g.s, m, diskOk), pushed := g.pushed + [m]);
    if |g.s.queue| < MAX_SIZE then g'.(fates := g.fates + [Entered], entered := g.entered + [Direct(n, m)])
    else if m.Sync? then g'.(fates := g.fates + [Phantom])
    else if !CanSave(m, diskOk) then g'.(fates := g.fates + [Refusal])
    else
      var name := Filename(m);
      g'.(fates := FileGoes(g, name, Overwritten) + [OnDisk], files := g.files[name := n])
  }

  function RecordLoad(g: Ledger, pick: Option<string>): Ledger {
    if Loads(g.s, pick) then
      var name := pick.value;
      var number := if name in g.files then g.files[name] else |g.pushed|;
      g.(s := LoadInto(g.s, pick), fates := FileGoes(g, name, Entered), files := g.files - {name},
         entered := g.entered + [Reloaded(number, LoadMessage(g.s.folder, pick).message)])
    else g
  }

  function RecordPop(g: Ledger): Ledger {
    var (s, data) := PopFrom(g.s);
    if data.Got? then g.(s := s, delivered := g.delivered + [data.message]) else g
  }

  function Record(g: Ledger, op: Op): Ledger {
    match op
    case DoPush(m, diskOk) => RecordPush(g, m, diskOk)
    case DoPop(pick) => if Throws(g.s, pick) then g else RecordPop(RecordLoad(g, pick))
    case DoPopAgain => RecordPop(g)
  }

  function RecordAll(g: Ledger, ops: seq<Op>): Ledger
    decreases |ops|
  {
    if ops == [] then g else Record(RecordAll(g, ops[..|ops| - 1]), ops[|ops| - 1])
  }
}
