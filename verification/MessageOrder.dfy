/** In which order messages leave the queue, and exactly when that is the order of their pushes. */
module MessageOrder {
  import opened Wrappers
  import opened UpdateMessage
  import opened MessageQueue
  import opened MessageQueueProofs

  // ------------------------------------------------------------------ order

  function DirectOnes(entries: seq<Entry>): seq<Message> {
    if entries == [] then []
    else
      var init, e := entries[..|entries| - 1], entries[|entries| - 1];
      DirectOnes(init) + (if e.Direct? then [e.message] else [])
  }

  /** The messages that a run pushes straight into memory, in push order. */
  function PushedDirectly(g: Ledger, ops: seq<Op>): seq<Message>
    decreases |ops|
  {
    if ops == [] then []
    else
      var init, op := ops[..|ops| - 1], ops[|ops| - 1];
      PushedDirectly(g, init)
      + (if op.DoPush? && |RecordAll(g, init).s.queue| < MAX_SIZE then [op.message] else [])
  }

  /** Direct messages leave in the order in which they were pushed: what is delivered is what entered first. */
  lemma DirectMessagesStayInOrder(ops: seq<Op>)
    ensures var g := RecordAll(START, ops);
            && DirectOnes(g.entered) == PushedDirectly(START, ops)
            && |g.delivered| <= |g.entered| && g.delivered == Messages(g.entered[..|g.delivered|])
  {
    QueueAlwaysSound(ops);
    EnteredInOrder(ops);
    var g := RecordAll(START, ops);
    assert Messages(g.entered[..|g.delivered|]) == Messages(g.entered)[..|g.delivered|];
  }

  lemma DirectOnesAppend(entries: seq<Entry>, e: Entry)
    ensures DirectOnes(entries + [e]) == DirectOnes(entries) + (if e.Direct? then [e.message] else [])
  {
    assert (entries + [e])[..|entries|] == entries;
  }

  lemma EnteredStep(g: Ledger, op: Op)
    ensures DirectOnes(Record(g, op).entered)
            == DirectOnes(g.entered) + (if op.DoPush? && |g.s.queue| < MAX_SIZE then [op.message] else [])
  {
    hide DirectOnes, RecordLoad, LoadMessage, PushTo, FileGoes, Filename;
    assert DirectOnes(g.entered) + [] == DirectOnes(g.entered);
    match op
    case DoPush(m, diskOk) => DirectOnesAppend(g.entered, Direct(|g.pushed|, m));
    case DoPop(pick) => LoadEnters(g, pick);
    case DoPopAgain =>
  }

  lemma {:induction false} EnteredInOrder(ops: seq<Op>)
    ensures DirectOnes(RecordAll(START, ops).entered) == PushedDirectly(START, ops)
    decreases |ops|
  {
    hide Record;
    if ops != [] {
      EnteredInOrder(ops[..|ops| - 1]);
      EnteredStep(RecordAll(START, ops[..|ops| - 1]), ops[|ops| - 1]);
    }
  }

  lemma LoadEnters(g: Ledger, pick: Option<string>)
    ensures DirectOnes(RecordLoad(g, pick).entered) == DirectOnes(g.entered)
  {
    hide LoadMessage;
    if Loads(g.s, pick) { DirectOnesAppend(g.entered, RecordLoad(g, pick).entered[|g.entered|]); }
  }

  /** So far messages entered memory in push order, and nothing on disk was pushed before one of them. */
  ghost predicate InOrder(g: Ledger) {
    && (forall i, j :: 0 <= i < j < |g.entered| ==> g.entered[i].number < g.entered[j].number)
    && (forall i, name :: 0 <= i < |g.entered| && name in g.files ==> g.entered[i].number < g.files[name])
  }

  /** Nothing is pushed straight into memory past a file, and a load takes the oldest file. */
  ghost predicate KeepsOrder(g: Ledger, op: Op) {
    match op
    case DoPush(m, diskOk) => |g.s.queue| < MAX_SIZE ==> g.s.folder == map[]
    case DoPop(pick) =>
      Loads(g.s, pick) && pick.value in g.files ==>
        forall name :: name in g.files ==> g.files[pick.value] <= g.files[name]
    case DoPopAgain => true
  }

  lemma NumbersBounded(g: Ledger)
    requires Sound(g)
    ensures forall i :: 0 <= i < |g.entered| ==> g.entered[i].number < |g.pushed|
    ensures forall name :: name in g.files ==> g.files[name] < |g.pushed|
    ensures g.s.folder == map[] <==> g.files == map[]
  {
    hide CountsSound, QueueSound, Filename;
    forall name | name in g.files ensures FileOf(g.s.folder, g.pushed, name, g.files[name]) {}
    forall i | 0 <= i < |g.entered| ensures g.entered[i].number < |g.pushed| {
      assert EntrySound(g.entered[i], g.pushed);
    }
    SameKeys(g.s.folder, g.files, g.pushed, g.fates);
    if g.files == map[] { assert forall name :: name in g.s.folder ==> name in g.files; }
    if g.s.folder == map[] { assert forall name :: name in g.files ==> name in g.s.folder; }
  }

  lemma OwnNumbers(g: Ledger, name: string)
    requires Sound(g) && name in g.files
    ensures forall other :: other in g.files && g.files[other] == g.files[name] ==> other == name
  {
    hide EntriesSound, CountsSound, QueueSound, Filename;
    assert FileOf(g.s.folder, g.pushed, name, g.files[name]);
    forall other | other in g.files && g.files[other] == g.files[name] ensures other == name {
      assert FileOf(g.s.folder, g.pushed, other, g.files[other]);
    }
  }

  lemma EnterOrder(g: Ledger, g': Ledger, e: Entry)
    requires InOrder(g) && g'.entered == g.entered + [e]
    requires forall i :: 0 <= i < |g.entered| ==> g.entered[i].number < e.number
    requires forall name :: name in g'.files ==> name in g.files && g'.files[name] == g.files[name]
    ensures InOrder(g') <==> forall name :: name in g'.files ==> e.number < g'.files[name]
  {
    assert g'.entered[|g.entered|] == e;
  }

  lemma DirectOrder(g: Ledger, m: Message, diskOk: bool)
    requires Sound(g) && InOrder(g) && |g.s.queue| < MAX_SIZE
    ensures InOrder(RecordPush(g, m, diskOk)) <==> g.s.folder == map[]
  {
    NumbersBounded(g);
    hide Sound, InOrder, CanSave;
    var g' := RecordPush(g, m, diskOk);
    EnterOrder(g, g', Direct(|g.pushed|, m));
    if g.files != map[] {
      var name := Member(g.files.Keys);
      assert name in g'.files && g'.files[name] < |g.pushed|;
    }
  }

  lemma LoadAscends(g: Ledger, name: string)
    requires InOrder(g) && name in g.files
    ensures forall i :: 0 <= i < |g.entered| ==> g.entered[i].number < g.files[name]
  {
  }

  lemma LoadedOrder(g: Ledger, g': Ledger, name: string, m: Message)
    requires InOrder(g) && name in g.files
    requires g'.entered == g.entered + [Reloaded(g.files[name], m)] && g'.files == g.files - {name}
    requires forall other :: other in g.files && g.files[other] == g.files[name] ==> other == name
    ensures InOrder(g') <==> forall other :: other in g.files ==> g.files[name] <= g.files[other]
  {
    hide InOrder;
    LoadAscends(g, name);
    EnterOrder(g, g', Reloaded(g.files[name], m));
    if forall other :: other in g'.files ==> g.files[name] < g'.files[other] {
      forall other | other in g.files ensures g.files[name] <= g.files[other] {
        assert other != name ==> other in g'.files;
      }
    }
  }

  lemma LoadOrder(g: Ledger, pick: Option<string>)
    requires Sound(g) && InOrder(g) && Loads(g.s, pick)
    ensures InOrder(RecordLoad(g, pick)) <==> KeepsOrder(g, DoPop(pick))
  {
    hide Sound, LoadMessage, RecordLoad, InOrder;
    Reload(g, pick);
    OwnNumbers(g, pick.value);
    LoadChanges(g, pick);
    LoadedOrder(g, RecordLoad(g, pick), pick.value, LoadMessage(g.s.folder, pick).message);
  }

  lemma OrderStep(g: Ledger, op: Op)
    requires Sound(g) && InOrder(g)
    ensures InOrder(Record(g, op)) <==> KeepsOrder(g, op)
  {
    hide Sound, InOrder, RecordPush, RecordLoad, Loads, Throws;
    match op
    case DoPush(m, diskOk) =>
      if |g.s.queue| < MAX_SIZE { DirectOrder(g, m, diskOk); } else { SpillOrder(g, m, diskOk); }
    case DoPop(pick) =>
      LoadOrThrow(g, pick);
      if Loads(g.s, pick) { LoadOrder(g, pick); }
      SameOrder(RecordLoad(g, pick), RecordPop(RecordLoad(g, pick)));
    case DoPopAgain => SameOrder(g, RecordPop(g));
  }

  lemma LoadOrThrow(g: Ledger, pick: Option<string>)
    ensures !(Loads(g.s, pick) && Throws(g.s, pick))
    ensures !Loads(g.s, pick) ==> RecordLoad(g, pick) == g
  {
    hide LoadMessage;
  }

  lemma SameOrder(g: Ledger, g': Ledger)
    requires g'.entered == g.entered && g'.files == g.files
    ensures InOrder(g') <==> InOrder(g)
  {
  }

  lemma SpillOrder(g: Ledger, m: Message, diskOk: bool)
    requires Sound(g) && InOrder(g) && |g.s.queue| >= MAX_SIZE
    ensures InOrder(RecordPush(g, m, diskOk))
  {
    hide Sound, InOrder, RecordPush;
    NumbersBounded(g);
    SpillChanges(g, m, diskOk);
    SameOrderButOne(g, RecordPush(g, m, diskOk));
  }

  lemma SpillChanges(g: Ledger, m: Message, diskOk: bool)
    requires |g.s.queue| >= MAX_SIZE
    ensures RecordPush(g, m, diskOk).entered == g.entered
    ensures RecordPush(g, m, diskOk).files
            == if CanSave(m, diskOk) then g.files[Filename(m) := |g.pushed|] else g.files
  {
    hide Filename, FileGoes, PushTo;
  }

  lemma SameOrderButOne(g: Ledger, g': Ledger)
    requires InOrder(g) && g'.entered == g.entered
    requires forall i :: 0 <= i < |g.entered| ==> g.entered[i].number < |g.pushed|
    requires forall name :: name in g'.files ==>
                              g'.files[name] == |g.pushed| || (name in g.files && g'.files[name] == g.files[name])
    ensures InOrder(g')
  {
  }

  ghost predicate AlwaysInOrder(ops: seq<Op>)
    decreases |ops|
  {
    InOrder(RecordAll(START, ops)) && (ops != [] ==> AlwaysInOrder(ops[..|ops| - 1]))
  }

  ghost predicate EveryOpKeepsOrder(ops: seq<Op>)
    decreases |ops|
  {
    ops != [] ==>
      EveryOpKeepsOrder(ops[..|ops| - 1]) && KeepsOrder(RecordAll(START, ops[..|ops| - 1]), ops[|ops| - 1])
  }

  /**
   * The exact condition for first in, first out. At every moment of a run the messages have entered
   * memory in push order and ahead of everything on disk, if and only if nothing was ever pushed
   * straight into memory while a file lay on disk, and every load took the oldest file.
   */
  lemma {:induction false} InOrderExactly(ops: seq<Op>)
    ensures AlwaysInOrder(ops) <==> EveryOpKeepsOrder(ops)
    decreases |ops|
  {
    hide InOrder, KeepsOrder, Record, Sound;
    if ops == [] {
      assert InOrder(START) by { NothingEntered(); }
    } else {
      InOrderExactly(ops[..|ops| - 1]);
      if AlwaysInOrder(ops[..|ops| - 1]) {
        EveryRunIsSound(ops[..|ops| - 1]);
        OrderStep(RecordAll(START, ops[..|ops| - 1]), ops[|ops| - 1]);
      }
    }
  }

  lemma NothingEntered()
    ensures InOrder(START)
  {
  }

  /** In such a run every message is delivered after all those pushed before it that are delivered at all. */
  lemma DeliveredInPushOrder(ops: seq<Op>, i: nat, j: nat)
    requires EveryOpKeepsOrder(ops) && i < j < |RecordAll(START, ops).delivered|
    ensures var g := RecordAll(START, ops);
            && |g.delivered| <= |g.entered| && g.entered[i].number < g.entered[j].number < |g.pushed|
            && EntrySound(g.entered[i], g.pushed) && g.delivered[i] == g.entered[i].message
            && EntrySound(g.entered[j], g.pushed) && g.delivered[j] == g.entered[j].message
  {
    hide FilesSound, CountsSound, ReadsAs;
    InOrderExactly(ops);
    EveryRunIsSound(ops);
    var g := RecordAll(START, ops);
    assert g.delivered[i] == Messages(g.entered)[i] && g.delivered[j] == Messages(g.entered)[j];
  }

  /** Once a message has passed an intact file, two pops can bring that file in behind it. */
  lemma OvertakenCanEnter(g: Ledger, i: nat, name: string)
    requires Sound(g) && i < |g.entered| && name in g.files && g.files[name] < g.entered[i].number
    requires g.files[name] < |g.pushed| && g.pushed[g.files[name]].Update? && CleanPlate(g.pushed[g.files[name]].plate)
    ensures var late := RecordAll(g, [DoPop(None), DoPop(Some(name))]);
            && |late.entered| == |g.entered| + 1 && late.entered[i] == g.entered[i]
            && late.entered[|g.entered|].number == g.files[name] < late.entered[i].number
            && late.entered[|g.entered|].Reloaded? && late.pushed == g.pushed
  {
    hide Sound, LoadMessage, CleanPlate, RecordAll, RecordLoad;
    var ops := [DoPop(None), DoPop(Some(name))];
    AfterTwo(g, ops);
    IntactFileLoads(g, name);
    EmptyPick(g, g.s.folder);
    RoomAfterPop(g);
    var g1 := RecordPop(g);
    assert Record(g, DoPop(None)) == g1;
    LoadChanges(g1, Some(name));
    assert Record(g1, DoPop(Some(name))) == RecordPop(RecordLoad(g1, Some(name)));
  }

  lemma IntactFileLoads(g: Ledger, name: string)
    requires Sound(g) && name in g.files
    requires g.files[name] < |g.pushed| && g.pushed[g.files[name]].Update? && CleanPlate(g.pushed[g.files[name]].plate)
    ensures LoadMessage(g.s.folder, Some(name)).Loaded? && g.s.numStoredData > 0 && |g.fates| == |g.pushed|
  {
    hide EntriesSound, QueueSound, Count, Load, Filename, CleanPlate;
    assert FileOf(g.s.folder, g.pushed, name, g.files[name]);
    FileRoundTrip(g.pushed[g.files[name]]);
    assert name in g.s.folder && |g.s.folder| > 0;
  }

  lemma RoomAfterPop(g: Ledger)
    requires Sound(g)
    ensures |RecordPop(g).s.queue| < MAX_SIZE
  {
    hide EntriesSound, FilesSound, CountsSound;
  }

  lemma EmptyPick(g: Ledger, folder: map<string, Frame>)
    ensures LoadMessage(folder, None) == Refused && RecordLoad(g, None) == g
  {
  }

  lemma AfterTwo(g: Ledger, ops: seq<Op>)
    requires |ops| == 2
    ensures RecordAll(g, ops) == Record(Record(g, ops[0]), ops[1])
  {
    hide Record;
    var one := ops[..1];
    assert one[..0] == [];
    assert RecordAll(g, one) == Record(g, ops[0]);
  }

  lemma AfterThree(g: Ledger, ops: seq<Op>)
    requires |ops| == 3
    ensures RecordAll(g, ops) == Record(Record(Record(g, ops[0]), ops[1]), ops[2])
  {
    hide Record;
    AfterTwo(g, ops[..2]);
    assert RecordAll(g, ops) == Record(RecordAll(g, ops[..2]), ops[2]);
  }

  /**
   * It goes wrong soon: with a full queue, x is spilled, and a y pushed after one pop enters memory,
   * and so leaves it, while x still lies on disk.
   */
  lemma SpilledIsOvertaken(g: Ledger, x: Message, y: Message, pick: Option<string>)
    requires Sound(g) && |g.s.queue| == MAX_SIZE && CanSave(x, true)
    ensures var late := RecordAll(g, [DoPush(x, true), DoPop(pick), DoPush(y, true)]);
            && late.entered == g.entered + [Direct(|g.pushed| + 1, y)] && late.pushed == g.pushed + [x, y]
            && Filename(x) in late.files && late.files[Filename(x)] == |g.pushed|
            && !InOrder(late)
  {
    hide Sound, Filename, FileGoes, RecordAll, LoadMessage;
    var ops := [DoPush(x, true), DoPop(pick), DoPush(y, true)];
    AfterThree(g, ops);
    var g1 := RecordPush(g, x, true);
    assert !Scans(g1.s);
    var g2 := RecordPop(g1);
    assert Record(g1, DoPop(pick)) == g2;
    var late := RecordPush(g2, y, true);
    assert RecordAll(g, ops) == late;
    assert late.entered[|g.entered|].number > late.files[Filename(x)];
  }

  lemma {:induction false} RecordSplit(g: Ledger, a: seq<Op>, b: seq<Op>)
    ensures RecordAll(g, a + b) == RecordAll(RecordAll(g, a), b)
    decreases |b|
  {
    hide Record;
    if b == [] {
      assert a + b == a;
    } else {
      RecordSplit(g, a, b[..|b| - 1]);
      assert (a + b)[..|a + b| - 1] == a + b[..|b| - 1];
    }
  }

  /** Pops without loads deliver the front of the queue. */
  lemma {:induction false} PopsDeliver(g: Ledger, n: nat)
    requires n <= |g.s.queue|
    ensures var late := RecordAll(g, seq(n, _ => DoPopAgain));
            && late.delivered == g.delivered + g.s.queue[..n] && late.s.queue == g.s.queue[n..]
            && late.pushed == g.pushed && late.entered == g.entered
  {
    if n > 0 {
      PopsDeliver(g, n - 1);
      var ops := seq(n, _ => DoPopAgain);
      assert ops[..n - 1] == seq(n - 1, _ => DoPopAgain);
    }
  }

  lemma EverythingDelivered(ops: seq<Op>) returns (more: seq<Op>)
    ensures var g, late := RecordAll(START, ops), RecordAll(START, ops + more);
            late.delivered == Messages(g.entered) && late.pushed == g.pushed
  {
    hide Messages;
    QueueAlwaysSound(ops);
    var g := RecordAll(START, ops);
    more := seq(|g.s.queue|, _ => DoPopAgain);
    PopsDeliver(g, |g.s.queue|);
    RecordSplit(START, ops, more);
    assert g.s.queue[..|g.s.queue|] == g.s.queue;
  }

  /** In this run y enters memory as the eleventh message, and x, pushed before it, as the twelfth, from disk. */
  lemma EnterOutOfOrder(m: Message, x: Message, y: Message) returns (ops: seq<Op>)
    requires x.Update? && CleanPlate(x.plate)
    ensures var g := RecordAll(START, ops);
            && |g.pushed| == 12 && g.pushed[10] == x && g.pushed[11] == y && |g.entered| == 12
            && g.entered[10] == Direct(11, y) && g.entered[11] == Reloaded(10, Strip(x))
  {
    hide RecordAll, Sound, Filename;
    var fill, name := seq(10, _ => DoPush(m, true)), Filename(x);
    var spill, reload := [DoPush(x, true), DoPop(None), DoPush(y, true)], [DoPop(None), DoPop(Some(name))];
    FillUp(m, 10);
    EveryRunIsSound(fill);
    var g1 := RecordAll(START, fill);
    assert |g1.entered| == 10 by { EnteredLength(g1); }
    SpilledIsOvertaken(g1, x, y, None);
    RecordSplit(START, fill, spill);
    EveryRunIsSound(fill + spill);
    OvertakenCanEnter(RecordAll(g1, spill), 10, name);
    ops := fill + spill + reload;
    RecordSplit(START, fill + spill, reload);
    EveryRunIsSound(ops);
    ReloadedAs(RecordAll(START, ops), 11, x);
  }

  lemma EnteredLength(g: Ledger)
    requires Sound(g)
    ensures |g.entered| == |g.delivered| + |g.s.queue|
  {
    hide EntriesSound, FilesSound, CountsSound;
    assert |Messages(g.entered)| == |g.delivered + g.s.queue|;
  }

  lemma ReloadedAs(g: Ledger, i: nat, x: Message)
    requires Sound(g) && i < |g.entered| && g.entered[i].Reloaded? && x.Update? && CleanPlate(x.plate)
    requires g.entered[i].number < |g.pushed| && g.pushed[g.entered[i].number] == x
    ensures g.entered[i].message == Strip(x)
  {
    hide QueueSound, FilesSound, CountsSound, Load, Filename, CleanPlate;
    assert EntrySound(g.entered[i], g.pushed);
    FileRoundTrip(x);
  }

  /** Messages do get delivered out of push order: y, which was pushed after x, arrives just before it. */
  lemma OrderCanBreak(m: Message, x: Message, y: Message) returns (ops: seq<Op>)
    requires x.Update? && CleanPlate(x.plate)
    ensures var g := RecordAll(START, ops);
            && |g.pushed| == |g.delivered| == 12 && g.pushed[10] == x && g.pushed[11] == y
            && g.delivered[10] == y && g.delivered[11] == Strip(x)
  {
    hide RecordAll;
    var enter := EnterOutOfOrder(m, x, y);
    var more := EverythingDelivered(enter);
    ops := enter + more;
  }

  // ------------------------------------------------------------------ what the callers get

  /** The queue and the answer after one operation of the object. */
  function Perform(s: QueueState, op: Op): (QueueState, Popped) {
    match op
    case DoPush(m, diskOk) => (PushTo(s, m, diskOk), Nothing)
    case DoPop(pick) => TryPopFrom(s, pick)
    case DoPopAgain => PopFrom(s)
  }

  function PerformAll(s: QueueState, ops: seq<Op>): QueueState
    decreases |ops|
  {
    if ops == [] then s else Perform(PerformAll(s, ops[..|ops| - 1]), ops[|ops| - 1]).0
  }

  function Gained(answer: Popped): seq<Message> { if answer.Got? then [answer.message] else [] }

  /** The messages that the pops of a run hand over, in order. */
  function Received(s: QueueState, ops: seq<Op>): seq<Message>
    decreases |ops|
  {
    if ops == [] then []
    else
      var init, op := ops[..|ops| - 1], ops[|ops| - 1];
      Received(s, init) + Gained(Perform(PerformAll(s, init), op).1)
  }

  /** Every operation on the ledger is that operation on the queue, and what it delivers is the answer. */
  lemma LedgerFollows(g: Ledger, op: Op)
    ensures Record(g, op).s == Perform(g.s, op).0
    ensures Record(g, op).delivered == g.delivered + Gained(Perform(g.s, op).1)
    ensures op.DoPop? ==> (Perform(g.s, op).1.Threw? <==> Throws(g.s, op.pick))
  {
    hide LoadMessage, FileGoes, PushTo;
  }

  lemma {:induction false} RunFollows(ops: seq<Op>)
    ensures RecordAll(START, ops).s == PerformAll(EMPTY, ops)
    ensures RecordAll(START, ops).delivered == Received(EMPTY, ops)
    decreases |ops|
  {
    hide Record, Perform, Gained;
    if ops != [] {
      RunFollows(ops[..|ops| - 1]);
      LedgerFollows(RecordAll(START, ops[..|ops| - 1]), ops[|ops| - 1]);
    }
  }

  /** The callers of try_pop and wait_and_pop get the direct messages in push order, as part of what entered memory. */
  lemma ReceivedInOrder(ops: seq<Op>)
    ensures var g, received := RecordAll(START, ops), Received(EMPTY, ops);
            && DirectOnes(g.entered) == PushedDirectly(START, ops)
            && |received| <= |g.entered| && received == Messages(g.entered[..|received|])
  {
    RunFollows(ops);
    DirectMessagesStayInOrder(ops);
  }

  /** What they get, what is in memory and on disk, and what was lost, is what was pushed. */
  lemma ReceivedConserved(ops: seq<Op>)
    ensures var g := RecordAll(START, ops);
            && |g.fates| == |g.pushed|
            && (CleanLoads(g) ==>
                  multiset(StripAll(g.pushed))
                  == multiset(StripAll(Received(EMPTY, ops))) + multiset(StripAll(PerformAll(EMPTY, ops).queue))
                     + ByFate(g.pushed, g.fates, OnDisk) + ByFate(g.pushed, g.fates, Overwritten)
                     + ByFate(g.pushed, g.fates, Phantom) + ByFate(g.pushed, g.fates, Refusal))
  {
    hide RecordAll, ByFate, CleanLoads, StripAll, Received, PerformAll;
    RunFollows(ops);
    MessagesConserved(ops);
    var g := RecordAll(START, ops);
    assert multiset(StripAll(g.delivered) + StripAll(g.s.queue))
           == multiset(StripAll(g.delivered)) + multiset(StripAll(g.s.queue));
  }

  /** With an empty disk the queue is first in, first out: n pushes are handed back by n pops, in order. */
  lemma {:induction false} FirstInFirstOut(ms: seq<Message>)
    requires |ms| <= MAX_SIZE
    ensures var pushes := seq(|ms|, i requires 0 <= i < |ms| => DoPush(ms[i], true));
            var s := PerformAll(EMPTY, pushes);
            && s == EMPTY.(queue := ms)
            && forall pick :: ms != [] ==> TryPopFrom(s, pick) == (s.(queue := ms[1..]), Got(ms[0]))
  {
    var pushes := seq(|ms|, i requires 0 <= i < |ms| => DoPush(ms[i], true));
    if ms != [] {
      var n := |ms| - 1;
      FirstInFirstOut(ms[..n]);
      assert pushes[..n] == seq(n, i requires 0 <= i < n => DoPush(ms[..n][i], true));
      assert ms[..n] + [ms[n]] == ms;
    }
  }

  /** A file that cannot be parsed makes try_pop throw, and stays where it is. */
  lemma UnparsableFileThrows(s: QueueState, m: Message, p: string, q: string)
    requires m.Update? && m.plate == p + "_" + q && CleanPlate(p) && CleanPlate(q) && Stoi(q).None?
    requires |s.queue| < MAX_SIZE && s.numStoredData > 0 && Filename(m) in s.folder
    ensures TryPopFrom(s, Some(Filename(m))) == (s, Threw)
  {
    hide Load, Filename, Stoi;
    UnderscorePlate(m, p, q, s.folder[Filename(m)]);
  }
}
