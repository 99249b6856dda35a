/** What the queue keeps over every run of pushes and pops, whatever the plates are. */
module MessageQueueProofs {
  import opened Wrappers
  import opened UpdateMessage
  import opened MessageQueue

  // ------------------------------------------------------------------ the queue in memory

  function Messages(entries: seq<Entry>): (ms: seq<Message>)
    ensures |ms| == |entries| && forall i :: 0 <= i < |entries| ==> ms[i] == entries[i].message
  {
    seq(|entries|, i requires 0 <= i < |entries| => entries[i].message)
  }

  /** The in-memory queue is bounded and is what entered and was not delivered yet. */
  ghost predicate QueueSound(g: Ledger) {
    |g.s.queue| <= MAX_SIZE && Messages(g.entered) == g.delivered + g.s.queue
  }

  lemma QueueEnters(g: Ledger, g': Ledger, e: Entry)
    requires QueueSound(g) && |g.s.queue| < MAX_SIZE
    requires g'.s.queue == g.s.queue + [e.message] && g'.entered == g.entered + [e] && g'.delivered == g.delivered
    ensures QueueSound(g')
  {
    assert Messages(g'.entered) == Messages(g.entered) + [e.message];
    assert g.delivered + (g.s.queue + [e.message]) == g.delivered + g.s.queue + [e.message];
  }

  lemma QueuePops(g: Ledger)
    requires QueueSound(g)
    ensures QueueSound(RecordPop(g))
  {
    if g.s.queue != [] {
      assert g.delivered + g.s.queue == g.delivered + [g.s.queue[0]] + g.s.queue[1..];
    }
  }

  lemma QueueStep(g: Ledger, op: Op)
    requires QueueSound(g)
    ensures QueueSound(Record(g, op))
  {
    hide QueueSound, Messages, LoadMessage, CanSave, FileGoes, Filename;
    match op
    case DoPush(m, diskOk) =>
      if |g.s.queue| < MAX_SIZE {
        QueueEnters(g, RecordPush(g, m, diskOk), Direct(|g.pushed|, m));
      } else {
        QueueUnchanged(g, RecordPush(g, m, diskOk));
      }
    case DoPop(pick) =>
      var g' := RecordLoad(g, pick);
      if Loads(g.s, pick) { QueueEnters(g, g', g'.entered[|g.entered|]); }
      if !Throws(g.s, pick) { QueuePops(g'); }
    case DoPopAgain => QueuePops(g);
  }

  lemma QueueUnchanged(g: Ledger, g': Ledger)
    requires QueueSound(g) && g'.s.queue == g.s.queue && g'.entered == g.entered && g'.delivered == g.delivered
    ensures QueueSound(g')
  {
  }

  lemma {:induction false} QueueAlwaysSound(ops: seq<Op>)
    ensures QueueSound(RecordAll(START, ops))
    decreases |ops|
  {
    hide Record;
    if ops != [] {
      QueueAlwaysSound(ops[..|ops| - 1]);
      QueueStep(RecordAll(START, ops[..|ops| - 1]), ops[|ops| - 1]);
    }
  }

  // ------------------------------------------------------------------ every message has one fate

  /** `read` is what comes back from the file of m. */
  predicate ReadsAs(m: Message, read: Message) {
    m.Update? && Load(FOLDER + Filename(m), Some(m.frame)) == Loaded(read)
  }

  /** What has entered is the pushed message itself, or what its file reads as. */
  predicate EntrySound(e: Entry, pushed: seq<Message>) {
    && e.number < |pushed|
    && match e
       case Direct(number, message) => message == pushed[number]
       case Reloaded(number, message) => ReadsAs(pushed[number], message)
  }

  ghost predicate HasEntered(entered: seq<Entry>, number: nat) {
    exists i :: 0 <= i < |entered| && entered[i].number == number
  }

  /** Exactly the messages of fate Entered have entered, once each. */
  ghost predicate EntriesSound(entered: seq<Entry>, pushed: seq<Message>, fates: seq<Fate>) {
    && |fates| == |pushed|
    && (forall i :: 0 <= i < |entered| ==> EntrySound(entered[i], pushed))
    && (forall i, j :: 0 <= i < j < |entered| ==> entered[i].number != entered[j].number)
    && (forall k: nat :: k < |fates| ==> (fates[k] == Entered <==> HasEntered(entered, k)))
  }

  /** The file of that name is that of message number k. */
  predicate FileOf(folder: map<string, Frame>, pushed: seq<Message>, name: string, k: nat) {
    && k < |pushed| && pushed[k].Update? && Filename(pushed[k]) == name
    && name in folder && folder[name] == pushed[k].frame
  }

  /** Exactly the messages of fate OnDisk have a file, each its own. */
  ghost predicate FilesSound(folder: map<string, Frame>, files: map<string, nat>, pushed: seq<Message>,
                             fates: seq<Fate>) {
    && |fates| == |pushed| && folder.Keys == files.Keys
    && (forall name :: name in files ==> FileOf(folder, pushed, name, files[name]) && fates[files[name]] == OnDisk)
    && (forall k: nat :: k < |fates| && fates[k] == OnDisk ==>
                           pushed[k].Update? && Filename(pushed[k]) in files && files[Filename(pushed[k])] == k)
  }

  function Count(fates: seq<Fate>, fate: Fate): nat { multiset(fates)[fate] }

  /** The counter exceeds the number of files by exactly the overwritten and the phantom messages. */
  predicate CountsSound(s: QueueState, entered: seq<Entry>, fates: seq<Fate>) {
    && |entered| == Count(fates, Entered) && |s.folder| == Count(fates, OnDisk)
    && s.numStoredData == |s.folder| + Count(fates, Overwritten) + Count(fates, Phantom)
  }

  ghost predicate Sound(g: Ledger) {
    && QueueSound(g)
    && EntriesSound(g.entered, g.pushed, g.fates)
    && FilesSound(g.s.folder, g.files, g.pushed, g.fates)
    && CountsSound(g.s, g.entered, g.fates)
  }

  lemma CountAppend(fates: seq<Fate>, fate: Fate)
    ensures forall f :: Count(fates + [fate], f) == Count(fates, f) + (if f == fate then 1 else 0)
  {
  }

  lemma CountChange(fates: seq<Fate>, k: nat, fate: Fate)
    requires k < |fates| && fates[k] != fate
    ensures forall f :: Count(fates[k := fate], f)
                        == Count(fates, f) + (if f == fate then 1 else 0) - (if f == fates[k] then 1 else 0)
  {
    assert multiset(fates[k := fate]) == multiset(fates) - multiset{fates[k]} + multiset{fate};
    assert fates[k] in multiset(fates);
  }

  lemma FolderSizes(folder: map<string, Frame>, name: string, frame: Frame)
    ensures name in folder ==> |folder - {name}| == |folder| - 1 && |folder[name := frame]| == |folder|
    ensures name !in folder ==> |folder[name := frame]| == |folder| + 1
  {
    if name in folder {
      assert folder.Keys == (folder - {name}).Keys + {name};
      assert folder[name := frame].Keys == folder.Keys;
    } else {
      assert folder[name := frame].Keys == folder.Keys + {name};
    }
  }

  // ------------------------------------------------------------------ entries

  lemma EntriesPush(entered: seq<Entry>, pushed: seq<Message>, fates: seq<Fate>, m: Message, fate: Fate)
    requires EntriesSound(entered, pushed, fates) && fate != Entered
    ensures EntriesSound(entered, pushed + [m], fates + [fate])
  {
    hide ReadsAs;
    assert !HasEntered(entered, |fates|);
    forall i | 0 <= i < |entered| ensures EntrySound(entered[i], pushed + [m]) {
      assert EntrySound(entered[i], pushed);
    }
  }

  lemma EntriesDirect(entered: seq<Entry>, pushed: seq<Message>, fates: seq<Fate>, m: Message)
    requires EntriesSound(entered, pushed, fates)
    ensures EntriesSound(entered + [Direct(|pushed|, m)], pushed + [m], fates + [Entered])
  {
    hide ReadsAs, EntrySound, EntriesSound;
    EntriesPush(entered, pushed, fates, m, OnDisk);
    assert EntrySound(Direct(|pushed|, m), pushed + [m]) by { NewEntry(pushed, m); }
    EntriesLength(entered, pushed, fates);
    EntriesEnter(entered, pushed + [m], fates + [OnDisk], Direct(|pushed|, m));
    assert (fates + [OnDisk])[|pushed| := Entered] == fates + [Entered];
  }

  lemma EntriesLength(entered: seq<Entry>, pushed: seq<Message>, fates: seq<Fate>)
    requires EntriesSound(entered, pushed, fates)
    ensures |fates| == |pushed|
  {
  }

  lemma NewEntry(pushed: seq<Message>, m: Message)
    ensures EntrySound(Direct(|pushed|, m), pushed + [m])
  {
  }

  lemma EntriesEnter(entered: seq<Entry>, pushed: seq<Message>, fates: seq<Fate>, e: Entry)
    requires EntriesSound(entered, pushed, fates) && EntrySound(e, pushed)
    requires e.number < |fates| && fates[e.number] != Entered
    ensures EntriesSound(entered + [e], pushed, fates[e.number := Entered])
  {
    hide EntrySound;
    var more := entered + [e];
    assert !HasEntered(entered, e.number);
    forall k: nat | k < |fates| ensures fates[e.number := Entered][k] == Entered <==> HasEntered(more, k) {
      if k == e.number {
        assert more[|entered|].number == k;
      } else if HasEntered(entered, k) {
        var i :| 0 <= i < |entered| && entered[i].number == k;
        assert more[i].number == k;
      }
    }
  }

  lemma EntriesChange(entered: seq<Entry>, pushed: seq<Message>, fates: seq<Fate>, k: nat, fate: Fate)
    requires EntriesSound(entered, pushed, fates) && k < |fates| && fates[k] != Entered && fate != Entered
    ensures EntriesSound(entered, pushed, fates[k := fate])
  {
    hide EntrySound;
  }

  // ------------------------------------------------------------------ files

  lemma FilesPush(folder: map<string, Frame>, files: map<string, nat>, pushed: seq<Message>, fates: seq<Fate>,
                  m: Message, fate: Fate)
    requires FilesSound(folder, files, pushed, fates) && fate != OnDisk
    ensures FilesSound(folder, files, pushed + [m], fates + [fate])
  {
    hide Filename;
    forall name | name in files
      ensures FileOf(folder, pushed + [m], name, files[name]) && (fates + [fate])[files[name]] == OnDisk
    {
      assert FileOf(folder, pushed, name, files[name]);
    }
  }

  lemma FilesRemove(folder: map<string, Frame>, files: map<string, nat>, pushed: seq<Message>, fates: seq<Fate>,
                    name: string, fate: Fate)
    requires FilesSound(folder, files, pushed, fates) && name in files && fate != OnDisk
    ensures files[name] < |fates| && fates[files[name]] == OnDisk
    ensures FilesSound(folder - {name}, files - {name}, pushed, fates[files[name] := fate])
  {
    hide Filename;
    var k := files[name];
    assert FileOf(folder, pushed, name, k);
    forall other | other in files - {name}
      ensures FileOf(folder - {name}, pushed, other, files[other]) && fates[k := fate][files[other]] == OnDisk
    {
      assert FileOf(folder, pushed, other, files[other]);
    }
  }

  lemma FilesAdd(folder: map<string, Frame>, files: map<string, nat>, pushed: seq<Message>, fates: seq<Fate>,
                 m: Message)
    requires FilesSound(folder, files, pushed, fates) && m.Update? && Filename(m) !in files
    ensures FilesSound(folder[Filename(m) := m.frame], files[Filename(m) := |pushed|], pushed + [m], fates + [OnDisk])
  {
    hide Filename;
    var more := folder[Filename(m) := m.frame];
    forall name | name in files
      ensures FileOf(more, pushed + [m], name, files[name]) && (fates + [OnDisk])[files[name]] == OnDisk
    {
      assert FileOf(folder, pushed, name, files[name]);
    }
  }

  // ------------------------------------------------------------------ the three kinds of steps

  /** A push that leaves neither memory nor disk with the message. */
  lemma DropKeeps(g: Ledger, m: Message, fate: Fate, s: QueueState)
    requires Sound(g) && (fate == Phantom || fate == Refusal) && s.queue == g.s.queue && s.folder == g.s.folder
    requires s.numStoredData == g.s.numStoredData + (if fate == Phantom then 1 else 0)
    ensures Sound(g.(s := s, pushed := g.pushed + [m], fates := g.fates + [fate]))
  {
    hide EntriesSound, FilesSound, Messages, Count;
    EntriesPush(g.entered, g.pushed, g.fates, m, fate);
    FilesPush(g.s.folder, g.files, g.pushed, g.fates, m, fate);
    CountAppend(g.fates, fate);
  }

  lemma DirectKeeps(g: Ledger, m: Message, diskOk: bool)
    requires Sound(g) && |g.s.queue| < MAX_SIZE
    ensures Sound(RecordPush(g, m, diskOk))
  {
    hide EntriesSound, FilesSound, QueueSound, Count, CanSave, FileGoes;
    QueueEnters(g, RecordPush(g, m, diskOk), Direct(|g.pushed|, m));
    EntriesDirect(g.entered, g.pushed, g.fates, m);
    FilesPush(g.s.folder, g.files, g.pushed, g.fates, m, Entered);
    CountAppend(g.fates, Entered);
  }

  /** An earlier file of the same name goes, and takes its message with it. */
  lemma OverwriteKeeps(g: Ledger, name: string)
    requires Sound(g)
    ensures var fates := FileGoes(g, name, Overwritten);
            var lost := if name in g.files then 1 else 0;
            && EntriesSound(g.entered, g.pushed, fates)
            && FilesSound(g.s.folder - {name}, g.files - {name}, g.pushed, fates)
            && Count(fates, Entered) == Count(g.fates, Entered) && Count(fates, Phantom) == Count(g.fates, Phantom)
            && Count(fates, OnDisk) == Count(g.fates, OnDisk) - lost
            && Count(fates, Overwritten) == Count(g.fates, Overwritten) + lost
  {
    hide EntriesSound, FilesSound, CountsSound, QueueSound, Count;
    if name in g.files {
      FilesRemove(g.s.folder, g.files, g.pushed, g.fates, name, Overwritten);
      FateChange(g.entered, g.pushed, g.fates, g.files[name]);
    } else {
      SameKeys(g.s.folder, g.files, g.pushed, g.fates);
      assert g.s.folder - {name} == g.s.folder && g.files - {name} == g.files;
    }
  }

  lemma FateChange(entered: seq<Entry>, pushed: seq<Message>, fates: seq<Fate>, k: nat)
    requires EntriesSound(entered, pushed, fates) && k < |fates| && fates[k] == OnDisk
    ensures var changed := fates[k := Overwritten];
            && EntriesSound(entered, pushed, changed)
            && Count(changed, Entered) == Count(fates, Entered) && Count(changed, Phantom) == Count(fates, Phantom)
            && Count(changed, OnDisk) == Count(fates, OnDisk) - 1
            && Count(changed, Overwritten) == Count(fates, Overwritten) + 1
  {
    hide EntriesSound, Count;
    EntriesChange(entered, pushed, fates, k, Overwritten);
    CountChange(fates, k, Overwritten);
  }

  lemma SameKeys(folder: map<string, Frame>, files: map<string, nat>, pushed: seq<Message>, fates: seq<Fate>)
    requires FilesSound(folder, files, pushed, fates)
    ensures forall name :: name in folder <==> name in files
  {
    assert forall name :: name in folder.Keys <==> name in files.Keys;
  }

  lemma SpillKeeps(g: Ledger, m: Message, diskOk: bool)
    requires Sound(g) && |g.s.queue| == MAX_SIZE && CanSave(m, diskOk)
    ensures Sound(RecordPush(g, m, diskOk))
  {
    hide EntriesSound, FilesSound, Count, FileGoes, Filename, Messages;
    var name, fates := Filename(m), FileGoes(g, Filename(m), Overwritten);
    SameKeys(g.s.folder, g.files, g.pushed, g.fates);
    OverwriteKeeps(g, name);
    EntriesPush(g.entered, g.pushed, fates, m, OnDisk);
    FilesAdd(g.s.folder - {name}, g.files - {name}, g.pushed, fates, m);
    assert (g.s.folder - {name})[name := m.frame] == g.s.folder[name := m.frame];
    assert (g.files - {name})[name := |g.pushed|] == g.files[name := |g.pushed|];
    CountAppend(fates, OnDisk);
    FolderSizes(g.s.folder, name, m.frame);
  }

  lemma PushKeeps(g: Ledger, m: Message, diskOk: bool)
    requires Sound(g)
    ensures Sound(RecordPush(g, m, diskOk))
  {
    hide EntriesSound, FilesSound, CountsSound, Messages, Filename, FileGoes;
    if |g.s.queue| < MAX_SIZE {
      DirectKeeps(g, m, diskOk);
    } else if CanSave(m, diskOk) {
      SpillKeeps(g, m, diskOk);
    } else {
      DropKeeps(g, m, if m.Sync? then Phantom else Refusal, PushTo(g.s, m, diskOk));
    }
  }

  /** The loaded message has left the disk and entered memory, as what its file reads as. */
  lemma Reload(g: Ledger, pick: Option<string>)
    requires Sound(g) && Loads(g.s, pick)
    ensures pick.Some? && pick.value in g.files && pick.value in g.s.folder
    ensures var k := g.files[pick.value];
            && k < |g.fates| && g.fates[k] == OnDisk
            && EntrySound(Reloaded(k, LoadMessage(g.s.folder, pick).message), g.pushed)
  {
    hide EntriesSound, CountsSound, QueueSound, Filename, Load;
    SameKeys(g.s.folder, g.files, g.pushed, g.fates);
    assert FileOf(g.s.folder, g.pushed, pick.value, g.files[pick.value]);
  }

  /** What a successful load changes. */
  lemma LoadChanges(g: Ledger, pick: Option<string>)
    requires Loads(g.s, pick) && pick.Some? && pick.value in g.files && g.files[pick.value] < |g.fates|
    ensures var k, m := g.files[pick.value], LoadMessage(g.s.folder, pick).message;
            RecordLoad(g, pick)
            == Ledger(QueueState(g.s.queue + [m], g.s.numStoredData - 1, g.s.folder - {pick.value}), g.pushed,
                      g.fates[k := Entered], g.files - {pick.value}, g.entered + [Reloaded(k, m)], g.delivered)
  {
    hide LoadMessage;
  }

  lemma LoadedKeeps(g: Ledger, name: string, m: Message)
    requires Sound(g) && |g.s.queue| < MAX_SIZE && name in g.files
    requires g.files[name] < |g.fates| && g.fates[g.files[name]] == OnDisk
    requires EntrySound(Reloaded(g.files[name], m), g.pushed)
    ensures var k := g.files[name];
            Sound(Ledger(QueueState(g.s.queue + [m], g.s.numStoredData - 1, g.s.folder - {name}), g.pushed,
                         g.fates[k := Entered], g.files - {name}, g.entered + [Reloaded(k, m)], g.delivered))
  {
    hide EntriesSound, FilesSound, QueueSound, Count, EntrySound;
    var k, e := g.files[name], Reloaded(g.files[name], m);
    var g' := Ledger(QueueState(g.s.queue + [m], g.s.numStoredData - 1, g.s.folder - {name}), g.pushed,
                     g.fates[k := Entered], g.files - {name}, g.entered + [e], g.delivered);
    QueueEnters(g, g', e);
    EntriesEnter(g.entered, g.pushed, g.fates, e);
    FilesRemove(g.s.folder, g.files, g.pushed, g.fates, name, Entered);
    CountChange(g.fates, k, Entered);
    SameKeys(g.s.folder, g.files, g.pushed, g.fates);
    FolderSizes(g.s.folder, name, g.s.folder[name]);
  }

  lemma LoadKeeps(g: Ledger, pick: Option<string>)
    requires Sound(g)
    ensures Sound(RecordLoad(g, pick))
  {
    hide Sound, LoadMessage, EntrySound;
    if Loads(g.s, pick) {
      Reload(g, pick);
      LoadChanges(g, pick);
      LoadedKeeps(g, pick.value, LoadMessage(g.s.folder, pick).message);
    }
  }

  lemma PopKeeps(g: Ledger)
    requires Sound(g)
    ensures Sound(RecordPop(g))
  {
    hide EntriesSound, FilesSound, QueueSound, Count;
    QueuePops(g);
  }

  lemma StepKeeps(g: Ledger, op: Op)
    requires Sound(g)
    ensures Sound(Record(g, op))
  {
    hide Sound, RecordPush, RecordPop, RecordLoad;
    match op
    case DoPush(m, diskOk) => PushKeeps(g, m, diskOk);
    case DoPop(pick) => LoadKeeps(g, pick); PopKeeps(RecordLoad(g, pick));
    case DoPopAgain => PopKeeps(g);
  }

  lemma StartSound()
    ensures Sound(START)
  {
  }

  /**
   * The books of every run, for all messages and every behaviour of the disk. Each pushed message has
   * exactly one fate: the entered ones are, in that order and once each, those delivered and then
   * those in memory; those on disk have one file each, and nothing else has one; the others are lost.
   * The counter exceeds the files by exactly the overwritten and the phantom messages.
   */
  lemma {:induction false} EveryRunIsSound(ops: seq<Op>)
    ensures Sound(RecordAll(START, ops))
    decreases |ops|
  {
    hide Sound, Record;
    if ops == [] {
      StartSound();
    } else {
      EveryRunIsSound(ops[..|ops| - 1]);
      StepKeeps(RecordAll(START, ops[..|ops| - 1]), ops[|ops| - 1]);
    }
  }

  lemma {:induction false} FatesAddUp(fates: seq<Fate>)
    ensures |fates| == Count(fates, Entered) + Count(fates, OnDisk) + Count(fates, Overwritten)
                       + Count(fates, Phantom) + Count(fates, Refusal)
  {
    if fates != [] {
      var init, last := fates[..|fates| - 1], fates[|fates| - 1];
      FatesAddUp(init);
      CountAppend(init, last);
      assert fates == init + [last];
    }
  }

  /** Conservation: pushed messages are delivered, in memory, on disk, or lost in one of three ways. */
  lemma NumbersAddUp(ops: seq<Op>)
    ensures var g := RecordAll(START, ops);
            |g.pushed| == |g.delivered| + |g.s.queue| + |g.s.folder| + Count(g.fates, Overwritten)
                          + Count(g.fates, Phantom) + Count(g.fates, Refusal)
  {
    hide RecordAll, EntriesSound, FilesSound, Count;
    EveryRunIsSound(ops);
    var g := RecordAll(START, ops);
    FatesAddUp(g.fates);
    EntriesLength(g.entered, g.pushed, g.fates);
    assert |Messages(g.entered)| == |g.delivered + g.s.queue|;
  }

  /** What comes back from disk is the pushed message without its crop, exactly for clean plates. */
  lemma ReloadedIntactExactly(ops: seq<Op>, i: nat)
    requires i < |RecordAll(START, ops).entered| && RecordAll(START, ops).entered[i].Reloaded?
    ensures var g := RecordAll(START, ops);
            var e := g.entered[i];
            && e.number < |g.pushed| && g.pushed[e.number].Update?
            && (e.message == Strip(g.pushed[e.number]) <==> CleanPlate(g.pushed[e.number].plate))
  {
    hide RecordAll, FilesSound, CountsSound, QueueSound, Load;
    EveryRunIsSound(ops);
    var g := RecordAll(START, ops);
    assert EntrySound(g.entered[i], g.pushed);
    FileRoundTrip(g.pushed[g.entered[i].number]);
  }

  // ------------------------------------------------------------------ conservation of messages

  function StripAll(ms: seq<Message>): (stripped: seq<Message>)
    ensures |stripped| == |ms| && forall i :: 0 <= i < |ms| ==> stripped[i] == Strip(ms[i])
  {
    seq(|ms|, i requires 0 <= i < |ms| => Strip(ms[i]))
  }

  /** The pushed messages of one fate, without their crops. */
  function ByFate(pushed: seq<Message>, fates: seq<Fate>, fate: Fate): multiset<Message>
    requires |fates| == |pushed|
    decreases |fates|
  {
    if fates == [] then multiset{}
    else
      var n := |fates| - 1;
      ByFate(pushed[..n], fates[..n], fate) + (if fates[n] == fate then multiset{Strip(pushed[n])} else multiset{})
  }

  /** The pushed messages behind the entries, without their crops. */
  function Origins(entered: seq<Entry>, pushed: seq<Message>): (ms: seq<Message>)
    requires forall i :: 0 <= i < |entered| ==> entered[i].number < |pushed|
    ensures |ms| == |entered| && forall i :: 0 <= i < |entered| ==> ms[i] == Strip(pushed[entered[i].number])
  {
    seq(|entered|, i requires 0 <= i < |entered| => Strip(pushed[entered[i].number]))
  }

  lemma ByFateStep(pushed: seq<Message>, fates: seq<Fate>, fate: Fate)
    requires |fates| == |pushed| > 0
    ensures var n := |fates| - 1;
            ByFate(pushed, fates, fate)
            == ByFate(pushed[..n], fates[..n], fate) + Only(fates[n] == fate, Strip(pushed[n]))
  {
    hide Strip;
  }

  function Only(b: bool, m: Message): multiset<Message> { if b then multiset{m} else multiset{} }

  lemma Pairwise(a: multiset<Message>, x: multiset<Message>, b: multiset<Message>, y: multiset<Message>)
    ensures (a + x) + (b + y) == (a + b) + (x + y)
  {
  }

  lemma {:induction false} ByFateChange(pushed: seq<Message>, fates: seq<Fate>, k: nat, fate: Fate)
    requires |fates| == |pushed| && k < |fates| && fates[k] != fate
    ensures ByFate(pushed, fates, fates[k]) == ByFate(pushed, fates[k := fate], fates[k]) + multiset{Strip(pushed[k])}
    decreases |fates|
  {
    hide Strip, ByFate;
    var n, changed := |fates| - 1, fates[k := fate];
    ByFateStep(pushed, fates, fates[k]);
    ByFateStep(pushed, changed, fates[k]);
    if k < n {
      ByFateChange(pushed[..n], fates[..n], k, fate);
      assert changed[..n] == fates[..n][k := fate];
      Pairwise(ByFate(pushed[..n], changed[..n], fates[k]), multiset{Strip(pushed[k])}, multiset{},
               Only(fates[n] == fates[k], Strip(pushed[n])));
    } else {
      assert changed[..n] == fates[..n];
    }
  }

  lemma {:induction false} NoneOfFate(pushed: seq<Message>, fates: seq<Fate>, fate: Fate)
    requires |fates| == |pushed| && fate !in fates
    ensures ByFate(pushed, fates, fate) == multiset{}
    decreases |fates|
  {
    if fates != [] { NoneOfFate(pushed[..|fates| - 1], fates[..|fates| - 1], fate); }
  }

  lemma EntryLeaves(entered: seq<Entry>, pushed: seq<Message>, fates: seq<Fate>)
    requires EntriesSound(entered, pushed, fates) && entered != []
    ensures var n := |entered| - 1;
            var k := entered[n].number;
            k < |fates| && fates[k] == Entered && EntriesSound(entered[..n], pushed, fates[k := Refusal])
  {
    hide EntrySound;
    var n := |entered| - 1;
    var k, rest := entered[n].number, entered[..n];
    assert EntrySound(entered[n], pushed) && HasEntered(entered, k);
    assert k < |fates| by { EntryInRange(entered[n], pushed); }
    forall j: nat | j < |fates| ensures fates[k := Refusal][j] == Entered <==> HasEntered(rest, j) {
      if j != k && HasEntered(entered, j) {
        var i :| 0 <= i < |entered| && entered[i].number == j;
        assert rest[i].number == j;
      }
    }
  }

  lemma EntryInRange(e: Entry, pushed: seq<Message>)
    requires EntrySound(e, pushed)
    ensures e.number < |pushed|
  {
  }

  lemma AllInRange(entered: seq<Entry>, pushed: seq<Message>, fates: seq<Fate>)
    requires EntriesSound(entered, pushed, fates)
    ensures |fates| == |pushed| && forall i :: 0 <= i < |entered| ==> entered[i].number < |pushed|
  {
    hide EntrySound;
    forall i | 0 <= i < |entered| ensures entered[i].number < |pushed| { EntryInRange(entered[i], pushed); }
  }

  lemma {:induction false} EnteredOrigins(entered: seq<Entry>, pushed: seq<Message>, fates: seq<Fate>)
    requires EntriesSound(entered, pushed, fates)
    requires |fates| == |pushed| && forall i :: 0 <= i < |entered| ==> entered[i].number < |pushed|
    ensures multiset(Origins(entered, pushed)) == ByFate(pushed, fates, Entered)
    decreases |entered|
  {
    hide EntriesSound, ByFate, Strip;
    if entered == [] {
      NoEntries(pushed, fates);
    } else {
      var n := |entered| - 1;
      var k := entered[n].number;
      EntryLeaves(entered, pushed, fates);
      EnteredOrigins(entered[..n], pushed, fates[k := Refusal]);
      ByFateChange(pushed, fates, k, Refusal);
      assert Origins(entered, pushed) == Origins(entered[..n], pushed) + [Strip(pushed[k])];
    }
  }

  lemma NoEntries(pushed: seq<Message>, fates: seq<Fate>)
    requires EntriesSound([], pushed, fates)
    ensures |fates| == |pushed| && ByFate(pushed, fates, Entered) == multiset{}
  {
    forall k: nat | k < |fates| ensures fates[k] != Entered { assert !HasEntered([], k); }
    NoneOfFate(pushed, fates, Entered);
  }

  lemma ExactlyOne(fate: Fate, m: Message)
    ensures Only(fate == Entered, m) + Only(fate == OnDisk, m) + Only(fate == Overwritten, m)
            + Only(fate == Phantom, m) + Only(fate == Refusal, m) == multiset{m}
  {
  }

  lemma OneOfFive(a: multiset<Message>, b: multiset<Message>, c: multiset<Message>, d: multiset<Message>,
                  e: multiset<Message>, m: Message, fate: Fate)
    ensures (a + Only(fate == Entered, m)) + (b + Only(fate == OnDisk, m)) + (c + Only(fate == Overwritten, m))
            + (d + Only(fate == Phantom, m)) + (e + Only(fate == Refusal, m))
            == a + b + c + d + e + multiset{m}
  {
    hide Only;
    var v, w, x, y, z := Only(fate == Entered, m), Only(fate == OnDisk, m), Only(fate == Overwritten, m),
                         Only(fate == Phantom, m), Only(fate == Refusal, m);
    Pairwise(a, v, b, w);
    Pairwise(a + b, v + w, c, x);
    Pairwise(a + b + c, v + w + x, d, y);
    Pairwise(a + b + c + d, v + w + x + y, e, z);
    ExactlyOne(fate, m);
  }

  function AllFates(pushed: seq<Message>, fates: seq<Fate>): multiset<Message>
    requires |fates| == |pushed|
  {
    ByFate(pushed, fates, Entered) + ByFate(pushed, fates, OnDisk) + ByFate(pushed, fates, Overwritten)
    + ByFate(pushed, fates, Phantom) + ByFate(pushed, fates, Refusal)
  }

  lemma AllFatesStep(pushed: seq<Message>, fates: seq<Fate>)
    requires |fates| == |pushed| > 0
    ensures var n := |fates| - 1;
            AllFates(pushed, fates) == AllFates(pushed[..n], fates[..n]) + multiset{Strip(pushed[n])}
  {
    hide ByFate, Strip, Only;
    var n := |fates| - 1;
    var p, f := pushed[..n], fates[..n];
    ByFateStep(pushed, fates, Entered);
    ByFateStep(pushed, fates, OnDisk);
    ByFateStep(pushed, fates, Overwritten);
    ByFateStep(pushed, fates, Phantom);
    ByFateStep(pushed, fates, Refusal);
    OneOfFive(ByFate(p, f, Entered), ByFate(p, f, OnDisk), ByFate(p, f, Overwritten), ByFate(p, f, Phantom),
              ByFate(p, f, Refusal), Strip(pushed[n]), fates[n]);
  }

  lemma {:induction false} EveryMessageHasAFate(pushed: seq<Message>, fates: seq<Fate>)
    requires |fates| == |pushed|
    ensures multiset(StripAll(pushed)) == AllFates(pushed, fates)
    decreases |fates|
  {
    hide Strip, AllFates;
    if fates == [] {
      NoMessages(pushed, fates);
    } else {
      var n := |fates| - 1;
      EveryMessageHasAFate(pushed[..n], fates[..n]);
      AllFatesStep(pushed, fates);
      assert StripAll(pushed) == StripAll(pushed[..n]) + [Strip(pushed[n])];
    }
  }

  lemma NoMessages(pushed: seq<Message>, fates: seq<Fate>)
    requires |fates| == |pushed| == 0
    ensures multiset(StripAll(pushed)) == AllFates(pushed, fates)
  {
    assert StripAll(pushed) == [];
  }

  /** No file that was loaded had a '_' in its plate. */
  ghost predicate CleanLoads(g: Ledger) {
    forall i :: 0 <= i < |g.entered| && g.entered[i].Reloaded? ==>
                  g.entered[i].number < |g.pushed| && g.pushed[g.entered[i].number].Update?
                  && CleanPlate(g.pushed[g.entered[i].number].plate)
  }

  lemma CleanOrigins(entered: seq<Entry>, pushed: seq<Message>, i: nat)
    requires i < |entered| && EntrySound(entered[i], pushed)
    requires entered[i].Reloaded? ==> pushed[entered[i].number].Update? && CleanPlate(pushed[entered[i].number].plate)
    ensures Strip(entered[i].message) == Strip(pushed[entered[i].number])
  {
    hide Load;
    if entered[i].Reloaded? { FileRoundTrip(pushed[entered[i].number]); }
  }

  lemma CleanDeliveries(g: Ledger)
    requires Sound(g) && CleanLoads(g)
    ensures forall i :: 0 <= i < |g.entered| ==> g.entered[i].number < |g.pushed|
    ensures StripAll(g.delivered) + StripAll(g.s.queue) == Origins(g.entered, g.pushed)
  {
    hide EntrySound, FilesSound, CountsSound, Strip, CleanPlate;
    AllInRange(g.entered, g.pushed, g.fates);
    assert Messages(g.entered) == g.delivered + g.s.queue;
    forall i | 0 <= i < |g.entered|
      ensures Strip((g.delivered + g.s.queue)[i]) == Strip(g.pushed[g.entered[i].number])
    {
      assert (g.delivered + g.s.queue)[i] == Messages(g.entered)[i];
      CleanOrigins(g.entered, g.pushed, i);
    }
    assert StripAll(g.delivered) + StripAll(g.s.queue) == StripAll(g.delivered + g.s.queue);
  }

  /**
   * Conservation, up to the crops that are not saved: the multiset of pushed messages is those behind
   * the entries and those of the other fates. If the loaded files had clean plates, those behind the
   * entries are exactly the messages delivered and in memory.
   */
  lemma MessagesConserved(ops: seq<Op>)
    ensures var g := RecordAll(START, ops);
            && |g.fates| == |g.pushed|
            && (forall i :: 0 <= i < |g.entered| ==> g.entered[i].number < |g.pushed|)
            && multiset(StripAll(g.pushed))
               == multiset(Origins(g.entered, g.pushed)) + ByFate(g.pushed, g.fates, OnDisk)
                  + ByFate(g.pushed, g.fates, Overwritten) + ByFate(g.pushed, g.fates, Phantom)
                  + ByFate(g.pushed, g.fates, Refusal)
            && (CleanLoads(g) ==> StripAll(g.delivered) + StripAll(g.s.queue) == Origins(g.entered, g.pushed))
  {
    hide RecordAll, EntriesSound, FilesSound, CountsSound, QueueSound, ByFate, CleanLoads, StripAll;
    EveryRunIsSound(ops);
    var g := RecordAll(START, ops);
    AllInRange(g.entered, g.pushed, g.fates);
    EnteredOrigins(g.entered, g.pushed, g.fates);
    EveryMessageHasAFate(g.pushed, g.fates);
    if CleanLoads(g) { CleanDeliveries(g); }
  }

  // ------------------------------------------------------------------ what is lost

  predicate Kept(fate: Fate) { fate == Entered || fate == OnDisk }

  predicate NothingLost(g: Ledger) { forall k :: 0 <= k < |g.fates| ==> Kept(g.fates[k]) }

  /** A push that finds the memory full saves an update under a new name. */
  predicate SafePush(g: Ledger, op: Op) {
    op.DoPush? && |g.s.queue| >= MAX_SIZE ==>
      CanSave(op.message, op.diskOk) && Filename(op.message) !in g.s.folder
  }

  predicate AllPushesSafe(ops: seq<Op>)
    decreases |ops|
  {
    ops != [] ==> AllPushesSafe(ops[..|ops| - 1]) && SafePush(RecordAll(START, ops[..|ops| - 1]), ops[|ops| - 1])
  }

  lemma LossStep(g: Ledger, op: Op)
    requires Sound(g)
    ensures NothingLost(Record(g, op)) <==> NothingLost(g) && SafePush(g, op)
  {
    hide EntriesSound, CountsSound, QueueSound, LoadMessage, Filename;
    match op
    case DoPush(m, diskOk) =>
      if |g.s.queue| >= MAX_SIZE { SpillLoss(g, m, diskOk); } else { LastFate(g.fates, Entered); }
    case DoPop(pick) => if Loads(g.s, pick) { LoadLoss(g, pick); }
    case DoPopAgain =>
  }

  lemma LastFate(fates: seq<Fate>, fate: Fate)
    ensures (forall k :: 0 <= k < |fates| + 1 ==> Kept((fates + [fate])[k]))
            <==> (forall k :: 0 <= k < |fates| ==> Kept(fates[k])) && Kept(fate)
  {
    var more := fates + [fate];
    assert forall k :: 0 <= k < |fates| ==> more[k] == fates[k];
    assert more[|fates|] == fate;
  }

  lemma SpillLoss(g: Ledger, m: Message, diskOk: bool)
    requires Sound(g) && |g.s.queue| >= MAX_SIZE
    ensures NothingLost(RecordPush(g, m, diskOk)) <==> NothingLost(g) && SafePush(g, DoPush(m, diskOk))
  {
    hide EntriesSound, CountsSound, QueueSound, Filename;
    SameKeys(g.s.folder, g.files, g.pushed, g.fates);
    if !CanSave(m, diskOk) {
      LastFate(g.fates, if m.Sync? then Phantom else Refusal);
    } else {
      var name := Filename(m);
      LastFate(FileGoes(g, name, Overwritten), OnDisk);
      if name in g.files {
        assert FileOf(g.s.folder, g.pushed, name, g.files[name]);
        assert FileGoes(g, name, Overwritten)[g.files[name]] == Overwritten;
      }
    }
  }

  lemma LoadLoss(g: Ledger, pick: Option<string>)
    requires Sound(g) && Loads(g.s, pick)
    ensures NothingLost(RecordLoad(g, pick)) <==> NothingLost(g)
  {
    Reload(g, pick);
    hide Sound, LoadMessage;
    var k := g.files[pick.value];
    assert RecordLoad(g, pick).fates == g.fates[k := Entered];
    if NothingLost(RecordLoad(g, pick)) {
      forall i | 0 <= i < |g.fates| ensures Kept(g.fates[i]) {
        assert i != k ==> RecordLoad(g, pick).fates[i] == g.fates[i];
      }
    }
  }

  /**
   * A run loses nothing exactly when every push that found the memory full saved an update under a new
   * name; the pushed messages are then those delivered, in memory and on disk, and the counter is right.
   */
  lemma {:induction false} NothingLostExactly(ops: seq<Op>)
    ensures NothingLost(RecordAll(START, ops)) <==> AllPushesSafe(ops)
    ensures var g := RecordAll(START, ops);
            AllPushesSafe(ops) ==>
              |g.pushed| == |g.delivered| + |g.s.queue| + |g.s.folder| && g.s.numStoredData == |g.s.folder|
    decreases |ops|
  {
    EveryRunIsSound(ops);
    NumbersAddUp(ops);
    hide Record, SafePush, EntriesSound, FilesSound, QueueSound, Count;
    var g := RecordAll(START, ops);
    if ops != [] {
      NothingLostExactly(ops[..|ops| - 1]);
      EveryRunIsSound(ops[..|ops| - 1]);
      LossStep(RecordAll(START, ops[..|ops| - 1]), ops[|ops| - 1]);
    }
    if NothingLost(g) { NoneCounted(g); }
  }

  /** The promise for such runs: but for the crops, the pushed messages are those delivered, in memory and on disk. */
  lemma LosslessRun(ops: seq<Op>)
    requires AllPushesSafe(ops)
    ensures var g := RecordAll(START, ops);
            && |g.fates| == |g.pushed|
            && (CleanLoads(g) ==>
                  multiset(StripAll(g.pushed))
                  == multiset(StripAll(g.delivered)) + multiset(StripAll(g.s.queue))
                     + ByFate(g.pushed, g.fates, OnDisk))
  {
    hide RecordAll, ByFate, CleanLoads, StripAll;
    NothingLostExactly(ops);
    MessagesConserved(ops);
    var g := RecordAll(START, ops);
    assert forall k :: 0 <= k < |g.fates| ==> Kept(g.fates[k]);
    NoneOfFate(g.pushed, g.fates, Overwritten);
    NoneOfFate(g.pushed, g.fates, Phantom);
    NoneOfFate(g.pushed, g.fates, Refusal);
    assert multiset(StripAll(g.delivered) + StripAll(g.s.queue))
           == multiset(StripAll(g.delivered)) + multiset(StripAll(g.s.queue));
  }

  lemma NoneCounted(g: Ledger)
    requires NothingLost(g)
    ensures Count(g.fates, Overwritten) == Count(g.fates, Phantom) == Count(g.fates, Refusal) == 0
  {
    assert forall k :: 0 <= k < |g.fates| ==> Kept(g.fates[k]);
    assert Overwritten !in g.fates && Phantom !in g.fates && Refusal !in g.fates;
  }

  /** Ten pushes fill the memory. */
  lemma {:induction false} FillUp(m: Message, n: nat)
    requires n <= MAX_SIZE
    ensures var g := RecordAll(START, seq(n, _ => DoPush(m, true)));
            && |g.s.queue| == |g.pushed| == |g.fates| == n && g.s.folder == map[] && g.files == map[]
            && g.delivered == []
  {
    if n > 0 {
      FillUp(m, n - 1);
      var ops := seq(n, _ => DoPush(m, true));
      assert ops[..n - 1] == seq(n - 1, _ => DoPush(m, true)) && ops[n - 1] == DoPush(m, true);
      hide PushTo, Filename, CanSave;
      RoomLeft(RecordAll(START, ops[..n - 1]).s, m, true);
    }
  }

  lemma RoomLeft(s: QueueState, m: Message, diskOk: bool)
    requires |s.queue| < MAX_SIZE
    ensures PushTo(s, m, diskOk) == s.(queue := s.queue + [m])
  {
  }

  /** Messages do get lost: without a pop, the eleventh sync message, and the eleventh of twelve equal updates. */
  lemma MessagesCanBeLost(m: Message)
    ensures var fates := RecordAll(START, seq(11, _ => DoPush(m, true))).fates;
            m.Sync? ==> |fates| == 11 && fates[10] == Phantom
    ensures var fates := RecordAll(START, seq(12, _ => DoPush(m, true))).fates;
            CanSave(m, true) ==> |fates| == 12 && fates[10] == Overwritten && fates[11] == OnDisk
  {
    hide Filename;
    var push := DoPush(m, true);
    var ten, eleven, twelve := seq(10, _ => push), seq(11, _ => push), seq(12, _ => push);
    assert eleven[..10] == ten && twelve[..11] == eleven;
    FillUp(m, 10);
    var g10 := RecordAll(START, ten);
    var g11 := RecordPush(g10, m, true);
    assert RecordAll(START, eleven) == g11;
    assert RecordAll(START, twelve) == RecordPush(g11, m, true);
  }

  // ------------------------------------------------------------------ draining

  /** Consecutive calls of try_pop, with the files their directory scans end on. */
  function PopAll(s: QueueState, picks: seq<Option<string>>): seq<Popped>
    decreases |picks|
  {
    if picks == [] then []
    else
      var (next, data) := TryPopFrom(s, picks[0]);
      [data] + PopAll(next, picks[1..])
  }

  /** Every scan of a non-empty folder finds, loads and removes a file. */
  predicate LoadsSucceed(s: QueueState, picks: seq<Option<string>>)
    decreases |picks|
  {
    picks != [] ==>
      && (s.folder != map[] ==> LoadMessage(s.folder, picks[0]).Loaded?)
      && LoadsSucceed(TryPopFrom(s, picks[0]).0, picks[1..])
  }

  lemma TryPopDrains(s: QueueState, pick: Option<string>)
    requires |s.queue| <= MAX_SIZE && s.numStoredData >= |s.folder|
    requires s.folder != map[] ==> LoadMessage(s.folder, pick).Loaded?
    ensures var (next, data) := TryPopFrom(s, pick);
            && (data.Got? <==> |s.queue| + |s.folder| > 0)
            && |next.queue| <= MAX_SIZE && next.numStoredData >= |next.folder|
            && (data.Got? ==> |next.queue| + |next.folder| == |s.queue| + |s.folder| - 1)
            && (!data.Got? ==> data == Nothing && next == s)
  {
    hide LoadMessage;
    if s.folder != map[] {
      assert |s.folder| > 0;
      if |s.queue| < MAX_SIZE {
        PickInFolder(s.folder, pick);
        FolderSizes(s.folder, pick.value, s.folder[pick.value]);
      }
    } else {
      assert LoadMessage(s.folder, pick).Refused? by { EmptyFolder(pick); }
    }
  }

  lemma PickInFolder(folder: map<string, Frame>, pick: Option<string>)
    requires LoadMessage(folder, pick).Loaded?
    ensures pick.Some? && pick.value in folder
  {
  }

  lemma EmptyFolder(pick: Option<string>)
    ensures LoadMessage(map[], pick).Refused?
  {
  }

  /** Once pushes stop and loads succeed, as many calls of try_pop succeed as messages are in memory or on disk. */
  lemma {:induction false} DrainsExactly(s: QueueState, picks: seq<Option<string>>, i: nat)
    requires |s.queue| <= MAX_SIZE && s.numStoredData >= |s.folder|
    requires LoadsSucceed(s, picks) && i < |picks|
    ensures |PopAll(s, picks)| == |picks|
    ensures PopAll(s, picks)[i].Got? <==> i < |s.queue| + |s.folder|
    decreases |picks|
  {
    hide TryPopFrom;
    TryPopDrains(s, picks[0]);
    var next := TryPopFrom(s, picks[0]).0;
    if i > 0 {
      DrainsExactly(next, picks[1..], i - 1);
    } else if |picks| > 1 {
      DrainsExactly(next, picks[1..], 0);
    }
  }
}
